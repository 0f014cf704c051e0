/**
 The operations on one stored room. Each loads it, changes it and saves the whole of it back; every
 save is validated, and no operation here is ever refused by that validation.
 */
module RoomService {
  import opened Prelude
  import opened Rooms
  import opened InviteLineage
  import opened Aliases
  import opened Membership
  import opened Reconciliation
  import opened ReconciledRoom
  import ThreadRouting
  import ThreadRuns

  datatype Done = Saved | Refused | Failed

  datatype RemovalReply = ContactMissing | RemovalAnswered(queued: bool, notified: bool) | RemovalThrew
  datatype RemovalStatus = CancelledPending | AlreadyAbsent | Answered(queued: bool)
  datatype Removal = NoRemoval | Removal(participant: Ulid, epoch: nat, status: RemovalStatus, notified: bool)

  predicate Mutable(room: Room) {
    !room.state.Closing? && !room.state.Closed?
  }

  /** Seats are only ever appended, keep who they are, and a removed seat stays removed. */
  ghost predicate Progresses(room: Room, room': Room) {
    && room'.id == room.id && room'.anonymous == room.anonymous
    && |room.seats| <= |room'.seats| && SeatsProgress(room.seats, room'.seats[..|room.seats|])
  }

  lemma ProgressComposes(a: Room, b: Room, c: Room)
    requires Progresses(a, b) && Progresses(b, c)
    ensures Progresses(a, c)
  {
    forall k | 0 <= k < |a.seats| ensures SameSeat(a.seats[k], c.seats[..|a.seats|][k]) {
      assert SameSeat(a.seats[k], b.seats[..|a.seats|][k]);
      assert SameSeat(b.seats[k], c.seats[..|b.seats|][k]);
    }
  }

  /** What the service does to a healthy room is what the runs of the thread model allow it to do. */
  lemma OperationsEvolve(room: Room, room': Room)
    requires Healthy(room) && Healthy(room') && Progresses(room, room')
    ensures ThreadRuns.Evolves(room, room')
  {
    forall k | 0 <= k < |room.seats| ensures SameSeat(room.seats[k], room'.seats[k]) {
      assert SameSeat(room.seats[k], room'.seats[..|room.seats|][k]);
    }
    forall s | s in room'.seats && room'.anonymous ensures s.alias.Some? && s.alias.value != "" {
      var k :| 0 <= k < |room'.seats| && room'.seats[k] == s;
    }
  }

  /** A one-time invite asks for one accept; without provenance no other invitation may be open. */
  predicate MayInvite(room: Room, mode: InviteMode, minAccepts: nat, provenance: bool) {
    && Mutable(room) && minAccepts > 0 && (mode.OneTime? ==> minAccepts == 1)
    && (provenance || forall i :: i in room.invites ==> !i.state.Live? && !i.state.ReceiptPending?)
  }

  /** The redeemed invite came from the expected CID, which was no contact before and holds no open seat. */
  predicate MaySeat(room: Room, cid: Cid, expected: Option<Cid>, knownContact: bool) {
    Mutable(room) && (expected.None? || expected.value == cid) && !knownContact && !HoldsSeat(room.seats, cid)
  }

  predicate FreshInvite(room: Room, id: InviteId) {
    FindInvite(room.invites, id).None? && forall s :: s in room.seats ==> s.inviteId != id
  }

  ghost predicate FreshFor(room: Room, seen: Observed) {
    |seen.contacts| <= |seen.ids| && FreshIds(room.seats, seen.ids)
  }

  /** The first non-removed seat that matches, else the first removed one. */
  function SeatToRemove(room: Room, who: string): (r: Option<Seat>)
    ensures r.Some? ==> r.value in room.seats
  {
    var open := FindSeat(room.seats, (s: Seat) => !s.state.RemovedSeat? && (s.identity == who || s.participant == who));
    if open.Some? then open else FindSeat(room.seats, (s: Seat) => s.identity == who || s.participant == who)
  }

  /** An external admission that was cancelled before it ever became active. */
  predicate CancelledExternal(seat: Seat) {
    seat.state.RemovedSeat? && seat.acceptedAt.None? && seat.requestedAt.Some? && seat.inviteDigest.Some?
  }

  /** Whether a removal asks the SDK to remove the contact. */
  predicate Calls(seat: Seat, established: bool) {
    if seat.state.PendingSeat? || CancelledExternal(seat) then established else seat.state.ActiveSeat?
  }

  function StatusOf(seat: Seat, established: bool, reply: RemovalReply): RemovalStatus {
    if Calls(seat, established) then if reply.RemovalAnswered? then Answered(reply.queued) else AlreadyAbsent
    else if seat.state.PendingSeat? || CancelledExternal(seat) then CancelledPending
    else AlreadyAbsent
  }

  function RemovalEpoch(room: Room, seat: Seat): nat {
    if seat.state.ActiveSeat? then room.epoch + 1
    else if seat.state.PendingSeat? || CancelledExternal(seat) || seat.removedEpoch.None? then room.epoch
    else seat.removedEpoch.value
  }

  function ClosedSeat(seat: Seat, epoch: nat, now: Time): Seat {
    seat.(state := RemovedSeat, removedAt := Some(now), removedEpoch := Some(epoch))
  }

  lemma SamePrefix(room: Room, room': Room)
    requires room'.id == room.id && room'.anonymous == room.anonymous && room.seats <= room'.seats
    ensures Progresses(room, room')
  {
    assert room'.seats[..|room.seats|] == room.seats;
  }

  lemma PendingSeatKeepsHealthy(room: Room, seat: Seat)
    requires Healthy(room) && NewSeatFits(room.seats, room.anonymous, seat) && seat.state.PendingSeat?
    requires FindInvite(room.invites, seat.inviteId).None?
    ensures var next := room.(seats := room.seats + [seat]);
      Healthy(next) && Progresses(room, next) && RoomValid(next)
  {
    var next := room.(seats := room.seats + [seat]);
    AppendKeepsSeats(room.seats, room.anonymous, room.epoch, seat);
    SeatsOnlyGrow(room.grants, room.seats, next.seats);
    SamePrefix(room, next);
    HealthyIsValid(next);
  }

  lemma SeatStepKeepsHealthy(room: Room, k: nat, s: Seat, gone: set<Cid>, epoch: nat)
    requires Healthy(room) && k < |room.seats| && SameSeat(room.seats[k], s) && SeatValid(s)
    requires epoch == room.epoch - EpochWeight(room.seats[k]) + EpochWeight(s) && room.epoch <= epoch
    requires s.removedEpoch.Some? ==> s.removedEpoch.value <= epoch
    requires room.seats[k].state.ActiveSeat? && !s.state.ActiveSeat? ==> s.identity in gone
    ensures Where(room.seats, s.participant, s) == room.seats[k := s]
    ensures var next := room.(seats := room.seats[k := s], grants := GrantsWithout(room.grants, gone), epoch := epoch);
      Healthy(next) && Progresses(room, next)
  {
    var seats := room.seats[k := s];
    StepOneSeat(room.seats, room.anonymous, room.epoch, k, s, epoch);
    ProgressKeepsUnused(room.seats, seats, room.invites);
    SeatStepKeepsGrants(room, k, s, gone);
    assert seats[..|room.seats|] == seats;
  }

  lemma SeatStepKeepsGrants(room: Room, k: nat, s: Seat, gone: set<Cid>)
    requires GrantsValid(room.grants, room.seats) && k < |room.seats| && s.identity == room.seats[k].identity
    requires room.seats[k].state.ActiveSeat? && !s.state.ActiveSeat? ==> s.identity in gone
    requires OneSeatPerCid(room.seats)
    ensures GrantsValid(GrantsWithout(room.grants, gone), room.seats[k := s])
  {
    var seats := room.seats[k := s];
    forall t | t in room.seats && t.state.ActiveSeat? && t.identity !in gone ensures HoldsActiveSeat(seats, t.identity) {
      var j :| 0 <= j < |room.seats| && room.seats[j] == t;
      assert j == k || seats[j] == t;
      assert seats[j] in seats && seats[j].state.ActiveSeat?;
    }
    GrantsStillValid(room.grants, gone, room.seats, seats);
  }

  /** The sender's first removed seat. */
  predicate FirstRemovedAt(seats: seq<Seat>, sender: Cid, k: nat) {
    && k < |seats| && seats[k].identity == sender && seats[k].state.RemovedSeat?
    && forall j :: 0 <= j < k ==> !(seats[j].identity == sender && seats[j].state.RemovedSeat?)
  }

  /** That seat carries no mark yet. */
  predicate OwesBounce(seats: seq<Seat>, sender: Cid) {
    exists k :: 0 <= k < |seats| && FirstRemovedAt(seats, sender, k) && seats[k].bouncedAt.None?
  }

  function RemovedSeatOf(seats: seq<Seat>, sender: Cid): (r: Option<Seat>)
    ensures r.Some? ==> r.value in seats && r.value.identity == sender && r.value.state.RemovedSeat?
    ensures r.None? ==> forall s :: s in seats ==> !(s.identity == sender && s.state.RemovedSeat?)
  {
    FindSeat(seats, (s: Seat) => s.identity == sender && s.state.RemovedSeat?)
  }

  lemma {:induction false} FoundIsFirst(seats: seq<Seat>, sender: Cid) returns (k: nat)
    requires RemovedSeatOf(seats, sender).Some?
    ensures FirstRemovedAt(seats, sender, k) && seats[k] == RemovedSeatOf(seats, sender).value
  {
    if seats[0].identity == sender && seats[0].state.RemovedSeat? {
      k := 0;
    } else {
      assert RemovedSeatOf(seats, sender) == RemovedSeatOf(seats[1..], sender);
      k := FoundIsFirst(seats[1..], sender);
      FirstAfterOther(seats, sender, k);
      k := k + 1;
    }
  }

  lemma BounceGuard(seats: seq<Seat>, sender: Cid)
    ensures OwesBounce(seats, sender) <==>
      RemovedSeatOf(seats, sender).Some? && RemovedSeatOf(seats, sender).value.bouncedAt.None?
  {
    if RemovedSeatOf(seats, sender).Some? {
      var k := FoundIsFirst(seats, sender);
      FirstDecides(seats, sender, k);
    }
  }

  lemma FoundAtFirst(seats: seq<Seat>, sender: Cid, at: nat)
    requires RemovedSeatOf(seats, sender).Some? && at < |seats| && seats[at] == RemovedSeatOf(seats, sender).value
    requires DistinctParticipants(seats)
    ensures FirstRemovedAt(seats, sender, at)
  {
    var k := FoundIsFirst(seats, sender);
  }

  lemma FirstAfterOther(seats: seq<Seat>, sender: Cid, k: nat)
    requires seats != [] && !(seats[0].identity == sender && seats[0].state.RemovedSeat?) && FirstRemovedAt(seats[1..], sender, k)
    ensures FirstRemovedAt(seats, sender, k + 1)
  {
    forall j | 0 < j < k + 1 ensures !(seats[j].identity == sender && seats[j].state.RemovedSeat?) {
      assert seats[j] == seats[1..][j - 1];
    }
  }

  lemma FirstDecides(seats: seq<Seat>, sender: Cid, first: nat)
    requires FirstRemovedAt(seats, sender, first)
    ensures OwesBounce(seats, sender) <==> seats[first].bouncedAt.None?
  {
    forall k: nat | k < |seats| && FirstRemovedAt(seats, sender, k) ensures k == first { OneFirstRemoved(seats, sender, k, first); }
  }

  lemma OneFirstRemoved(seats: seq<Seat>, sender: Cid, j: nat, k: nat)
    requires FirstRemovedAt(seats, sender, j) && FirstRemovedAt(seats, sender, k)
    ensures j == k
  {
  }

  class RoomRecord {
    var room: Room

    constructor (id: RoomId, anonymous: bool, quiet: bool, requirements: seq<Requirement>)
      ensures Healthy(room) && room == Room(id, Provisioning, [], [], [], anonymous, quiet, 0, requirements, false)
    {
      room := Created(id, anonymous, quiet, requirements);
      new;
      CreatedIsHealthy(id, anonymous, quiet, requirements);
    }

    /** A save validates the whole room and stores it, or stores nothing. */
    method Save(next: Room) returns (ok: bool)
      modifies this
      ensures ok == RoomValid(next) && room == if ok then next else old(room)
    {
      ok := RoomValid(next);
      if ok { room := next; }
    }

    /** `mintInviteUnlocked`: refused without provenance while another invitation is open. */
    method CreateInvite(id: InviteId, mode: InviteMode, role: string, minAccepts: nat, provenance: bool, now: Time) returns (done: Done)
      requires Healthy(room) && FreshInvite(room, id)
      modifies this
      ensures Healthy(room) && Progresses(old(room), room)
      ensures done.Saved? <==> MayInvite(old(room), mode, minAccepts, provenance)
      ensures var invite := Invite(id, mode, role, minAccepts, [], Live, None, None, now);
        room == if done.Saved? then old(room).(invites := old(room).invites + [invite]) else old(room)
    {
      SamePrefix(room, room);
      var invite := Invite(id, mode, role, minAccepts, [], Live, None, None, now);
      if !Mutable(room) || !InviteValid(invite) { return Refused; }
      if !provenance && exists i :: i in room.invites && (i.state.Live? || i.state.ReceiptPending?) { return Refused; }
      var next := room.(invites := room.invites + [invite]);
      MintKeepsSound(room.invites, invite);
      HealthyIsValid(next);
      var ok := Save(next);
      return Saved;
    }

    /** The first save of `acceptExternalInvite`, after the SDK redeemed the invite. */
    method SeatExternal(cid: Cid, name: string, role: string, external: InviteId, digest: string, participant: Ulid,
                        expected: Option<Cid>, knownContact: bool, now: Time) returns (done: Done)
      requires Healthy(room) && FindInvite(room.invites, external).None?
      requires forall s :: s in room.seats ==> s.participant != participant
      modifies this
      ensures Healthy(room) && Progresses(old(room), room) && !done.Failed?
      ensures done.Saved? <==>
        && old(room).state != Closing && old(room).state != Closed && (expected.Some? ==> expected.value == cid) && !knownContact
        && forall s :: s in old(room).seats && s.identity == cid ==> s.state == RemovedSeat
      ensures !done.Saved? ==> room == old(room)
      ensures done.Saved? ==>
        room.seats != [] && PendingSeatAdded(old(room), room, Seat(cid, name, role, external, None, Some(now), Some(digest), participant, PendingSeat,
                                               room.seats[|room.seats| - 1].alias, false, None, None, None))
    {
      SamePrefix(room, room);
      if !MaySeat(room, cid, expected, knownContact) { return Refused; }
      var alias := if room.anonymous then Some(MintAlias(room.seats, role)) else None;
      var seat := Seat(cid, name, role, external, None, Some(now), Some(digest), participant, PendingSeat, alias, false, None, None, None);
      var next := room.(seats := room.seats + [seat]);
      PendingSeatKeepsHealthy(room, seat);
      var ok := Save(next);
      return Saved;
    }

    /** Replace the seat at `k`, drop the grants of `gone`, and move to `epoch`. */
    method SaveSeat(k: nat, s: Seat, gone: set<Cid>, epoch: nat)
      requires Healthy(room) && k < |room.seats| && SameSeat(room.seats[k], s) && SeatValid(s)
      requires epoch == room.epoch - EpochWeight(room.seats[k]) + EpochWeight(s) && room.epoch <= epoch
      requires s.removedEpoch.Some? ==> s.removedEpoch.value <= epoch
      requires room.seats[k].state.ActiveSeat? && !s.state.ActiveSeat? ==> s.identity in gone
      modifies this
      ensures Healthy(room) && Progresses(old(room), room)
      ensures room == old(room).(seats := old(room).seats[k := s], grants := GrantsWithout(old(room).grants, gone), epoch := epoch)
    {
      SeatStepKeepsHealthy(room, k, s, gone, epoch);
      var next := room.(seats := Where(room.seats, s.participant, s), grants := GrantsWithout(room.grants, gone), epoch := epoch);
      HealthyIsValid(next);
      var ok := Save(next);
    }

    /**
     `beginRemovalUnlocked`. A pending seat is cancelled at the current epoch; an active one takes the
     next epoch and loses its grants; a removed one is left alone. A thrown removal changes nothing.
     */
    method RemoveParticipant(who: string, established: bool, reply: RemovalReply, now: Time) returns (receipt: Removal)
      requires Healthy(room)
      modifies this
      ensures Healthy(room) && Progresses(old(room), room)
      ensures receipt.NoRemoval? <==>
        || old(room).state == Closing || old(room).state == Closed
        || (forall s :: s in old(room).seats ==> s.identity != who && s.participant != who)
        || (reply.RemovalThrew? && exists k :: IsMeant(old(room).seats, who, k) && AsksSdk(old(room).seats[k], established))
      ensures receipt.NoRemoval? ==> room == old(room)
      ensures receipt.Removal? ==> exists k ::
        IsMeant(old(room).seats, who, k) && RemovesSeat(old(room), room, k, receipt, now)
        && Reports(old(room).seats[k], established, reply, receipt)
    {
      SamePrefix(room, room);
      if !Mutable(room) { return NoRemoval; }
      var found := SeatToRemove(room, who);
      ghost var at := SeatIsMeant(room, who);
      if found.None? { return NoRemoval; }
      var seat := found.value;
      AsksIffCalled(room.seats, who, at, seat, established);
      if Calls(seat, established) && reply.RemovalThrew? { return NoRemoval; }
      receipt := Removal(seat.participant, RemovalEpoch(room, seat), StatusOf(seat, established, reply),
                         Calls(seat, established) && reply.RemovalAnswered? && reply.notified);
      AnswerIsReported(seat, established, reply, receipt);
      EndSeat(seat, receipt, now, at);
    }

    /** An open seat is closed at the epoch of the receipt; a removed one is left as it is. */
    method EndSeat(seat: Seat, receipt: Removal, now: Time, ghost at: nat)
      requires Healthy(room) && at < |room.seats| && room.seats[at] == seat
      requires receipt.Removal? && receipt.participant == seat.participant && receipt.epoch == RemovalEpoch(room, seat)
      modifies this
      ensures Healthy(room) && Progresses(old(room), room) && RemovesSeat(old(room), room, at, receipt, now)
    {
      SamePrefix(room, room);
      assert seat in room.seats && SeatValid(seat);
      if !seat.state.RemovedSeat? {
        var k := CloseSeat(seat, receipt.epoch, now);
        SamePlace(old(room).seats, k, at);
      }
    }

    /** Mark one open seat removed and drop its grants. */
    method CloseSeat(seat: Seat, epoch: nat, now: Time) returns (at: nat)
      requires Healthy(room) && seat in room.seats && !seat.state.RemovedSeat?
      requires epoch == room.epoch + if seat.state.ActiveSeat? then 1 else 0
      modifies this
      ensures Healthy(room) && Progresses(old(room), room)
      ensures at < |old(room).seats| && old(room).seats[at] == seat
      ensures room == old(room).(seats := old(room).seats[at := ClosedSeat(seat, epoch, now)],
                                 grants := GrantsWithout(old(room).grants, {seat.identity}), epoch := epoch)
    {
      at := FindPosition(room.seats, seat);
      SaveSeat(at, ClosedSeat(seat, epoch, now), {seat.identity}, epoch);
    }

    /** `bounceRemovedSender`: the mark that makes the one notice to a removed sender at-most-once. */
    method MarkBounced(sender: Cid, now: Time) returns (notify: bool)
      requires Healthy(room)
      modifies this
      ensures Healthy(room) && Progresses(old(room), room)
      ensures notify <==>
        OwesBounce(old(room).seats, sender) && forall s :: s in old(room).seats && s.identity == sender ==> s.state != ActiveSeat
      ensures !notify ==> room == old(room)
      ensures notify ==> exists k: nat :: FirstRemovedAt(old(room).seats, sender, k) && MarksSeat(old(room), room, k, sender, now)
    {
      SamePrefix(room, room);
      var removed := RemovedSeatOf(room.seats, sender);
      BounceGuard(room.seats, sender);
      if removed.None? || removed.value.bouncedAt.Some? || HoldsActiveSeat(room.seats, sender) { return false; }
      var at := FindPosition(room.seats, removed.value);
      FoundAtFirst(room.seats, sender, at);
      SaveSeat(at, removed.value.(bouncedAt := Some(now)), {}, room.epoch);
      AllGrantsKept(old(room).grants);
      assert MarksSeat(old(room), room, at, sender, now);
      return true;
    }

    /** `grantRuntimeCommand`: only an active identity may hold a grant, and a grant is recorded once. */
    method GrantCommand(grant: Grant) returns (done: Done)
      requires Healthy(room)
      modifies this
      ensures Healthy(room) && Progresses(old(room), room) && !done.Failed?
      ensures done.Saved? <==>
        && old(room).state != Closing && old(room).state != Closed
        && exists s :: s in old(room).seats && s.state == ActiveSeat && s.identity == grant.caller
      ensures room == if done.Saved? && grant !in old(room).grants then old(room).(grants := old(room).grants + [grant]) else old(room)
    {
      SamePrefix(room, room);
      if !Mutable(room) || !HoldsActiveSeat(room.seats, grant.caller) { return Refused; }
      if grant in room.grants { return Saved; }
      var next := room.(grants := room.grants + [grant]);
      HealthyIsValid(next);
      var ok := Save(next);
      return Saved;
    }

    method RevokeCommand(grant: Grant) returns (done: Done)
      requires Healthy(room)
      modifies this
      ensures Healthy(room) && Progresses(old(room), room)
      ensures forall g :: g in room.grants <==>
        g in old(room).grants && (g == grant ==> old(room).state == Closing || old(room).state == Closed)
      ensures room == old(room).(grants := room.grants)
    {
      SamePrefix(room, room);
      if !Mutable(room) { return Refused; }
      var next := room.(grants := Filter(room.grants, (g: Grant) => g != grant));
      assert Distinct(room.grants) && Distinct(next.grants);
      HealthyIsValid(next);
      var ok := Save(next);
      return Saved;
    }

    /** `revokeInvite`: one save for the invite and every pending replacement of it. */
    method RevokeInvite(id: InviteId, sdkRevokes: bool) returns (done: Done)
      requires Healthy(room)
      modifies this
      ensures Healthy(room) && Progresses(old(room), room)
      ensures done.Refused? <==>
        old(room).state == Closing || old(room).state == Closed || forall i :: i in old(room).invites ==> i.id != id
      ensures done.Failed? ==> !sdkRevokes
      ensures !done.Saved? ==> room == old(room)
      ensures done.Saved? ==> exists i :: i in old(room).invites && i.id == id && RevokesWith(old(room), room, i)
    {
      SamePrefix(room, room);
      var found := FindInvite(room.invites, id);
      if !Mutable(room) || found.None? { return Refused; }
      RevokingRevokes(room, found.value);
      if found.value.state.Revoked? { return Saved; }
      if !sdkRevokes { return Failed; }
      var next := room.(invites := Revoking(room.invites, Cascade(room.invites, found.value)));
      CascadeKeepsSound(room.invites, found.value);
      RevokingKeepsUnused(room.seats, room.invites, Cascade(room.invites, found.value));
      HealthyIsValid(next);
      var ok := Save(next);
      return Saved;
    }

    /** `reconcileUnlocked`: departures are saved first, then everything else at once. */
    method Reconcile(seen: Observed, steady: bool) returns (done: Done)
      requires Healthy(room) && FreshFor(room, seen)
      modifies this
      ensures Healthy(room) && Progresses(old(room), room)
      ensures !done.Refused? && (steady ==> done.Saved?)
      ensures done.Saved? && old(room).state != Closing && old(room).state != Closed ==> Reconciled(old(room), room, seen)
      ensures var departed := AfterDepartures(old(room), seen.contacts, seen.now);
        if !Mutable(old(room)) then room == old(room)
        else if done.Saved? then FreshFor(departed, seen) && room == Admitted(departed, seen)
        else room == old(room) || room == departed
    {
      SamePrefix(room, room);
      if !Mutable(room) { return Saved; }
      ghost var before := room;
      var r := DepartMissing(room.seats, seen.contacts, room.epoch, seen.now);
      if r.gone != {} {
        var departed := room.(seats := r.seats, epoch := r.epoch, grants := GrantsWithout(room.grants, r.gone));
        DeparturesKeepHealthy(room, seen.contacts, seen.now);
        HealthyIsValid(departed);
        var ok := Save(departed);
      }
      DeparturesProgress(before, seen);
      ReconciliationIsExact(before, seen);
      var stop := Interrupted(steady);
      if stop { return Failed; }
      AdmissionsKeepHealthy(room, seen);
      AdmissionsProgress(room, seen);
      ProgressComposes(before, room, Admitted(room, seen));
      var next := NextRoom(seen);
      HealthyIsValid(next);
      var ok := Save(next);
      return Saved;
    }

    /** The room the second save stores; it reads only. */
    method NextRoom(seen: Observed) returns (next: Room)
      requires FreshFor(room, seen)
      ensures next == Admitted(room, seen)
    {
      var contacts := FirstContacts(seen.contacts);
      var seated := Activate(room.seats, contacts, seen.now);
      var admitted := AdmitContacts(room, seated, contacts, seen);
      next := ActiveIfMet(Reseated(room, seated, admitted, contacts, seen));
    }

    /** Revoke the pending replacements of an invite that awaits one. */
    method ClearPending(stale: Invite)
      requires Healthy(room) && stale in room.invites && stale.state.ReplacementRequired?
      modifies this
      ensures Healthy(room) && Progresses(old(room), room) && room == old(room).(invites := Cleared(old(room).invites, stale))
      ensures stale in room.invites && PendingChildren(room.invites, stale.id) == {}
      ensures KeepsAllBut(old(room).invites, room.invites, stale.id)
    {
      SamePrefix(room, room);
      ClearingKeepsOthers(room.invites, stale);
      ClearedHasNoPending(room.invites, stale);
      if PendingChildren(room.invites, stale.id) != {} {
        var cleared := room.(invites := Cleared(room.invites, stale));
        RevokePendingKeepsSound(room.invites, stale.id);
        RevokingKeepsUnused(room.seats, room.invites, PendingChildren(room.invites, stale.id));
        HealthyIsValid(cleared);
        var ok := Save(cleared);
      }
    }

    /** Record the new invite; a save may be reported failed although it was stored. */
    method RecordReplacement(stale: Invite, id: InviteId, now: Time, steady: bool) returns (done: Done)
      requires Healthy(room) && stale in room.invites && stale.state.ReplacementRequired?
      requires PendingChildren(room.invites, stale.id) == {} && FreshInvite(room, id)
      modifies this
      ensures Healthy(room) && Progresses(old(room), room) && room == old(room).(invites := room.invites) && !done.Refused?
      ensures steady ==> done.Saved?
      ensures done.Saved? ==> room.invites == old(room).invites + [Replacement(stale, id, now)]
      ensures forall i :: i in old(room).invites ==> i in room.invites
    {
      SamePrefix(room, room);
      var next := room.(invites := room.invites + [Replacement(stale, id, now)]);
      ReplacementKeepsSound(room.invites, stale, Replacement(stale, id, now));
      HealthyIsValid(next);
      SamePrefix(room, next);
      var stop := Interrupted(steady);
      if stop { return Failed; }
      var ok := Save(next);
      stop := Interrupted(steady);
      if !stop { return Saved; }
      var sdkRevokes: bool := *;
      if sdkRevokes {
        done := RevokeInvite(id, true);
        RevokedAlone(old(room), next, room, Replacement(stale, id, now), done);
      }
      return Failed;
    }

    /** One lost invite: its earlier pending replacements are revoked, then a new one is recorded. */
    method RotateOne(stale: Invite, id: InviteId, now: Time, steady: bool) returns (done: Done)
      requires Healthy(room) && stale in room.invites && stale.state.ReplacementRequired? && FreshInvite(room, id)
      modifies this
      ensures Healthy(room) && Progresses(old(room), room) && room == old(room).(invites := room.invites) && !done.Refused?
      ensures steady ==> done.Saved?
      ensures done.Saved? ==> room.invites == Cleared(old(room).invites, stale) + [Replacement(stale, id, now)]
      ensures KeepsAllBut(old(room).invites, room.invites, stale.id)
    {
      SamePrefix(room, room);
      ghost var before := room;
      var stop := Interrupted(steady);
      if stop { return Failed; }
      SameIdsCleared(room.invites, stale, id);
      ClearPending(stale);
      stop := Interrupted(steady);
      if stop { return Failed; }
      ghost var cleared := room;
      done := RecordReplacement(stale, id, now, steady);
      ProgressComposes(before, cleared, room);
    }

    /** The loop of `recoverInvites`: every invite that lost its secret gets exactly one pending replacement. */
    method RotateInvites(supply: seq<InviteId>, now: Time, steady: bool) returns (done: Done, receipts: seq<Invite>)
      requires Healthy(room) && Mutable(room) && |room.invites| <= |supply| && Distinct(supply)
      requires forall id :: id in supply ==> FreshInvite(room, id)
      modifies this
      ensures Healthy(room) && Progresses(old(room), room) && room == old(room).(invites := room.invites) && !done.Refused?
      ensures steady ==> done.Saved?
      ensures done.Saved? ==> forall i :: i in old(room).invites && i.state.ReplacementRequired? ==> IsReplaced(room, receipts, i)
      ensures KeepsOthers(old(room).invites, room.invites)
      ensures done.Saved? ==> |receipts| == |Filter(old(room).invites, (i: Invite) => i.state.ReplacementRequired?)|
    {
      SamePrefix(room, room);
      receipts := [];
      var stale := Filter(room.invites, (i: Invite) => i.state.ReplacementRequired?);
      ghost var start := room;
      assert forall s :: s in stale ==> s in room.invites;
      RotationStarts(room, stale, supply);
      for k := 0 to |stale|
        invariant Healthy(room) && Progresses(start, room) && room == start.(invites := room.invites)
        invariant KeepsOthers(start.invites, room.invites)
        invariant Rotating(room, stale, receipts, supply, k)
      {
        ghost var before := room;
        done := RotateOne(stale[k], supply[k], now, steady);
        ProgressComposes(start, before, room);
        StillKeepsOthers(start.invites, before.invites, room.invites, stale[k]);
        if done.Failed? { return; }
        RotationKeepsOthers(before, room, stale, receipts, supply, k, now);
        receipts := receipts + [Replacement(stale[k], supply[k], now)];
      }
      RotationEnds(start, room, stale, receipts, supply);
      return Saved, receipts;
    }

    /** `confirmRecoveredInvite`, up to the reconciliation it ends with; repeating it is harmless. */
    method ConfirmRecovered(source: InviteId, replacement: InviteId, inCore: bool) returns (done: Done)
      requires Healthy(room)
      modifies this
      ensures Healthy(room) && Progresses(old(room), room) && !done.Failed?
      ensures done.Saved? <==> Confirmed(old(room), source, replacement) || Confirmable(old(room), source, replacement, inCore)
      ensures Confirmable(old(room), source, replacement, inCore) ==> ConfirmsPair(old(room), room, source, replacement)
      ensures room == if Confirmable(old(room), source, replacement, inCore)
        then old(room).(invites := Confirming(old(room).invites, source, replacement)) else old(room)
    {
      SamePrefix(room, room);
      var s, r := FindInvite(room.invites, source), FindInvite(room.invites, replacement);
      if !Mutable(room) || s.None? || r.None? || source == replacement || r.value.recoveryOf != Some(source) { return Refused; }
      if s.value.state.Revoked? && r.value.confirmed == Some(true) && !r.value.state.ReceiptPending? { return Saved; }
      if !s.value.state.ReplacementRequired? || !inCore { return Refused; }
      if !r.value.state.ReceiptPending? || r.value.confirmed != Some(false) { return Refused; }
      var next := room.(invites := Confirming(room.invites, source, replacement));
      ConfirmKeepsSound(room.invites, s.value, r.value);
      ConfirmingKeepsUnused(room.seats, room.invites, source, replacement);
      HealthyIsValid(next);
      var ok := Save(next);
      return Saved;
    }

    method BeginClose()
      requires Healthy(room) && !room.state.Closed?
      modifies this
      ensures Healthy(room) && Progresses(old(room), room) && room == old(room).(state := Closing)
    {
      SamePrefix(room, room);
      var next := room.(state := Closing);
      HealthyIsValid(next);
      var ok := Save(next);
    }
  }

  /** The invite is revoked, and with a lost one every pending replacement of it; nothing else changes. */
  ghost predicate RevokesWith(before: Room, after: Room, i: Invite) {
    && after == before.(invites := after.invites) && |after.invites| == |before.invites|
    && forall k :: 0 <= k < |before.invites| ==>
      after.invites[k] ==
        if before.invites[k].id == i.id
          || (i.state == ReplacementRequired && before.invites[k].state == ReceiptPending && before.invites[k].recoveryOf == Some(i.id))
        then before.invites[k].(state := Revoked) else before.invites[k]
  }

  lemma RevokingRevokes(room: Room, i: Invite)
    requires Sound(room.invites) && i in room.invites
    ensures RevokesWith(room, room.(invites := Revoking(room.invites, Cascade(room.invites, i))), i)
    ensures i.state == Revoked ==> RevokesWith(room, room, i)
  {
    forall k | 0 <= k < |room.invites|
      ensures room.invites[k].id == i.id ==> room.invites[k] == i
      ensures room.invites[k].id in PendingChildren(room.invites, i.id) <==>
        room.invites[k].state == ReceiptPending && room.invites[k].recoveryOf == Some(i.id)
    {
      var x := room.invites[k];
      if x.id == i.id { SameIdSameInvite(room.invites, x, i); }
      if x.id in PendingChildren(room.invites, i.id) { OnlyTheNamed(room.invites, i.id, x); }
    }
  }

  /** The source is revoked, its replacement goes live without any accept, and nothing else changes. */
  ghost predicate ConfirmsPair(before: Room, after: Room, source: InviteId, replacement: InviteId) {
    && after == before.(invites := after.invites) && |after.invites| == |before.invites|
    && forall k :: 0 <= k < |before.invites| ==>
      after.invites[k] ==
        if before.invites[k].id == source then before.invites[k].(state := Revoked)
        else if before.invites[k].id == replacement then before.invites[k].(accepted := [], state := Live, confirmed := Some(true))
        else before.invites[k]
  }

  /** All invites but the pending replacements of this one are still there, unchanged. */
  ghost predicate KeepsAllBut(before: seq<Invite>, after: seq<Invite>, stale: InviteId) {
    forall i :: i in before && !(i.state == ReceiptPending && i.recoveryOf == Some(stale)) ==> i in after
  }

  /** A pending replacement of a lost invite: a rotation revokes it. */
  predicate Superseded(invites: seq<Invite>, i: Invite) {
    i.state == ReceiptPending && exists s :: s in invites && s.state == ReplacementRequired && i.recoveryOf == Some(s.id)
  }

  ghost predicate KeepsOthers(before: seq<Invite>, after: seq<Invite>) {
    forall i :: i in before && !Superseded(before, i) ==> i in after
  }

  lemma StillKeepsOthers(start: seq<Invite>, before: seq<Invite>, after: seq<Invite>, stale: Invite)
    requires KeepsOthers(start, before) && KeepsAllBut(before, after, stale.id) && stale in start && stale.state == ReplacementRequired
    ensures KeepsOthers(start, after)
  {
  }

  lemma ClearingKeepsOthers(invites: seq<Invite>, stale: Invite)
    requires UniqueIds(invites)
    ensures KeepsAllBut(invites, Cleared(invites, stale), stale.id)
  {
    forall i | i in invites && !(i.state == ReceiptPending && i.recoveryOf == Some(stale.id)) ensures i in Cleared(invites, stale) {
      ClearedKeeps(invites, stale, i);
    }
  }

  /** Revoking a replacement that was just recorded leaves the invites before it alone. */
  lemma RevokedAlone(before: Room, recorded: Room, after: Room, replacement: Invite, done: Done)
    requires recorded.invites == before.invites + [replacement] && UniqueIds(recorded.invites) && replacement.state == ReceiptPending
    requires after == recorded || exists i :: i in recorded.invites && i.id == replacement.id && RevokesWith(recorded, after, i)
    ensures forall i :: i in before.invites ==> i in after.invites
  {
    if after != recorded {
      var i :| i in recorded.invites && i.id == replacement.id && RevokesWith(recorded, after, i);
      SameIdSameInvite(recorded.invites, i, replacement);
      forall x | x in before.invites ensures x in after.invites {
        var k :| 0 <= k < |before.invites| && before.invites[k] == x;
        assert recorded.invites[k] == x && recorded.invites[k].id != recorded.invites[|before.invites|].id;
        assert after.invites[k] == x;
      }
    }
  }

  function Replacement(stale: Invite, id: InviteId, now: Time): Invite {
    Invite(id, stale.mode, stale.role, stale.minAccepts, [], ReceiptPending, Some(stale.id), Some(false), now)
  }

  /** The invites once every pending replacement of `stale` is revoked. */
  function Cleared(invites: seq<Invite>, stale: Invite): seq<Invite> {
    Revoking(invites, PendingChildren(invites, stale.id))
  }

  predicate Recovers(room: Room, source: InviteId, replacement: InviteId) {
    var s, r := FindInvite(room.invites, source), FindInvite(room.invites, replacement);
    Mutable(room) && source != replacement && s.Some? && r.Some? && r.value.recoveryOf == Some(source)
  }

  /** The confirmation was saved before. */
  predicate Confirmed(room: Room, source: InviteId, replacement: InviteId) {
    && Recovers(room, source, replacement)
    && FindInvite(room.invites, source).value.state.Revoked? && FindInvite(room.invites, replacement).value.confirmed == Some(true)
  }

  /** The source awaits its replacement, the replacement awaits its receipt, and the SDK still has it. */
  predicate Confirmable(room: Room, source: InviteId, replacement: InviteId, inCore: bool) {
    && Recovers(room, source, replacement) && inCore
    && FindInvite(room.invites, source).value.state.ReplacementRequired?
    && FindInvite(room.invites, replacement).value.state.ReceiptPending?
  }

  ghost predicate PendingFor(room: Room, r: Invite, stale: Invite) {
    && r in room.invites && r.state == ReceiptPending && r.recoveryOf == Some(stale.id)
    && r.mode == stale.mode && r.role == stale.role && r.minAccepts == stale.minAccepts && r.accepted == []
  }

  lemma ClearedKeeps(invites: seq<Invite>, stale: Invite, i: Invite)
    requires UniqueIds(invites) && i in invites && !(i.state.ReceiptPending? && i.recoveryOf == Some(stale.id))
    ensures i in Cleared(invites, stale)
  {
    var k :| 0 <= k < |invites| && invites[k] == i;
    if i.id in PendingChildren(invites, stale.id) { OnlyTheNamed(invites, stale.id, i); }
    assert Cleared(invites, stale)[k] == i;
  }

  lemma {:induction false} ClearedHasNoPending(invites: seq<Invite>, stale: Invite)
    requires Sound(invites) && stale in invites && stale.state.ReplacementRequired?
    ensures stale in Cleared(invites, stale) && PendingChildren(Cleared(invites, stale), stale.id) == {}
    ensures PendingChildren(invites, stale.id) == {} ==> Cleared(invites, stale) == invites
    ensures forall id :: FindInvite(invites, id).None? ==> FindInvite(Cleared(invites, stale), id).None?
  {
    var after := Cleared(invites, stale);
    ClearedKeeps(invites, stale, stale);
    forall i | i in after && i.state.ReceiptPending? ensures i.recoveryOf != Some(stale.id) {
      var k :| 0 <= k < |after| && after[k] == i;
      assert invites[k] in invites;
    }
    forall id | FindInvite(invites, id).None? ensures FindInvite(after, id).None? {
      SameIdsCleared(invites, stale, id);
    }
  }

  lemma {:induction false} SameIdsCleared(invites: seq<Invite>, stale: Invite, id: InviteId)
    requires FindInvite(invites, id).None?
    ensures FindInvite(Cleared(invites, stale), id).None?
  {
    var after := Cleared(invites, stale);
    forall i | i in after ensures i.id != id {
      var k :| 0 <= k < |after| && after[k] == i;
      assert invites[k] in invites;
    }
    NotFound(after, id);
  }

  lemma {:induction false} NotFound(invites: seq<Invite>, id: InviteId)
    requires forall i :: i in invites ==> i.id != id
    ensures FindInvite(invites, id).None?
  {
  }

  ghost predicate IsReplaced(room: Room, receipts: seq<Invite>, i: Invite) {
    i in room.invites && exists r :: r in receipts && PendingFor(room, r, i)
  }

  /** After `k` rotations: the lost invites are all still there, the first `k` have their pending replacement. */
  ghost predicate Rotating(room: Room, stale: seq<Invite>, receipts: seq<Invite>, supply: seq<InviteId>, k: nat) {
    && k <= |stale| <= |supply| && |receipts| == k && Distinct(stale) && Distinct(supply)
    && (forall j :: 0 <= j < |stale| ==> stale[j] in room.invites && stale[j].state.ReplacementRequired?)
    && (forall j :: k <= j < |supply| ==> FreshInvite(room, supply[j]))
    && (forall j :: 0 <= j < k ==> PendingFor(room, receipts[j], stale[j]))
  }

  lemma RotationStarts(room: Room, stale: seq<Invite>, supply: seq<InviteId>)
    requires Healthy(room) && |room.invites| <= |supply| && Distinct(supply) && forall id :: id in supply ==> FreshInvite(room, id)
    requires stale == Filter(room.invites, (i: Invite) => i.state.ReplacementRequired?)
    ensures Rotating(room, stale, [], supply, 0)
  {
    assert Distinct(room.invites);
    forall j | 0 <= j < |stale| ensures stale[j] in room.invites && stale[j].state.ReplacementRequired? { assert stale[j] in stale; }
  }

  lemma RotationEnds(start: Room, room: Room, stale: seq<Invite>, receipts: seq<Invite>, supply: seq<InviteId>)
    requires Rotating(room, stale, receipts, supply, |stale|)
    requires stale == Filter(start.invites, (i: Invite) => i.state.ReplacementRequired?)
    ensures forall i :: i in start.invites && i.state.ReplacementRequired? ==> IsReplaced(room, receipts, i)
  {
    forall i | i in start.invites && i.state.ReplacementRequired? ensures IsReplaced(room, receipts, i) {
      var j :| 0 <= j < |stale| && stale[j] == i;
      assert PendingFor(room, receipts[j], stale[j]);
    }
  }

  lemma RotationKeepsFresh(before: Room, room: Room, stale: Invite, replacement: Invite, id: InviteId)
    requires room == before.(invites := Cleared(before.invites, stale) + [replacement]) && FreshInvite(before, id) && replacement.id != id
    ensures FreshInvite(room, id)
  {
    SameIdsCleared(before.invites, stale, id);
    NotFound(room.invites, id);
  }

  lemma RotationKeepsReceipt(before: Room, room: Room, stale: Invite, other: Invite, receipt: Invite, replacement: Invite)
    requires UniqueIds(before.invites) && room == before.(invites := Cleared(before.invites, stale) + [replacement])
    requires stale in before.invites && other in before.invites && other != stale && PendingFor(before, receipt, other)
    ensures PendingFor(room, receipt, other)
  {
    DifferentIds(before.invites, other, stale);
    ClearedKeeps(before.invites, stale, receipt);
  }

  /** Rotating one invite disturbs neither the other lost invites, nor the receipts so far, nor fresh IDs. */
  lemma RotationKeepsOthers(before: Room, room: Room, stale: seq<Invite>, receipts: seq<Invite>, supply: seq<InviteId>, k: nat, now: Time)
    requires Healthy(before) && k < |stale| && Rotating(before, stale, receipts, supply, k)
    requires room == before.(invites := Cleared(before.invites, stale[k]) + [Replacement(stale[k], supply[k], now)])
    ensures Rotating(room, stale, receipts + [Replacement(stale[k], supply[k], now)], supply, k + 1)
  {
    var replacement := Replacement(stale[k], supply[k], now);
    forall j | 0 <= j < |stale| ensures stale[j] in room.invites { ClearedKeeps(before.invites, stale[k], stale[j]); }
    forall j | 0 <= j < k ensures PendingFor(room, receipts[j], stale[j]) {
      RotationKeepsReceipt(before, room, stale[k], stale[j], receipts[j], replacement);
    }
    forall j | k < j < |supply| ensures FreshInvite(room, supply[j]) {
      RotationKeepsFresh(before, room, stale[k], replacement, supply[j]);
    }
  }

  lemma DifferentIds(invites: seq<Invite>, a: Invite, b: Invite)
    requires UniqueIds(invites) && a in invites && b in invites && a != b
    ensures a.id != b.id
  {
    if a.id == b.id { SameIdSameInvite(invites, a, b); }
  }

  lemma ConfirmingKeepsUnused(seats: seq<Seat>, invites: seq<Invite>, source: InviteId, replacement: InviteId)
    requires PendingInvitesUnused(seats, invites)
    ensures PendingInvitesUnused(seats, Confirming(invites, source, replacement))
  {
    var after := Confirming(invites, source, replacement);
    forall s, i | s in seats && i in after && i.state.ReceiptPending? ensures s.inviteId != i.id {
      var k :| 0 <= k < |after| && after[k] == i;
      assert invites[k] in invites;
    }
  }

  /** The seat is added at the end; only its alias is the room's own choice. */
  ghost predicate PendingSeatAdded(before: Room, after: Room, s: Seat) {
    after == before.(seats := before.seats + [s]) && (s.alias.Some? <==> before.anonymous)
  }

  ghost predicate MarksSeat(before: Room, after: Room, k: int, sender: Cid, now: Time) {
    && 0 <= k < |before.seats|
    && before.seats[k].state.RemovedSeat? && before.seats[k].identity == sender && before.seats[k].bouncedAt.None?
    && after == before.(seats := before.seats[k := before.seats[k].(bouncedAt := Some(now))])
  }

  /**
   The seat a name means: a CID or a participant ID, of a seat that is not removed if there is one, and the
   first such seat in the room's order.
   */
  predicate IsMeant(seats: seq<Seat>, who: string, k: int) {
    && 0 <= k < |seats| && (seats[k].identity == who || seats[k].participant == who)
    && (forall j :: 0 <= j < k && (seats[j].identity == who || seats[j].participant == who) ==>
        seats[j].state == RemovedSeat && seats[k].state != RemovedSeat)
    && (seats[k].state == RemovedSeat ==>
        forall j :: k < j < |seats| && (seats[j].identity == who || seats[j].participant == who) ==> seats[j].state == RemovedSeat)
  }

  /** A contact stands behind every active seat; behind one that never was active only if it was established since. */
  predicate AsksSdk(s: Seat, established: bool) {
    || s.state == ActiveSeat
    || (s.state == PendingSeat && established)
    || (s.state == RemovedSeat && established && s.acceptedAt.None? && s.requestedAt.Some? && s.inviteDigest.Some?)
  }

  /** What the caller is told: the SDK's own answer if it was asked, and never a notice it did not report. */
  predicate Reports(s: Seat, established: bool, reply: RemovalReply, receipt: Removal)
    requires receipt.Removal?
  {
    if AsksSdk(s, established) then
      match reply
      case RemovalAnswered(queued, notified) => receipt.status == Answered(queued) && receipt.notified == notified
      case ContactMissing => receipt.status == AlreadyAbsent && !receipt.notified
      case RemovalThrew => false
    else
      && !receipt.notified
      && receipt.status ==
        if s.state == PendingSeat || (s.acceptedAt.None? && s.requestedAt.Some? && s.inviteDigest.Some?) then CancelledPending
        else AlreadyAbsent
  }

  lemma {:induction false} FoundIsFirstMatch(seats: seq<Seat>, p: Seat -> bool) returns (k: nat)
    ensures FindSeat(seats, p).None? <==> forall s :: s in seats ==> !p(s)
    ensures FindSeat(seats, p).Some? ==>
      k < |seats| && seats[k] == FindSeat(seats, p).value && p(seats[k]) && forall j :: 0 <= j < k ==> !p(seats[j])
  {
    k := 0;
    if seats != [] && !p(seats[0]) {
      k := FoundIsFirstMatch(seats[1..], p);
      assert forall j :: 0 < j < |seats| ==> seats[j] == seats[1..][j - 1];
      assert FindSeat(seats, p) == FindSeat(seats[1..], p);
      k := k + 1;
    }
  }

  lemma SeatIsMeant(room: Room, who: string) returns (at: nat)
    ensures SeatToRemove(room, who).None? <==> forall s :: s in room.seats ==> s.identity != who && s.participant != who
    ensures SeatToRemove(room, who).Some? ==>
      IsMeant(room.seats, who, at) && room.seats[at] == SeatToRemove(room, who).value
  {
    at := FoundIsFirstMatch(room.seats, (s: Seat) => !s.state.RemovedSeat? && (s.identity == who || s.participant == who));
    var open := FindSeat(room.seats, (s: Seat) => !s.state.RemovedSeat? && (s.identity == who || s.participant == who));
    if open.None? {
      forall j | 0 <= j < |room.seats| && (room.seats[j].identity == who || room.seats[j].participant == who)
        ensures room.seats[j].state.RemovedSeat?
      {
        assert room.seats[j] in room.seats;
      }
      at := FoundIsFirstMatch(room.seats, (s: Seat) => s.identity == who || s.participant == who);
    }
  }

  lemma OneIsMeant(seats: seq<Seat>, who: string, j: int, k: int)
    requires IsMeant(seats, who, j) && IsMeant(seats, who, k)
    ensures j == k
  {
  }

  lemma AsksIffCalled(seats: seq<Seat>, who: string, at: int, seat: Seat, established: bool)
    requires IsMeant(seats, who, at) && seats[at] == seat
    ensures Calls(seat, established) <==> exists k :: IsMeant(seats, who, k) && AsksSdk(seats[k], established)
  {
    forall k | IsMeant(seats, who, k) ensures k == at { OneIsMeant(seats, who, k, at); }
  }

  lemma AnswerIsReported(s: Seat, established: bool, reply: RemovalReply, receipt: Removal)
    requires receipt.Removal? && receipt.status == StatusOf(s, established, reply)
    requires receipt.notified == (Calls(s, established) && reply.RemovalAnswered? && reply.notified)
    requires !(Calls(s, established) && reply.RemovalThrew?)
    ensures Reports(s, established, reply, receipt)
  {
  }

  lemma SamePlace(seats: seq<Seat>, j: nat, k: nat)
    requires DistinctParticipants(seats) && j < |seats| && k < |seats| && seats[j] == seats[k]
    ensures j == k
  {
  }

  /** The effect of one removal on the seat at `k`, and on nothing else. */
  ghost predicate RemovesSeat(before: Room, after: Room, k: int, receipt: Removal, now: Time)
    requires receipt.Removal?
  {
    && 0 <= k < |before.seats|
    && var s := before.seats[k];
    && receipt.participant == s.participant
    && match s.state
      case RemovedSeat =>
        && after == before
        && Some(receipt.epoch) == if s.acceptedAt.None? && s.requestedAt.Some? && s.inviteDigest.Some? then Some(before.epoch) else s.removedEpoch
      case PendingSeat =>
        receipt.epoch == before.epoch && Removes(before, after, k, before.epoch, now)
      case ActiveSeat =>
        receipt.epoch == before.epoch + 1 && Removes(before, after, k, before.epoch + 1, now)
  }

  /** The seat is marked removed now and at this epoch, its CID's grants go, and nothing else changes. */
  ghost predicate Removes(before: Room, after: Room, k: int, epoch: nat, now: Time)
    requires 0 <= k < |before.seats|
  {
    var s := before.seats[k];
    && after == before.(seats := after.seats, grants := after.grants, epoch := epoch)
    && after.seats == before.seats[k := s.(state := RemovedSeat, removedAt := Some(now), removedEpoch := Some(epoch))]
    && forall g :: g in after.grants <==> g in before.grants && g.caller != s.identity
  }

  method FindPosition(seats: seq<Seat>, seat: Seat) returns (k: nat)
    requires seat in seats
    ensures k < |seats| && seats[k] == seat
  {
    k := 0;
    while seats[k] != seat
      invariant k < |seats| && seat !in seats[..k]
      decreases |seats| - k
    {
      assert seats == seats[..k] + [seats[k]] + seats[k + 1..];
      k := k + 1;
    }
  }

  lemma {:induction false} AllGrantsKept(grants: seq<Grant>)
    ensures GrantsWithout(grants, {}) == grants
  {
    if grants != [] {
      AllGrantsKept(grants[..|grants| - 1]);
    }
  }

  lemma RevokingKeepsUnused(seats: seq<Seat>, invites: seq<Invite>, ids: set<InviteId>)
    requires PendingInvitesUnused(seats, invites)
    ensures PendingInvitesUnused(seats, Revoking(invites, ids))
  {
    var after := Revoking(invites, ids);
    forall s, i | s in seats && i in after && i.state.ReceiptPending? ensures s.inviteId != i.id {
      var k :| 0 <= k < |after| && after[k] == i;
      assert invites[k] in invites;
    }
  }

  lemma DeparturesProgress(room: Room, seen: Observed)
    requires Healthy(room) && FreshFor(room, seen)
    ensures var after := AfterDepartures(room, seen.contacts, seen.now); Progresses(room, after) && FreshFor(after, seen)
  {
    var after := AfterDepartures(room, seen.contacts, seen.now);
    DepartKeepsSeats(room.seats, seen.contacts, room.anonymous, room.epoch, seen.now);
    assert after.seats[..|room.seats|] == after.seats;
    if after != room { SameParticipants(room.seats, after.seats, seen.ids); }
  }

  lemma AdmissionsProgress(room: Room, seen: Observed)
    requires Healthy(room) && FreshFor(room, seen)
    ensures Progresses(room, Admitted(room, seen))
  {
    var contacts := FirstContacts(seen.contacts);
    AdmissionsKeepRoomSeats(room, contacts, seen);
    var seated := Activate(room.seats, contacts, seen.now);
    assert Admitted(room, seen).seats[..|room.seats|] == seated;
  }
}
