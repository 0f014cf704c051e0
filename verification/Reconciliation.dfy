/**
 Reconciling the saved seats and invites with the contacts and invites the SDK reports: departures,
 activations of pending seats, admissions through live invites, and the recount of accepts.
 */
module Reconciliation {
  import opened Prelude
  import opened Rooms
  import opened InviteLineage
  import opened Aliases
  import opened Membership

  datatype Contact = Contact(cid: Cid, name: string, invite: Option<InviteId>)

  /** What one reconciliation reads from the SDK, the clock and the ULID source. */
  datatype Observed = Observed(contacts: seq<Contact>, coreInvites: set<InviteId>, provenance: bool, ids: seq<Ulid>, now: Time)

  predicate Present(contacts: seq<Contact>, cid: Cid) {
    exists c :: c in contacts && c.cid == cid
  }

  /** The first contact per CID, in listing order. */
  function FirstContacts(contacts: seq<Contact>): (r: seq<Contact>)
    ensures |r| <= |contacts| && forall c :: c in r ==> c in contacts
  {
    if contacts == [] then [] else
      var init, last := contacts[..|contacts| - 1], contacts[|contacts| - 1];
      assert contacts == init + [last];
      var rest := FirstContacts(init);
      if Present(rest, last.cid) then rest else rest + [last]
  }

  lemma {:induction false} FirstContactsSameCids(contacts: seq<Contact>, cid: Cid)
    ensures Present(FirstContacts(contacts), cid) <==> Present(contacts, cid)
  {
    if contacts != [] {
      var init, last := contacts[..|contacts| - 1], contacts[|contacts| - 1];
      assert contacts == init + [last];
      FirstContactsSameCids(init, cid);
      FirstContactsSameCids(init, last.cid);
    }
  }

  function ContactOf(contacts: seq<Contact>, cid: Cid): (r: Option<Contact>)
    ensures r.Some? ==> r.value in contacts && r.value.cid == cid
    ensures r.None? ==> !Present(contacts, cid)
  {
    if contacts == [] then None else if contacts[0].cid == cid then Some(contacts[0]) else ContactOf(contacts[1..], cid)
  }

  // ----- Departures ------------------------------------------------------------------------------------

  datatype Departure = Departure(seats: seq<Seat>, epoch: nat, gone: set<Cid>)

  function Departed(s: Seat, epoch: nat, now: Time): Seat {
    s.(state := RemovedSeat, removedAt := Some(now), removedEpoch := Some(epoch), contactAbsent := true)
  }

  /** Active seats whose contact is gone are removed, each taking the next epoch in seat order. */
  function Depart(seats: seq<Seat>, contacts: seq<Contact>, epoch: nat, now: Time): (r: Departure)
    ensures |r.seats| == |seats| && r.epoch >= epoch
  {
    if seats == [] then Departure([], epoch, {}) else
      var earlier := Depart(seats[..|seats| - 1], contacts, epoch, now);
      var s := seats[|seats| - 1];
      if s.state.ActiveSeat? && !Present(contacts, s.identity)
      then Departure(earlier.seats + [Departed(s, earlier.epoch + 1, now)], earlier.epoch + 1, earlier.gone + {s.identity})
      else Departure(earlier.seats + [s], earlier.epoch, earlier.gone)
  }

  method DepartMissing(seats: seq<Seat>, contacts: seq<Contact>, epoch: nat, now: Time) returns (r: Departure)
    ensures r == Depart(seats, contacts, epoch, now)
  {
    r := Departure([], epoch, {});
    for k := 0 to |seats|
      invariant r == Depart(seats[..k], contacts, epoch, now)
    {
      assert seats[..k + 1][..k] == seats[..k];
      var s := seats[k];
      if !s.state.ActiveSeat? || Present(contacts, s.identity) {
        r := r.(seats := r.seats + [s]);
      } else {
        r := Departure(r.seats + [Departed(s, r.epoch + 1, now)], r.epoch + 1, r.gone + {s.identity});
      }
    }
    assert seats[..|seats|] == seats;
  }

  /** Each seat stayed as it was, or was active, is missing from the contacts, and is now removed. */
  predicate StayedOrDeparted(s: Seat, s': Seat, contacts: seq<Contact>, now: Time, epoch: nat, epoch': nat) {
    if s.state.ActiveSeat? && !Present(contacts, s.identity)
    then s'.removedEpoch.Some? && epoch < s'.removedEpoch.value <= epoch' && s' == Departed(s, s'.removedEpoch.value, now)
    else s' == s
  }

  lemma {:induction false} DepartEpoch(seats: seq<Seat>, contacts: seq<Contact>, epoch: nat, now: Time)
    requires forall s :: s in seats ==> SeatValid(s)
    ensures var r := Depart(seats, contacts, epoch, now); EpochOf(r.seats) - EpochOf(seats) == r.epoch - epoch
  {
    if seats != [] {
      var init, s := seats[..|seats| - 1], seats[|seats| - 1];
      assert s in seats;
      DepartEpoch(init, contacts, epoch, now);
      assert Depart(seats, contacts, epoch, now).seats[..|init|] == Depart(init, contacts, epoch, now).seats;
    }
  }

  lemma {:induction false} DepartGone(seats: seq<Seat>, contacts: seq<Contact>, epoch: nat, now: Time, cid: Cid)
    ensures cid in Depart(seats, contacts, epoch, now).gone <==>
      exists s :: s in seats && s.state.ActiveSeat? && s.identity == cid && !Present(contacts, cid)
  {
    if seats != [] {
      var init, s := seats[..|seats| - 1], seats[|seats| - 1];
      assert seats == init + [s];
      DepartGone(init, contacts, epoch, now, cid);
    }
  }

  lemma {:induction false} DepartEach(seats: seq<Seat>, contacts: seq<Contact>, epoch: nat, now: Time)
    ensures var r := Depart(seats, contacts, epoch, now);
      forall k :: 0 <= k < |seats| ==> StayedOrDeparted(seats[k], r.seats[k], contacts, now, epoch, r.epoch)
  {
    if seats != [] {
      var init := seats[..|seats| - 1];
      DepartEach(init, contacts, epoch, now);
      var earlier, r := Depart(init, contacts, epoch, now), Depart(seats, contacts, epoch, now);
      forall k | 0 <= k < |init| ensures StayedOrDeparted(seats[k], r.seats[k], contacts, now, epoch, r.epoch) {
        assert StayedOrDeparted(init[k], earlier.seats[k], contacts, now, epoch, earlier.epoch);
      }
    }
  }

  lemma {:induction false} DepartKeepsSeats(seats: seq<Seat>, contacts: seq<Contact>, anonymous: bool, epoch: nat, now: Time)
    requires SeatsHealthy(seats, anonymous, epoch)
    ensures var r := Depart(seats, contacts, epoch, now);
      SeatsProgress(seats, r.seats) && SeatsHealthy(r.seats, anonymous, r.epoch)
  {
    var r := Depart(seats, contacts, epoch, now);
    DepartEach(seats, contacts, epoch, now);
    DepartEpoch(seats, contacts, epoch, now);
    forall k | 0 <= k < |seats|
      ensures SameSeat(seats[k], r.seats[k]) && SeatValid(r.seats[k])
      ensures r.seats[k].removedEpoch.Some? ==> r.seats[k].removedEpoch.value <= r.epoch
    {
      assert seats[k] in seats;
      DepartedSeatIsValid(seats[k], r.seats[k], contacts, now, epoch, r.epoch);
    }
    ProgressKeepsSeats(seats, r.seats, anonymous, epoch, r.epoch);
  }

  lemma DepartedSeatIsValid(s: Seat, s': Seat, contacts: seq<Contact>, now: Time, epoch: nat, epoch': nat)
    requires SeatValid(s) && (s.removedEpoch.Some? ==> s.removedEpoch.value <= epoch) && epoch <= epoch'
    requires StayedOrDeparted(s, s', contacts, now, epoch, epoch')
    ensures SameSeat(s, s') && SeatValid(s') && (s'.removedEpoch.Some? ==> s'.removedEpoch.value <= epoch')
  {
  }

  function AfterDepartures(room: Room, contacts: seq<Contact>, now: Time): Room {
    var r := Depart(room.seats, contacts, room.epoch, now);
    if r.gone == {} then room
    else room.(seats := r.seats, epoch := r.epoch, grants := GrantsWithout(room.grants, r.gone))
  }

  lemma DeparturesKeepHealthy(room: Room, contacts: seq<Contact>, now: Time)
    requires Healthy(room)
    ensures Healthy(AfterDepartures(room, contacts, now))
  {
    var r := Depart(room.seats, contacts, room.epoch, now);
    if r.gone != {} {
      DepartKeepsSeats(room.seats, contacts, room.anonymous, room.epoch, now);
      DepartEach(room.seats, contacts, room.epoch, now);
      ProgressKeepsUnused(room.seats, r.seats, room.invites);
      forall s | s in room.seats && s.state.ActiveSeat? && s.identity !in r.gone ensures HoldsActiveSeat(r.seats, s.identity) {
        var k :| 0 <= k < |room.seats| && room.seats[k] == s;
        DepartGone(room.seats, contacts, room.epoch, now, s.identity);
        assert StayedOrDeparted(s, r.seats[k], contacts, now, room.epoch, r.epoch);
        assert r.seats[k] in r.seats;
      }
      GrantsStillValid(room.grants, r.gone, room.seats, r.seats);
    }
  }

  // ----- Activations -----------------------------------------------------------------------------------

  /** A pending seat whose contact is established becomes active under the contact's own name. */
  function Activated(s: Seat, contacts: seq<Contact>, now: Time): Seat {
    if s.state.PendingSeat? && ContactOf(contacts, s.identity).Some?
    then s.(state := ActiveSeat, displayName := ContactOf(contacts, s.identity).value.name, acceptedAt := Some(now))
    else s
  }

  function Activate(seats: seq<Seat>, contacts: seq<Contact>, now: Time): (r: seq<Seat>)
    ensures |r| == |seats|
  {
    seq(|seats|, k requires 0 <= k < |seats| => Activated(seats[k], contacts, now))
  }

  function ActivatedCount(seats: seq<Seat>, contacts: seq<Contact>): (n: nat) {
    if seats == [] then 0
    else
      var s := seats[|seats| - 1];
      ActivatedCount(seats[..|seats| - 1], contacts) + if s.state.PendingSeat? && ContactOf(contacts, s.identity).Some? then 1 else 0
  }

  lemma {:induction false} ActivateCounts(seats: seq<Seat>, contacts: seq<Contact>, now: Time)
    ensures EpochOf(Activate(seats, contacts, now)) == EpochOf(seats) + ActivatedCount(seats, contacts)
  {
    if seats != [] {
      ActivateCounts(seats[..|seats| - 1], contacts, now);
      assert Activate(seats, contacts, now)[..|seats| - 1] == Activate(seats[..|seats| - 1], contacts, now);
    }
  }

  lemma {:induction false} ActivateKeepsSeats(seats: seq<Seat>, contacts: seq<Contact>, anonymous: bool, epoch: nat, now: Time)
    requires SeatsHealthy(seats, anonymous, epoch)
    ensures SeatsProgress(seats, Activate(seats, contacts, now))
    ensures SeatsHealthy(Activate(seats, contacts, now), anonymous, epoch + ActivatedCount(seats, contacts))
  {
    var after := Activate(seats, contacts, now);
    forall s | s in after ensures SeatValid(s) && (s.removedEpoch.Some? ==> s.removedEpoch.value <= epoch) {
      var k :| 0 <= k < |after| && after[k] == s;
      assert seats[k] in seats;
    }
    ActivateCounts(seats, contacts, now);
    ProgressKeepsSeats(seats, after, anonymous, epoch, epoch + ActivatedCount(seats, contacts));
  }

  // ----- Admissions ------------------------------------------------------------------------------------

  predicate Admits(i: Invite) {
    i.state.Live? && (i.recoveryOf.None? || i.confirmed == Some(true))
  }

  /** Without authenticated provenance the one usable invite stands in for the missing attribution. */
  function LegacyInvite(invites: seq<Invite>, provenance: bool): (r: Option<Invite>)
    ensures r.Some? ==> r.value in invites && Admits(r.value)
  {
    var eligible := Filter(invites, (i: Invite) => Admits(i));
    if !provenance && |eligible| == 1 then
      assert eligible[0] in eligible;
      Some(eligible[0])
    else None
  }

  predicate RemovedSince(seats: seq<Seat>, cid: Cid, at: Time) {
    exists s :: s in seats && s.state.RemovedSeat? && s.identity == cid && s.removedAt.Some? && at <= s.removedAt.value
  }

  predicate HoldsSeat(seats: seq<Seat>, cid: Cid) {
    exists s :: s in seats && Authorized(s) && s.identity == cid
  }

  /** The invite that admits a contact, if any: live, usable, and minted after the CID was last removed. */
  function AdmittingInvite(room: Room, contact: Contact, provenance: bool): (r: Option<Invite>)
    ensures r.Some? ==> r.value in room.invites && Admits(r.value) && !RemovedSince(room.seats, contact.cid, r.value.createdAt)
    ensures r.Some? && contact.invite.Some? ==> r.value.id == contact.invite.value
  {
    var found := if contact.invite.None? then LegacyInvite(room.invites, provenance) else FindInvite(room.invites, contact.invite.value);
    if found.Some? && Admits(found.value) && !RemovedSince(room.seats, contact.cid, found.value.createdAt) then found else None
  }

  function AdmittedSeat(anonymous: bool, seated: seq<Seat>, contact: Contact, i: Invite, id: Ulid, now: Time): Seat {
    Seat(contact.cid, contact.name, i.role, i.id, Some(now), None, None, id, ActiveSeat,
         if anonymous then Some(MintAlias(seated, i.role)) else None, false, None, None, None)
  }

  /** The seats added for the contacts, in listing order; `seated` are the seats before the first of them. */
  function Admissions(room: Room, seated: seq<Seat>, contacts: seq<Contact>, seen: Observed): seq<Seat>
    requires |contacts| <= |seen.ids|
  {
    if contacts == [] then [] else
      var earlier := Admissions(room, seated, contacts[..|contacts| - 1], seen);
      var contact := contacts[|contacts| - 1];
      var i := AdmittingInvite(room, contact, seen.provenance);
      if HoldsSeat(seated + earlier, contact.cid) || i.None? then earlier
      else earlier + [AdmittedSeat(room.anonymous, seated + earlier, contact, i.value, seen.ids[|contacts| - 1], seen.now)]
  }

  method AdmitContacts(room: Room, seated: seq<Seat>, contacts: seq<Contact>, seen: Observed) returns (admitted: seq<Seat>)
    requires |contacts| <= |seen.ids|
    ensures admitted == Admissions(room, seated, contacts, seen)
  {
    admitted := [];
    for k := 0 to |contacts|
      invariant admitted == Admissions(room, seated, contacts[..k], seen)
    {
      assert contacts[..k + 1][..k] == contacts[..k];
      if HoldsSeat(seated + admitted, contacts[k].cid) { continue; }
      var i := AdmittingInvite(room, contacts[k], seen.provenance);
      if i.None? { continue; }
      admitted := admitted + [AdmittedSeat(room.anonymous, seated + admitted, contacts[k], i.value, seen.ids[k], seen.now)];
    }
    assert contacts[..|contacts|] == contacts;
  }

  ghost predicate FreshIds(seats: seq<Seat>, ids: seq<Ulid>) {
    Distinct(ids) && forall s :: s in seats ==> s.participant !in ids
  }

  predicate SeatsThrough(room: Room, i: Invite, s: Seat) {
    Admits(i) && i.id == s.inviteId && i.role == s.role && !RemovedSince(room.seats, s.identity, i.createdAt)
  }

  /** A seat that an admission may create: active, through a usable invite newer than any removal. */
  ghost predicate AdmittedBy(room: Room, contacts: seq<Contact>, s: Seat) {
    && s.state.ActiveSeat? && Present(contacts, s.identity)
    && exists i :: i in room.invites && SeatsThrough(room, i, s)
  }

  /** The ID of an admitted seat is the one supplied for its contact. */
  ghost predicate UsesId(s: Seat, ids: seq<Ulid>, n: nat) {
    exists k :: 0 <= k < n && k < |ids| && ids[k] == s.participant
  }

  lemma {:induction false} AdmissionsAreAllowed(room: Room, seated: seq<Seat>, contacts: seq<Contact>, seen: Observed)
    requires |contacts| <= |seen.ids|
    ensures forall s :: s in Admissions(room, seated, contacts, seen) ==>
      AdmittedBy(room, contacts, s) && UsesId(s, seen.ids, |contacts|)
  {
    if contacts != [] {
      var init, contact := contacts[..|contacts| - 1], contacts[|contacts| - 1];
      AdmissionsAreAllowed(room, seated, init, seen);
      var earlier := Admissions(room, seated, init, seen);
      forall s | s in Admissions(room, seated, contacts, seen) ensures AdmittedBy(room, contacts, s) && UsesId(s, seen.ids, |contacts|) {
        if s in earlier {
          StillAllowed(room, init, contact, s);
        } else {
          NewlyAllowed(room, seated + earlier, contacts, seen, s);
        }
      }
    }
  }

  lemma StillAllowed(room: Room, init: seq<Contact>, contact: Contact, s: Seat)
    requires AdmittedBy(room, init, s)
    ensures AdmittedBy(room, init + [contact], s)
  {
    var c :| c in init && c.cid == s.identity;
    assert c in init + [contact];
  }

  lemma NewlyAllowed(room: Room, seated: seq<Seat>, contacts: seq<Contact>, seen: Observed, s: Seat)
    requires 0 < |contacts| <= |seen.ids| && AdmittingInvite(room, contacts[|contacts| - 1], seen.provenance).Some?
    requires var i := AdmittingInvite(room, contacts[|contacts| - 1], seen.provenance).value;
      s == AdmittedSeat(room.anonymous, seated, contacts[|contacts| - 1], i, seen.ids[|contacts| - 1], seen.now)
    ensures AdmittedBy(room, contacts, s) && UsesId(s, seen.ids, |contacts|)
  {
    assert contacts[|contacts| - 1] in contacts;
    assert SeatsThrough(room, AdmittingInvite(room, contacts[|contacts| - 1], seen.provenance).value, s);
  }

  /** Admissions keep every seat rule and take one epoch each. */
  lemma {:induction false} AdmissionsKeepSeats(room: Room, seated: seq<Seat>, contacts: seq<Contact>, seen: Observed, epoch: nat)
    requires SeatsHealthy(seated, room.anonymous, epoch) && |contacts| <= |seen.ids| && FreshIds(seated, seen.ids)
    ensures var admitted := Admissions(room, seated, contacts, seen);
      SeatsHealthy(seated + admitted, room.anonymous, epoch + |admitted|)
  {
    var admitted := Admissions(room, seated, contacts, seen);
    if contacts == [] {
      assert seated + [] == seated;
    } else {
      var init, contact := contacts[..|contacts| - 1], contacts[|contacts| - 1];
      AdmissionsKeepSeats(room, seated, init, seen, epoch);
      AdmissionsAreAllowed(room, seated, init, seen);
      var earlier := Admissions(room, seated, init, seen);
      if admitted != earlier {
        var s := admitted[|earlier|];
        AdmissionFits(room, seated, earlier, contact, seen, |init|, s);
        AppendKeepsSeats(seated + earlier, room.anonymous, epoch + |earlier|, s);
        assert seated + admitted == seated + earlier + [s];
      }
    }
  }

  lemma AdmissionFits(room: Room, seated: seq<Seat>, earlier: seq<Seat>, contact: Contact, seen: Observed, k: nat, s: Seat)
    requires k < |seen.ids| && FreshIds(seated, seen.ids) && forall t :: t in earlier ==> UsesId(t, seen.ids, k)
    requires !HoldsSeat(seated + earlier, contact.cid) && AdmittingInvite(room, contact, seen.provenance).Some?
    requires var i := AdmittingInvite(room, contact, seen.provenance).value;
      s == AdmittedSeat(room.anonymous, seated + earlier, contact, i, seen.ids[k], seen.now)
    ensures NewSeatFits(seated + earlier, room.anonymous, s)
  {
    forall t | t in seated + earlier ensures t.participant != s.participant {
      if t in earlier {
        var j :| 0 <= j < k && j < |seen.ids| && seen.ids[j] == t.participant;
      }
    }
  }

  // ----- Accepts and invite states ---------------------------------------------------------------------

  /** The distinct CIDs that were ever seated through an invite, pending ones aside. */
  function AcceptedThrough(seats: seq<Seat>, id: InviteId): (r: seq<Cid>)
    ensures r != [] ==> exists s :: s in seats && s.inviteId == id
  {
    if seats == [] then [] else
      var rest, s := AcceptedThrough(seats[..|seats| - 1], id), seats[|seats| - 1];
      if s.state.PendingSeat? || s.inviteId != id || s.identity in rest then rest else rest + [s.identity]
  }

  function Recounted(i: Invite, seats: seq<Seat>, coreInvites: set<InviteId>): Invite {
    var through := AcceptedThrough(seats, i.id);
    var accepted := if through == [] then i.accepted else through;
    var taken := i.mode.OneTime? && accepted != [];
    i.(accepted := accepted,
       state := if !i.state.Live? then i.state
                else if taken then Consumed
                else if i.id !in coreInvites then ReplacementRequired
                else Live)
  }

  function Recount(invites: seq<Invite>, seats: seq<Seat>, coreInvites: set<InviteId>): (r: seq<Invite>)
    ensures |r| == |invites|
  {
    seq(|invites|, k requires 0 <= k < |invites| => Recounted(invites[k], seats, coreInvites))
  }

  lemma RecountKeepsSound(invites: seq<Invite>, seats: seq<Seat>, coreInvites: set<InviteId>)
    requires Sound(invites) && PendingInvitesUnused(seats, invites)
    ensures Sound(Recount(invites, seats, coreInvites)) && PendingInvitesUnused(seats, Recount(invites, seats, coreInvites))
  {
    var after := Recount(invites, seats, coreInvites);
    forall k | 0 <= k < |invites| ensures ReconciledTo(invites[k], after[k]) {
      assert invites[k] in invites;
    }
    ReconcileKeepsSound(invites, after);
    forall s, i | s in seats && i in after && i.state.ReceiptPending? ensures s.inviteId != i.id {
      var k :| 0 <= k < |after| && after[k] == i;
      assert invites[k] in invites;
    }
  }

  // ----- The whole reconciliation ------------------------------------------------------------------------

  function CountRole(seats: seq<Seat>, role: string): nat {
    |Filter(seats, (s: Seat) => s.state.ActiveSeat? && s.role == role)|
  }

  predicate RequirementsMet(room: Room) {
    && (forall i :: i in room.invites && !i.state.Revoked? ==> |i.accepted| >= i.minAccepts)
    && (forall r :: r in room.requirements ==> CountRole(room.seats, r.role) >= r.count)
    && exists s :: s in room.seats && s.state.ActiveSeat?
  }

  /** The second save: activations, admissions, recount, epoch, and activation of the room itself. */
  function Admitted(room: Room, seen: Observed): Room
    requires |seen.contacts| <= |seen.ids|
  {
    var contacts := FirstContacts(seen.contacts);
    var seated := Activate(room.seats, contacts, seen.now);
    ActiveIfMet(Reseated(room, seated, Admissions(room, seated, contacts, seen), contacts, seen))
  }

  function Reseated(room: Room, seated: seq<Seat>, admitted: seq<Seat>, contacts: seq<Contact>, seen: Observed): Room {
    room.(seats := seated + admitted,
          invites := Recount(room.invites, seated + admitted, seen.coreInvites),
          epoch := room.epoch + ActivatedCount(room.seats, contacts) + |admitted|)
  }

  function ActiveIfMet(room: Room): Room {
    if room.state.Provisioning? && RequirementsMet(room) then room.(state := Active) else room
  }

  lemma AdmittedSeatsUnused(room: Room, seated: seq<Seat>, admitted: seq<Seat>, contacts: seq<Contact>)
    requires UniqueIds(room.invites) && PendingInvitesUnused(seated, room.invites)
    requires forall s :: s in admitted ==> AdmittedBy(room, contacts, s)
    ensures PendingInvitesUnused(seated + admitted, room.invites)
  {
    forall s, i | s in seated + admitted && i in room.invites && i.state.ReceiptPending? ensures s.inviteId != i.id {
      if s !in seated {
        var j :| j in room.invites && Admits(j) && j.id == s.inviteId;
        if j.id == i.id { SameIdSameInvite(room.invites, i, j); }
      }
    }
  }

  /** Seats after the second save: progressed in place, then extended by admitted ones. */
  lemma {:induction false} AdmissionsKeepRoomSeats(room: Room, contacts: seq<Contact>, seen: Observed)
    requires Healthy(room) && |contacts| <= |seen.ids| && FreshIds(room.seats, seen.ids)
    ensures var seated := Activate(room.seats, contacts, seen.now);
      var admitted := Admissions(room, seated, contacts, seen);
      && SeatsHealthy(seated + admitted, room.anonymous, room.epoch + ActivatedCount(room.seats, contacts) + |admitted|)
      && PendingInvitesUnused(seated + admitted, room.invites) && GrantsValid(room.grants, seated + admitted)
      && (forall s :: s in admitted ==> AdmittedBy(room, contacts, s))
      && SeatsProgress(room.seats, seated)
  {
    var seated := Activate(room.seats, contacts, seen.now);
    var admitted := Admissions(room, seated, contacts, seen);
    ActivateKeepsSeats(room.seats, contacts, room.anonymous, room.epoch, seen.now);
    SameParticipants(room.seats, seated, seen.ids);
    AdmissionsKeepSeats(room, seated, contacts, seen, room.epoch + ActivatedCount(room.seats, contacts));
    AdmissionsAreAllowed(room, seated, contacts, seen);
    ProgressKeepsUnused(room.seats, seated, room.invites);
    AdmittedSeatsUnused(room, seated, admitted, contacts);
    GrantsSurviveActivation(room, contacts, seen.now, admitted);
  }

  lemma GrantsSurviveActivation(room: Room, contacts: seq<Contact>, now: Time, admitted: seq<Seat>)
    requires GrantsValid(room.grants, room.seats)
    ensures GrantsValid(room.grants, Activate(room.seats, contacts, now) + admitted)
  {
    var seated := Activate(room.seats, contacts, now);
    forall s | s in room.seats && s.state.ActiveSeat? ensures HoldsActiveSeat(seated + admitted, s.identity) {
      var k :| 0 <= k < |room.seats| && room.seats[k] == s;
      assert seated[k] in seated + admitted;
    }
    SeatsOnlyGrow(room.grants, room.seats, seated + admitted);
  }

  lemma AdmissionsKeepHealthy(room: Room, seen: Observed)
    requires Healthy(room) && |seen.contacts| <= |seen.ids| && FreshIds(room.seats, seen.ids)
    ensures Healthy(Admitted(room, seen))
  {
    var contacts := FirstContacts(seen.contacts);
    AdmissionsKeepRoomSeats(room, contacts, seen);
    var seated := Activate(room.seats, contacts, seen.now);
    RecountKeepsSound(room.invites, seated + Admissions(room, seated, contacts, seen), seen.coreInvites);
  }

  lemma SameParticipants(seats: seq<Seat>, seats': seq<Seat>, ids: seq<Ulid>)
    requires SeatsProgress(seats, seats') && FreshIds(seats, ids)
    ensures FreshIds(seats', ids)
  {
    forall s | s in seats' ensures s.participant !in ids {
      var k :| 0 <= k < |seats'| && seats'[k] == s;
      assert seats[k] in seats;
    }
  }
}
