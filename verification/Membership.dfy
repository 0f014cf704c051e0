/**
 Seats, epochs and grants of one room: the rules every saved room must satisfy, the stronger ones
 the operations keep, and the effect of each operation on the stored value.
 */
module Membership {
  import opened Prelude
  import opened Rooms
  import opened InviteLineage
  import opened Aliases

  // ----- The stored schema ---------------------------------------------------------------------------

  predicate SeatValid(s: Seat) {
    && (s.requestedAt.Some? <==> s.inviteDigest.Some?)
    && match s.state
      case PendingSeat =>
        s.requestedAt.Some? && s.acceptedAt.None? && s.removedAt.None? && s.removedEpoch.None? && s.bouncedAt.None? && !s.contactAbsent
      case ActiveSeat => s.acceptedAt.Some? && s.removedAt.None? && s.removedEpoch.None? && s.bouncedAt.None? && !s.contactAbsent
      case RemovedSeat => (s.acceptedAt.Some? || s.requestedAt.Some?) && s.removedAt.Some? && s.removedEpoch.Some?
  }

  predicate DistinctActiveAliases(seats: seq<Seat>) {
    forall i, j :: 0 <= i < j < |seats| && seats[i].state.ActiveSeat? && seats[j].state.ActiveSeat? && seats[i].alias.Some? ==>
      seats[i].alias != seats[j].alias
  }

  predicate GrantsValid(grants: seq<Grant>, seats: seq<Seat>) {
    && (forall i, j :: 0 <= i < j < |grants| ==> grants[i] != grants[j])
    && (forall g :: g in grants ==> HoldsActiveSeat(seats, g.caller))
  }

  predicate HoldsActiveSeat(seats: seq<Seat>, cid: Cid) {
    exists s :: s in seats && s.state.ActiveSeat? && s.identity == cid
  }

  predicate SeatAdmissible(room: Room, s: Seat) {
    SeatValid(s) && (s.alias.Some? <==> room.anonymous) && (s.removedEpoch.Some? ==> s.removedEpoch.value <= room.epoch)
  }

  /** What `RoomSchema.parse` checks on every save. */
  predicate RoomValid(room: Room) {
    && (forall i :: i in room.invites ==> InviteValid(i)) && LineageValid(room.invites)
    && (forall s :: s in room.seats ==> SeatAdmissible(room, s))
    && DistinctParticipants(room.seats) && OneSeatPerCid(room.seats) && DistinctActiveAliases(room.seats)
    && GrantsValid(room.grants, room.seats)
  }

  // ----- The stronger invariant ----------------------------------------------------------------------

  function EpochWeight(s: Seat): nat {
    if s.state.ActiveSeat? then 1 else if s.state.RemovedSeat? && s.acceptedAt.Some? then 2 else 0
  }

  /** One per active seat, two per removed seat that had been accepted. */
  function EpochOf(seats: seq<Seat>): nat {
    if seats == [] then 0 else EpochOf(seats[..|seats| - 1]) + EpochWeight(seats[|seats| - 1])
  }

  ghost predicate SeatsHealthy(seats: seq<Seat>, anonymous: bool, epoch: nat) {
    && (forall s :: s in seats ==> SeatValid(s) && (s.removedEpoch.Some? ==> s.removedEpoch.value <= epoch))
    && OneSeatPerCid(seats) && DistinctParticipants(seats)
    && (if anonymous then AliasesMinted(seats) else forall s :: s in seats ==> s.alias.None?)
    && epoch == EpochOf(seats)
  }

  /** No seat was admitted through an invite whose receipt is still pending. */
  ghost predicate PendingInvitesUnused(seats: seq<Seat>, invites: seq<Invite>) {
    forall s, i :: s in seats && i in invites && i.state.ReceiptPending? ==> s.inviteId != i.id
  }

  ghost predicate Healthy(room: Room) {
    && Sound(room.invites) && SeatsHealthy(room.seats, room.anonymous, room.epoch)
    && GrantsValid(room.grants, room.seats) && PendingInvitesUnused(room.seats, room.invites)
  }

  /** A healthy room is never refused by the schema, and passes the browser's stricter lineage check too. */
  lemma HealthyIsValid(room: Room)
    requires Healthy(room)
    ensures RoomValid(room) && Acyclic(room.invites) && !Dangles(room.invites)
  {
    SoundIsValid(room.invites);
    SoundIsAcyclic(room.invites);
    forall i, j | 0 <= i < j < |room.seats| && room.seats[i].alias.Some? ensures room.seats[i].alias != room.seats[j].alias {
      assert room.seats[i] in room.seats;
      AliasesDistinct(room.seats, i, j);
    }
    forall s | s in room.seats ensures s.alias.Some? <==> room.anonymous {
      var k :| 0 <= k < |room.seats| && room.seats[k] == s;
    }
  }

  function Created(id: RoomId, anonymous: bool, quiet: bool, requirements: seq<Requirement>): Room {
    Room(id, Provisioning, [], [], [], anonymous, quiet, 0, requirements, false)
  }

  lemma CreatedIsHealthy(id: RoomId, anonymous: bool, quiet: bool, requirements: seq<Requirement>)
    ensures Healthy(Created(id, anonymous, quiet, requirements))
  {
  }

  // ----- Seats change state in place -------------------------------------------------------------------

  /** A seat may change only its progress: who it is, its role, alias and invite stay. */
  predicate SameSeat(s: Seat, s': Seat) {
    && s'.identity == s.identity && s'.participant == s.participant && s'.role == s.role && s'.alias == s.alias
    && s'.inviteId == s.inviteId && (Authorized(s') ==> Authorized(s))
  }

  ghost predicate SeatsProgress(seats: seq<Seat>, seats': seq<Seat>) {
    |seats'| == |seats| && forall k :: 0 <= k < |seats| ==> SameSeat(seats[k], seats'[k])
  }

  lemma {:induction false} ProgressKeepsSeats(seats: seq<Seat>, seats': seq<Seat>, anonymous: bool, epoch: nat, epoch': nat)
    requires SeatsHealthy(seats, anonymous, epoch) && SeatsProgress(seats, seats')
    requires forall s :: s in seats' ==> SeatValid(s) && (s.removedEpoch.Some? ==> s.removedEpoch.value <= epoch')
    requires epoch' == EpochOf(seats')
    ensures SeatsHealthy(seats', anonymous, epoch')
  {
    if anonymous {
      SameRolesSameAliases(seats, seats');
    } else {
      forall s | s in seats' ensures s.alias.None? {
        var k :| 0 <= k < |seats'| && seats'[k] == s;
        assert seats[k] in seats;
      }
    }
  }

  lemma ProgressKeepsUnused(seats: seq<Seat>, seats': seq<Seat>, invites: seq<Invite>)
    requires PendingInvitesUnused(seats, invites) && SeatsProgress(seats, seats')
    ensures PendingInvitesUnused(seats', invites)
  {
    forall s, i | s in seats' && i in invites && i.state.ReceiptPending? ensures s.inviteId != i.id {
      var k :| 0 <= k < |seats'| && seats'[k] == s;
      assert seats[k] in seats;
    }
  }

  function Where(seats: seq<Seat>, participant: Ulid, s: Seat): (r: seq<Seat>)
    ensures |r| == |seats|
  {
    seq(|seats|, k requires 0 <= k < |seats| => if seats[k].participant == participant then s else seats[k])
  }

  lemma {:induction false} EpochReplaced(seats: seq<Seat>, k: nat, s: Seat)
    requires k < |seats|
    ensures EpochOf(seats[k := s]) == EpochOf(seats) - EpochWeight(seats[k]) + EpochWeight(s)
  {
    var init := seats[..|seats| - 1];
    if k == |seats| - 1 {
      assert seats[k := s][..|seats| - 1] == init;
    } else {
      assert seats[k := s][..|seats| - 1] == init[k := s];
      EpochReplaced(init, k, s);
    }
  }

  lemma WhereReplacesOne(seats: seq<Seat>, k: nat, s: Seat)
    requires DistinctParticipants(seats) && k < |seats|
    ensures Where(seats, seats[k].participant, s) == seats[k := s]
  {
  }

  /** Replacing one seat by its next state keeps the room's seats healthy, at the matching epoch. */
  lemma StepOneSeat(seats: seq<Seat>, anonymous: bool, epoch: nat, k: nat, s: Seat, epoch': nat)
    requires SeatsHealthy(seats, anonymous, epoch) && k < |seats| && SameSeat(seats[k], s) && SeatValid(s)
    requires epoch' == epoch - EpochWeight(seats[k]) + EpochWeight(s) && epoch <= epoch'
    requires s.removedEpoch.Some? ==> s.removedEpoch.value <= epoch'
    ensures Where(seats, s.participant, s) == seats[k := s]
    ensures SeatsProgress(seats, seats[k := s]) && SeatsHealthy(seats[k := s], anonymous, epoch')
  {
    WhereReplacesOne(seats, k, s);
    EpochReplaced(seats, k, s);
    ProgressKeepsSeats(seats, seats[k := s], anonymous, epoch, epoch');
  }

  // ----- New seats -------------------------------------------------------------------------------------

  ghost predicate NewSeatFits(seats: seq<Seat>, anonymous: bool, s: Seat) {
    && SeatValid(s) && Authorized(s)
    && (forall t :: t in seats ==> t.participant != s.participant && (Authorized(t) ==> t.identity != s.identity))
    && s.alias == if anonymous then Some(MintAlias(seats, s.role)) else None
  }

  lemma AppendKeepsSeats(seats: seq<Seat>, anonymous: bool, epoch: nat, s: Seat)
    requires SeatsHealthy(seats, anonymous, epoch) && NewSeatFits(seats, anonymous, s)
    ensures SeatsHealthy(seats + [s], anonymous, epoch + EpochWeight(s))
  {
    assert (seats + [s])[..|seats|] == seats;
    if anonymous { NextAliasMinted(seats, s); }
  }

  // ----- Grants ----------------------------------------------------------------------------------------

  function GrantsWithout(grants: seq<Grant>, gone: set<Cid>): (r: seq<Grant>)
    ensures forall g :: g in r <==> g in grants && g.caller !in gone
    ensures Distinct(grants) ==> Distinct(r)
  {
    Filter(grants, (g: Grant) => g.caller !in gone)
  }

  lemma GrantsStillValid(grants: seq<Grant>, gone: set<Cid>, seats: seq<Seat>, seats': seq<Seat>)
    requires GrantsValid(grants, seats)
    requires forall s :: s in seats && s.state.ActiveSeat? && s.identity !in gone ==> HoldsActiveSeat(seats', s.identity)
    ensures GrantsValid(GrantsWithout(grants, gone), seats')
  {
    var kept := GrantsWithout(grants, gone);
    assert Distinct(kept);
    forall g | g in kept ensures HoldsActiveSeat(seats', g.caller) {
      var s :| s in seats && s.state.ActiveSeat? && s.identity == g.caller;
    }
  }

  lemma SeatsOnlyGrow(grants: seq<Grant>, seats: seq<Seat>, seats': seq<Seat>)
    requires GrantsValid(grants, seats)
    requires forall s :: s in seats && s.state.ActiveSeat? ==> HoldsActiveSeat(seats', s.identity)
    ensures GrantsValid(grants, seats')
  {
    forall g | g in grants ensures HoldsActiveSeat(seats', g.caller) {
      var s :| s in seats && s.state.ActiveSeat? && s.identity == g.caller;
    }
  }
}
