/**
 What a stored room guarantees to whoever loads it, seat by seat and invite by invite. The checks of a save
 accept exactly such rooms.
 */
module StoredSchema {
  import opened Prelude
  import opened Rooms
  import opened InviteLineage
  import opened Membership

  /** The dates and marks a seat has in each of its states. */
  predicate SeatIsComplete(s: Seat) {
    && s.requestedAt.Some? == s.inviteDigest.Some?
    && (s.state == PendingSeat ==> s.requestedAt.Some? && s.acceptedAt.None?)
    && (s.state == ActiveSeat ==> s.acceptedAt.Some?)
    && (s.state == RemovedSeat ==> s.removedAt.Some? && s.removedEpoch.Some? && (s.acceptedAt.Some? || s.requestedAt.Some?))
    && (s.state != RemovedSeat ==> s.removedAt.None? && s.removedEpoch.None? && s.bouncedAt.None? && !s.contactAbsent)
  }

  /** Two seats never share a participant ID, two open ones no CID, and two active ones no alias. */
  predicate SeatsApart(a: Seat, b: Seat) {
    && a.participant != b.participant
    && (a.state != RemovedSeat && b.state != RemovedSeat ==> a.identity != b.identity)
    && (a.state == ActiveSeat && b.state == ActiveSeat && a.alias.Some? ==> a.alias != b.alias)
  }

  /** An invite asks for at least one accept, for exactly one if it can be used once; a replacement says whether it is confirmed. */
  predicate InviteIsComplete(i: Invite) {
    && i.minAccepts >= 1 && (i.mode == OneTime ==> i.minAccepts == 1)
    && (i.recoveryOf.None? ==> i.confirmed.None? && i.state != ReceiptPending)
    && (i.recoveryOf.Some? ==>
        && i.confirmed.Some?
        && (i.state == ReceiptPending ==> i.confirmed == Some(false) && i.accepted == [])
        && (i.state != ReceiptPending && i.state != Revoked ==> i.confirmed == Some(true)))
  }

  /** A replacement promises what its source did, and the two are in matching states. */
  predicate MayReplace(i: Invite, source: Invite) {
    && source.id != i.id && i.mode == source.mode && i.role == source.role && i.minAccepts == source.minAccepts
    && (i.state == ReceiptPending ==> source.state == ReplacementRequired)
    && (i.state == Revoked ==> source.state == Revoked || (source.state == ReplacementRequired && i.confirmed != Some(true)))
    && (i.state != ReceiptPending && i.state != Revoked ==> source.state == Revoked)
  }

  predicate IsFirstWith(invites: seq<Invite>, id: InviteId, k: nat) {
    k < |invites| && invites[k].id == id && forall j :: 0 <= j < k ==> invites[j].id != id
  }

  predicate Replaceable(invites: seq<Invite>, i: Invite) {
    i.recoveryOf.Some? ==> exists k :: 0 <= k < |invites| && IsFirstWith(invites, i.recoveryOf.value, k) && MayReplace(i, invites[k])
  }

  predicate Holder(seats: seq<Seat>, cid: Cid) {
    exists s :: s in seats && s.state == ActiveSeat && s.identity == cid
  }

  ghost predicate WellStored(room: Room) {
    && (forall i :: i in room.invites ==> InviteIsComplete(i) && Replaceable(room.invites, i))
    && (forall j, k :: 0 <= j < k < |room.invites| && room.invites[j].state == ReceiptPending && room.invites[k].state == ReceiptPending ==>
        room.invites[j].recoveryOf != room.invites[k].recoveryOf)
    && (forall s :: s in room.seats ==>
        SeatIsComplete(s) && s.alias.Some? == room.anonymous && (s.removedEpoch.Some? ==> s.removedEpoch.value <= room.epoch))
    && (forall j, k :: 0 <= j < k < |room.seats| ==> SeatsApart(room.seats[j], room.seats[k]))
    && (forall g :: g in room.grants ==> Holder(room.seats, g.caller)) && Distinct(room.grants)
  }

  lemma {:induction false} FoundIsFirst(invites: seq<Invite>, id: InviteId) returns (k: nat)
    ensures FindInvite(invites, id).Some? ==> IsFirstWith(invites, id, k) && FindInvite(invites, id).value == invites[k]
  {
    k := 0;
    if invites != [] && invites[0].id != id {
      k := FoundIsFirst(invites[1..], id);
      assert forall j :: 0 < j < |invites| ==> invites[j] == invites[1..][j - 1];
      k := k + 1;
    }
  }

  lemma OneIsFirst(invites: seq<Invite>, id: InviteId, j: nat, k: nat)
    requires IsFirstWith(invites, id, j) && IsFirstWith(invites, id, k)
    ensures j == k
  {
  }

  lemma PointerIsReplaceable(invites: seq<Invite>, i: Invite)
    ensures PointerValid(invites, i) <==> Replaceable(invites, i)
  {
    if i.recoveryOf.Some? {
      var k := FoundIsFirst(invites, i.recoveryOf.value);
      forall j: nat | IsFirstWith(invites, i.recoveryOf.value, j) ensures FindInvite(invites, i.recoveryOf.value) == Some(invites[j]) {
        assert invites[j] in invites;
        OneIsFirst(invites, i.recoveryOf.value, j, k);
      }
      SameReplacements(i);
    }
  }

  lemma SameReplacements(i: Invite)
    ensures forall source :: Replaces(i, source) <==> MayReplace(i, source)
  {
  }

  /** A save stores a room if and only if it is well stored. */
  lemma SchemaIsExact(room: Room)
    ensures RoomValid(room) <==> WellStored(room)
  {
    InvitesAreExact(room);
    SeatsAreExact(room);
  }

  lemma InvitesAreExact(room: Room)
    ensures (forall i :: i in room.invites ==> InviteValid(i)) && LineageValid(room.invites) <==>
      && (forall i :: i in room.invites ==> InviteIsComplete(i) && Replaceable(room.invites, i))
      && (forall j, k :: 0 <= j < k < |room.invites| && room.invites[j].state == ReceiptPending && room.invites[k].state == ReceiptPending ==>
          room.invites[j].recoveryOf != room.invites[k].recoveryOf)
  {
    forall i | i in room.invites
      ensures (InviteValid(i) <==> InviteIsComplete(i)) && (PointerValid(room.invites, i) <==> Replaceable(room.invites, i))
    {
      PointerIsReplaceable(room.invites, i);
    }
  }

  lemma SeatsAreExact(room: Room)
    ensures DistinctParticipants(room.seats) && OneSeatPerCid(room.seats) && DistinctActiveAliases(room.seats) <==>
      forall j, k :: 0 <= j < k < |room.seats| ==> SeatsApart(room.seats[j], room.seats[k])
    ensures forall s :: SeatValid(s) <==> SeatIsComplete(s)
    ensures GrantsValid(room.grants, room.seats) <==>
      (forall g :: g in room.grants ==> Holder(room.seats, g.caller)) && Distinct(room.grants)
  {
  }
}
