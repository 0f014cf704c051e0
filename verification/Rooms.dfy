/** Room metadata as the daemon stores it: identifiers, seats, invites and command grants. */
module Rooms {
  import opened Prelude

  // Identifiers are opaque strings; only equality matters. Times are an ordered abstract clock.
  type RoomId = string
  type Cid = string
  type Wire = string
  type Ulid = string
  type InviteId = string
  type Time = nat

  datatype Lifecycle = Provisioning | Active | Closing | Closed
  datatype SeatState = PendingSeat | ActiveSeat | RemovedSeat

  datatype Seat = Seat(
    identity: Cid,
    displayName: string,
    role: string,
    inviteId: InviteId,
    acceptedAt: Option<Time>,
    requestedAt: Option<Time>,
    inviteDigest: Option<string>,
    participant: Ulid,
    state: SeatState,
    alias: Option<string>,
    contactAbsent: bool,
    removedAt: Option<Time>,
    removedEpoch: Option<nat>,
    bouncedAt: Option<Time>)

  datatype InviteMode = OneTime | Public
  datatype InviteState = Live | Consumed | Revoked | ReplacementRequired | ReceiptPending

  datatype Invite = Invite(
    id: InviteId,
    mode: InviteMode,
    role: string,
    minAccepts: nat,
    accepted: seq<Cid>,
    state: InviteState,
    recoveryOf: Option<InviteId>,
    confirmed: Option<bool>,
    createdAt: Time)

  datatype Grant = Grant(caller: Cid, command: string)
  datatype Requirement = Requirement(role: string, count: nat)

  datatype Room = Room(
    id: RoomId,
    state: Lifecycle,
    seats: seq<Seat>,
    invites: seq<Invite>,
    grants: seq<Grant>,
    anonymous: bool,
    quiet: bool,
    epoch: nat,
    requirements: seq<Requirement>,
    lifecyclePending: bool)

  predicate Authorized(seat: Seat) {
    seat.state.PendingSeat? || seat.state.ActiveSeat?
  }

  /** At most one pending or active seat may exist per CID. */
  predicate OneSeatPerCid(seats: seq<Seat>) {
    forall i, j :: 0 <= i < j < |seats| && Authorized(seats[i]) && Authorized(seats[j]) ==>
      seats[i].identity != seats[j].identity
  }

  predicate DistinctParticipants(seats: seq<Seat>) {
    forall i, j :: 0 <= i < j < |seats| ==> seats[i].participant != seats[j].participant
  }

  /** The first seat that satisfies `p`: JavaScript's `find`. */
  function FindSeat(seats: seq<Seat>, p: Seat -> bool): (r: Option<Seat>)
    ensures r.Some? ==> r.value in seats && p(r.value)
    ensures r.None? ==> forall s :: s in seats ==> !p(s)
  {
    if seats == [] then None
    else if p(seats[0]) then Some(seats[0])
    else FindSeat(seats[1..], p)
  }
}
