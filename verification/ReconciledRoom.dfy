/**
 What one reconciliation makes of a room, in terms of the SDK's listing alone: who loses a seat, who is
 activated, exactly who is admitted and through which invite, how accepts are recounted, and when the room
 opens.
 */
module ReconciledRoom {
  import opened Prelude
  import opened Rooms
  import opened InviteLineage
  import opened Membership
  import opened Reconciliation

  predicate IsListed(contacts: seq<Contact>, cid: Cid) {
    exists c :: c in contacts && c.cid == cid
  }

  /** The first entry the listing has for its CID; later ones do not count. */
  predicate FirstListedAt(contacts: seq<Contact>, c: Contact, k: nat) {
    k < |contacts| && contacts[k] == c && forall j :: 0 <= j < k ==> contacts[j].cid != c.cid
  }

  predicate FirstListed(contacts: seq<Contact>, c: Contact) {
    exists k :: 0 <= k < |contacts| && FirstListedAt(contacts, c, k)
  }

  /** A seat that was there before. */
  predicate SeatReconciled(s: Seat, s': Seat, contacts: seq<Contact>, now: Time) {
    match s.state
    case RemovedSeat => s' == s
    case ActiveSeat =>
      if IsListed(contacts, s.identity) then s' == s
      else s' == s.(state := RemovedSeat, contactAbsent := true, removedAt := Some(now), removedEpoch := s'.removedEpoch)
    case PendingSeat =>
      if IsListed(contacts, s.identity)
      then exists c :: c in contacts && Opens(s, s', contacts, c, now)
      else s' == s
  }

  predicate Opens(s: Seat, s': Seat, contacts: seq<Contact>, c: Contact, now: Time) {
    FirstListed(contacts, c) && c.cid == s.identity && s' == s.(state := ActiveSeat, displayName := c.name, acceptedAt := Some(now))
  }

  predicate HasOpenSeat(seats: seq<Seat>, cid: Cid) {
    exists s :: s in seats && s.state != RemovedSeat && s.identity == cid
  }

  predicate IsUsable(i: Invite) {
    i.state == Live && (i.recoveryOf.None? || i.confirmed == Some(true))
  }

  /**
   The invite that lets a listed contact in: usable, minted after the CID was last removed, and the one the
   contact names; without provenance a contact that names none comes through the only usable one.
   */
  predicate LetsIn(room: Room, c: Contact, i: Invite, provenance: bool) {
    && i in room.invites && IsUsable(i)
    && (forall s :: s in room.seats && s.identity == c.cid && s.state == RemovedSeat && s.removedAt.Some? ==> s.removedAt.value < i.createdAt)
    && if c.invite.Some? then i.id == c.invite.value
       else !provenance && forall j :: j in room.invites && IsUsable(j) ==> j == i
  }

  predicate AdmittedThrough(room: Room, s: Seat, c: Contact, i: Invite, seen: Observed) {
    && FirstListed(seen.contacts, c) && !HasOpenSeat(room.seats, c.cid) && LetsIn(room, c, i, seen.provenance)
    && s == Seat(c.cid, c.name, i.role, i.id, Some(seen.now), None, None, s.participant, ActiveSeat, s.alias, false, None, None, None)
    && s.participant in seen.ids
  }

  /** A seat that is new. */
  predicate SeatAdmitted(room: Room, s: Seat, seen: Observed) {
    exists c, i :: c in seen.contacts && i in room.invites && AdmittedThrough(room, s, c, i, seen)
  }

  /** Whoever is let in and has no open seat yet gets one. */
  ghost predicate NobodyForgotten(room: Room, after: Room, seen: Observed)
    requires |room.seats| <= |after.seats|
  {
    forall c, i :: FirstListed(seen.contacts, c) && !HasOpenSeat(room.seats, c.cid) && LetsIn(room, c, i, seen.provenance) ==>
      exists s :: s in after.seats[|room.seats|..] && AdmittedThrough(room, s, c, i, seen)
  }

  predicate CameThrough(seats: seq<Seat>, id: InviteId, cid: Cid) {
    exists s :: s in seats && s.state != PendingSeat && s.inviteId == id && s.identity == cid
  }

  /** Each once, in the order of the first seats they came through to. */
  predicate InSeatOrder(accepted: seq<Cid>, seats: seq<Seat>, id: InviteId) {
    forall i, j :: 0 <= i < j < |accepted| ==> CameBefore(seats, id, accepted[i], accepted[j])
  }

  predicate CameBefore(seats: seq<Seat>, id: InviteId, a: Cid, b: Cid) {
    exists n :: 0 <= n < |seats| && CameThrough(seats[..n], id, a) && !CameThrough(seats[..n], id, b)
  }

  /** An invite after the recount of its accepts. */
  ghost predicate InviteRecounted(i: Invite, i': Invite, seats: seq<Seat>, core: set<InviteId>) {
    && i' == i.(accepted := i'.accepted, state := i'.state)
    && (if exists c :: CameThrough(seats, i.id, c)
        then InSeatOrder(i'.accepted, seats, i.id) && forall c :: c in i'.accepted <==> CameThrough(seats, i.id, c)
        else i'.accepted == i.accepted)
    && i'.state == if i.state != Live then i.state
                   else if i.mode == OneTime && i'.accepted != [] then Consumed
                   else if i.id in core then Live
                   else ReplacementRequired
  }

  /** Enough accepts for every invite that stands, enough active seats for every role asked for, and anybody at all. */
  predicate ReadyToOpen(room: Room) {
    && (forall i :: i in room.invites && i.state != Revoked ==> |i.accepted| >= i.minAccepts)
    && (forall r :: r in room.requirements ==> |ActivePlaces(room.seats, r.role)| >= r.count)
    && exists s :: s in room.seats && s.state == ActiveSeat
  }

  function ActivePlaces(seats: seq<Seat>, role: string): set<nat> {
    set k: nat | k < |seats| && seats[k].state == ActiveSeat && seats[k].role == role
  }

  ghost predicate SeatsReconciled(room: Room, after: Room, seen: Observed) {
    && |after.seats| >= |room.seats|
    && (forall k :: 0 <= k < |room.seats| ==> SeatReconciled(room.seats[k], after.seats[k], seen.contacts, seen.now))
    && (forall k :: |room.seats| <= k < |after.seats| ==> SeatAdmitted(room, after.seats[k], seen))
    && NobodyForgotten(room, after, seen)
  }

  ghost predicate RestReconciled(room: Room, after: Room, seen: Observed) {
    && after == room.(seats := after.seats, invites := after.invites, grants := after.grants, epoch := after.epoch, state := after.state)
    && |after.invites| == |room.invites|
    && (forall k :: 0 <= k < |room.invites| ==> InviteRecounted(room.invites[k], after.invites[k], after.seats, seen.coreInvites))
    && (forall g :: g in after.grants <==> g in room.grants && IsListed(seen.contacts, g.caller))
    && after.state == if room.state == Provisioning && ReadyToOpen(after) then Active else room.state
  }

  /** The room before and after, as far as a saved reconciliation goes. */
  ghost predicate Reconciled(room: Room, after: Room, seen: Observed) {
    SeatsReconciled(room, after, seen) && RestReconciled(room, after, seen)
  }

  // ----- The listing -----------------------------------------------------------------------------------------

  lemma {:induction false} FirstsAreFirst(contacts: seq<Contact>, c: Contact)
    ensures c in FirstContacts(contacts) <==> FirstListed(contacts, c)
  {
    if contacts != [] {
      var init, last := contacts[..|contacts| - 1], contacts[|contacts| - 1];
      assert contacts == init + [last];
      FirstsAreFirst(init, c);
      FirstContactsSameCids(init, last.cid);
      OneMoreListed(init, last, c);
    }
  }

  lemma OneMoreListed(init: seq<Contact>, last: Contact, c: Contact)
    ensures FirstListed(init + [last], c) <==> FirstListed(init, c) || (c == last && !Present(init, last.cid))
  {
    var contacts := init + [last];
    assert forall j :: 0 <= j < |init| ==> init[j] == contacts[j];
    if FirstListed(init, c) {
      var k :| 0 <= k < |init| && FirstListedAt(init, c, k);
      assert FirstListedAt(contacts, c, k);
    }
    if FirstListed(contacts, c) {
      var k :| 0 <= k < |contacts| && FirstListedAt(contacts, c, k);
      if k < |init| { assert FirstListedAt(init, c, k); } else { LastIsFirst(init, last); }
    }
    if c == last && !Present(init, last.cid) { assert FirstListedAt(contacts, last, |init|); }
  }

  lemma LastIsFirst(init: seq<Contact>, last: Contact)
    requires FirstListedAt(init + [last], last, |init|)
    ensures !Present(init, last.cid)
  {
    forall c | c in init ensures c.cid != last.cid {
      var j :| 0 <= j < |init| && init[j] == c;
      assert (init + [last])[j] == c;
    }
  }

  // ----- Seats that were there -------------------------------------------------------------------------------

  lemma {:induction false} SeatIsReconciled(s: Seat, s': Seat, contacts: seq<Contact>, now: Time, epoch: nat, epoch': nat)
    requires StayedOrDeparted(s, s', contacts, now, epoch, epoch')
    ensures SeatReconciled(s, Activated(s', FirstContacts(contacts), now), contacts, now)
  {
    var firsts := FirstContacts(contacts);
    FirstContactsSameCids(contacts, s.identity);
    var found := ContactOf(firsts, s.identity);
    if s.state == PendingSeat && found.Some? {
      FirstsAreFirst(contacts, found.value);
      assert Opens(s, Activated(s', firsts, now), contacts, found.value, now);
    }
  }

  /** Departures touch nobody who is listed. */
  lemma ListedKeepSeats(seats: seq<Seat>, seats': seq<Seat>, contacts: seq<Contact>, now: Time, epoch: nat, epoch': nat, cid: Cid)
    requires |seats'| == |seats| && IsListed(contacts, cid)
    requires forall k :: 0 <= k < |seats| ==> StayedOrDeparted(seats[k], seats'[k], contacts, now, epoch, epoch')
    ensures forall s: Seat :: s.identity == cid ==> (s in seats' <==> s in seats)
  {
    forall s: Seat | s.identity == cid && s in seats ensures s in seats' {
      var k :| 0 <= k < |seats| && seats[k] == s;
      assert StayedOrDeparted(seats[k], seats'[k], contacts, now, epoch, epoch') && seats'[k] == s;
    }
    forall s: Seat | s.identity == cid && s in seats' ensures s in seats {
      var k :| 0 <= k < |seats| && seats'[k] == s;
      assert StayedOrDeparted(seats[k], seats'[k], contacts, now, epoch, epoch') && seats[k].identity == cid;
    }
  }

  // ----- Admissions ------------------------------------------------------------------------------------------

  lemma OnlyUsable(invites: seq<Invite>, i: Invite)
    requires Distinct(invites)
    ensures LegacyInvite(invites, false) == Some(i) <==> i in invites && IsUsable(i) && forall j :: j in invites && IsUsable(j) ==> j == i
  {
    var usable := Filter(invites, (x: Invite) => Admits(x));
    if i in invites && IsUsable(i) && forall j :: j in invites && IsUsable(j) ==> j == i {
      assert forall j :: j in usable ==> j == i;
      forall k | 0 <= k < |usable| ensures usable[k] == i { assert usable[k] in usable; }
      assert usable[0] == i && usable[|usable| - 1] == i;
    }
    if |usable| == 1 { assert usable == [usable[0]] && usable[0] in usable; }
  }

  /** The admitting invite of the second save is the one that lets the contact in. */
  lemma AdmitsIffLetsIn(room: Room, departed: Room, c: Contact, i: Invite, provenance: bool)
    requires UniqueIds(room.invites) && Distinct(room.invites) && departed.invites == room.invites
    requires forall s: Seat :: s.identity == c.cid ==> (s in departed.seats <==> s in room.seats)
    ensures AdmittingInvite(departed, c, provenance) == Some(i) <==> LetsIn(room, c, i, provenance)
  {
    NotRemovedSince(room, departed, c, i.createdAt);
    if c.invite.Some? {
      if i in room.invites && i.id == c.invite.value { SameIdSameInvite(room.invites, i, FindInvite(room.invites, i.id).value); }
    } else {
      OnlyUsable(room.invites, i);
    }
  }

  lemma NotRemovedSince(room: Room, departed: Room, c: Contact, at: Time)
    requires forall s: Seat :: s.identity == c.cid ==> (s in departed.seats <==> s in room.seats)
    ensures RemovedSince(departed.seats, c.cid, at) <==>
      !(forall s :: s in room.seats && s.identity == c.cid && s.state == RemovedSeat && s.removedAt.Some? ==> s.removedAt.value < at)
  {
  }

  /** The seat as an admission through `i` makes it, whatever its ID and alias. */
  predicate SeatFor(s: Seat, c: Contact, i: Invite, seen: Observed) {
    && s == Seat(c.cid, c.name, i.role, i.id, Some(seen.now), None, None, s.participant, ActiveSeat, s.alias, false, None, None, None)
    && s.participant in seen.ids
  }

  ghost predicate Enters(room: Room, seated: seq<Seat>, s: Seat, c: Contact, seen: Observed) {
    var i := AdmittingInvite(room, c, seen.provenance);
    i.Some? && !HoldsSeat(seated, c.cid) && SeatFor(s, c, i.value, seen)
  }

  lemma {:induction false} AdmissionsFrom(room: Room, seated: seq<Seat>, contacts: seq<Contact>, seen: Observed, s: Seat)
    requires |contacts| <= |seen.ids| && s in Admissions(room, seated, contacts, seen)
    ensures exists c :: c in contacts && Enters(room, seated, s, c, seen)
  {
    var init, contact := contacts[..|contacts| - 1], contacts[|contacts| - 1];
    assert contacts == init + [contact];
    var earlier := Admissions(room, seated, init, seen);
    if s in earlier {
      AdmissionsFrom(room, seated, init, seen, s);
      var c :| c in init && Enters(room, seated, s, c, seen);
      assert c in contacts;
    } else {
      assert !HoldsSeat(seated, contact.cid) by { if HoldsSeat(seated, contact.cid) { SeatsStayHeld(seated, earlier, contact.cid); } }
      assert Enters(room, seated, s, contact, seen);
    }
  }

  lemma SeatsStayHeld(seated: seq<Seat>, more: seq<Seat>, cid: Cid)
    requires HoldsSeat(seated, cid)
    ensures HoldsSeat(seated + more, cid)
  {
    var s :| s in seated && Authorized(s) && s.identity == cid;
    assert s in seated + more;
  }

  predicate DistinctContacts(contacts: seq<Contact>) {
    forall j, k :: 0 <= j < k < |contacts| ==> contacts[j].cid != contacts[k].cid
  }

  lemma {:induction false} AdmissionsFor(room: Room, seated: seq<Seat>, contacts: seq<Contact>, seen: Observed, c: Contact)
    requires |contacts| <= |seen.ids| && DistinctContacts(contacts) && c in contacts
    requires !HoldsSeat(seated, c.cid) && AdmittingInvite(room, c, seen.provenance).Some?
    ensures exists s :: s in Admissions(room, seated, contacts, seen) && Enters(room, seated, s, c, seen)
  {
    var init, contact := contacts[..|contacts| - 1], contacts[|contacts| - 1];
    assert contacts == init + [contact];
    var earlier, admitted := Admissions(room, seated, init, seen), Admissions(room, seated, contacts, seen);
    if c in init {
      AdmissionsFor(room, seated, init, seen, c);
      var s :| s in earlier && Enters(room, seated, s, c, seen);
      assert s in admitted;
    } else {
      NotEnteredYet(room, seated, init, seen, contact);
      assert Enters(room, seated, admitted[|earlier|], c, seen);
    }
  }

  lemma {:induction false} NotEnteredYet(room: Room, seated: seq<Seat>, init: seq<Contact>, seen: Observed, contact: Contact)
    requires |init| <= |seen.ids| && !HoldsSeat(seated, contact.cid) && forall c :: c in init ==> c.cid != contact.cid
    ensures !HoldsSeat(seated + Admissions(room, seated, init, seen), contact.cid)
  {
    var earlier := Admissions(room, seated, init, seen);
    forall s | s in earlier ensures s.identity != contact.cid {
      AdmissionsFrom(room, seated, init, seen, s);
    }
  }

  lemma {:induction false} FirstsAreDistinct(contacts: seq<Contact>)
    ensures DistinctContacts(FirstContacts(contacts))
  {
    if contacts != [] {
      var init, last := contacts[..|contacts| - 1], contacts[|contacts| - 1];
      FirstsAreDistinct(init);
      var firsts := FirstContacts(init);
      forall j | 0 <= j < |firsts| && !Present(firsts, last.cid) ensures firsts[j].cid != last.cid { assert firsts[j] in firsts; }
    }
  }

  /** An open seat before is an open seat after departures and activations, for everybody listed. */
  lemma OpenStaysOpen(room: Room, departed: Room, seated: seq<Seat>, contacts: seq<Contact>, now: Time, cid: Cid)
    requires forall s: Seat :: s.identity == cid ==> (s in departed.seats <==> s in room.seats)
    requires seated == Activate(departed.seats, contacts, now)
    ensures HoldsSeat(seated, cid) <==> HasOpenSeat(room.seats, cid)
  {
    if HoldsSeat(seated, cid) {
      var s :| s in seated && Authorized(s) && s.identity == cid;
      var k :| 0 <= k < |seated| && seated[k] == s;
      assert departed.seats[k] in departed.seats && departed.seats[k].state != RemovedSeat;
    }
    if HasOpenSeat(room.seats, cid) {
      var s :| s in room.seats && s.state != RemovedSeat && s.identity == cid;
      var k :| 0 <= k < |departed.seats| && departed.seats[k] == s;
      assert seated[k] in seated && Authorized(seated[k]);
    }
  }

  // ----- Accepts and the room's state --------------------------------------------------------------------------

  lemma {:induction false} AcceptedAreThrough(seats: seq<Seat>, id: InviteId)
    ensures InSeatOrder(AcceptedThrough(seats, id), seats, id)
    ensures forall c :: c in AcceptedThrough(seats, id) <==> CameThrough(seats, id, c)
  {
    if seats != [] {
      var init, s := seats[..|seats| - 1], seats[|seats| - 1];
      assert seats == init + [s];
      AcceptedAreThrough(init, id);
      OrderStays(init, s, id);
    }
  }

  lemma {:induction false} OrderStays(init: seq<Seat>, s: Seat, id: InviteId)
    requires var earlier := AcceptedThrough(init, id);
      InSeatOrder(earlier, init, id) && forall c :: c in earlier <==> CameThrough(init, id, c)
    ensures InSeatOrder(AcceptedThrough(init + [s], id), init + [s], id)
  {
    var seats := init + [s];
    var earlier, accepted := AcceptedThrough(init, id), AcceptedThrough(seats, id);
    assert seats[..|init|] == init;
    forall i, j | 0 <= i < j < |accepted| ensures CameBefore(seats, id, accepted[i], accepted[j]) {
      if j < |earlier| {
        var n :| 0 <= n < |init| && CameThrough(init[..n], id, earlier[i]) && !CameThrough(init[..n], id, earlier[j]);
        assert seats[..n] == init[..n];
      } else {
        assert earlier[i] in earlier && accepted[j] !in earlier;
        assert CameThrough(seats[..|init|], id, accepted[i]) && !CameThrough(seats[..|init|], id, accepted[j]);
      }
    }
  }

  lemma InviteIsRecounted(i: Invite, seats: seq<Seat>, core: set<InviteId>)
    ensures InviteRecounted(i, Recounted(i, seats, core), seats, core)
  {
    AcceptedAreThrough(seats, i.id);
    var through := AcceptedThrough(seats, i.id);
    if through != [] { assert CameThrough(seats, i.id, through[0]) by { assert through[0] in through; } }
  }

  lemma {:induction false} CountsPlaces(seats: seq<Seat>, role: string)
    ensures CountRole(seats, role) == |ActivePlaces(seats, role)|
  {
    if seats != [] {
      CountsPlaces(seats[..|seats| - 1], role);
      OnePlaceMore(seats, role);
    }
  }

  lemma OnePlaceMore(seats: seq<Seat>, role: string)
    requires seats != []
    ensures var init, s := seats[..|seats| - 1], seats[|seats| - 1];
      |ActivePlaces(seats, role)| == |ActivePlaces(init, role)| + if s.state == ActiveSeat && s.role == role then 1 else 0
  {
    var init, s := seats[..|seats| - 1], seats[|seats| - 1];
    assert seats == init + [s];
    PlacesSplit(init, s, role);
  }

  lemma PlacesSplit(init: seq<Seat>, s: Seat, role: string)
    ensures |init| !in ActivePlaces(init, role)
    ensures ActivePlaces(init + [s], role) == ActivePlaces(init, role) + if s.state == ActiveSeat && s.role == role then {|init|} else {}
  {
    forall k: nat ensures k in ActivePlaces(init + [s], role) <==>
      k in ActivePlaces(init, role) || (k == |init| && s.state == ActiveSeat && s.role == role) { }
  }

  lemma OpensWhenReady(room: Room)
    ensures RequirementsMet(room) <==> ReadyToOpen(room)
  {
    forall r | r in room.requirements
      ensures CountRole(room.seats, r.role) == |ActivePlaces(room.seats, r.role)|
    {
      CountsPlaces(room.seats, r.role);
    }
  }

  // ----- Together ----------------------------------------------------------------------------------------------

  /** The two saves of a reconciliation, seen as one. */
  lemma ReconciliationIsExact(room: Room, seen: Observed)
    requires Healthy(room) && |seen.contacts| <= |seen.ids|
    ensures Reconciled(room, Admitted(AfterDepartures(room, seen.contacts, seen.now), seen), seen)
  {
    SeatsAreReconciled(room, seen);
    NewSeatsAreAdmitted(room, seen);
    EverybodyEnters(room, seen);
    RestIsReconciled(room, seen);
  }

  lemma RestIsReconciled(room: Room, seen: Observed)
    requires Healthy(room) && |seen.contacts| <= |seen.ids|
    ensures RestReconciled(room, Admitted(AfterDepartures(room, seen.contacts, seen.now), seen), seen)
  {
    var departed := AfterDepartures(room, seen.contacts, seen.now);
    var after := Admitted(departed, seen);
    forall k | 0 <= k < |room.invites| ensures InviteRecounted(room.invites[k], after.invites[k], after.seats, seen.coreInvites) {
      InviteIsRecounted(room.invites[k], after.seats, seen.coreInvites);
    }
    GrantsOfTheListed(room, seen);
    StateAdvances(room, departed, seen);
  }

  lemma DeparturesAreEach(room: Room, seen: Observed)
    ensures var departed := AfterDepartures(room, seen.contacts, seen.now);
      && |departed.seats| == |room.seats| && departed.invites == room.invites && departed.anonymous == room.anonymous
      && departed.state == room.state && departed.requirements == room.requirements && departed.epoch >= room.epoch
      && forall k :: 0 <= k < |room.seats| ==>
        StayedOrDeparted(room.seats[k], departed.seats[k], seen.contacts, seen.now, room.epoch, departed.epoch)
  {
    var r := Depart(room.seats, seen.contacts, room.epoch, seen.now);
    DepartEach(room.seats, seen.contacts, room.epoch, seen.now);
    if r.gone == {} {
      forall k | 0 <= k < |room.seats| ensures StayedOrDeparted(room.seats[k], room.seats[k], seen.contacts, seen.now, room.epoch, room.epoch) {
        DepartGone(room.seats, seen.contacts, room.epoch, seen.now, room.seats[k].identity);
        assert room.seats[k] in room.seats;
      }
    }
  }

  lemma SeatsAreReconciled(room: Room, seen: Observed)
    requires |seen.contacts| <= |seen.ids|
    ensures var after := Admitted(AfterDepartures(room, seen.contacts, seen.now), seen);
      |room.seats| <= |after.seats|
      && forall k :: 0 <= k < |room.seats| ==> SeatReconciled(room.seats[k], after.seats[k], seen.contacts, seen.now)
  {
    var departed := AfterDepartures(room, seen.contacts, seen.now);
    DeparturesAreEach(room, seen);
    forall k | 0 <= k < |room.seats| ensures SeatReconciled(room.seats[k], Admitted(departed, seen).seats[k], seen.contacts, seen.now) {
      SeatIsReconciled(room.seats[k], departed.seats[k], seen.contacts, seen.now, room.epoch, departed.epoch);
    }
  }

  lemma ContactEnters(room: Room, c: Contact, s: Seat, seen: Observed)
    requires Healthy(room) && |seen.contacts| <= |seen.ids| && FirstListed(seen.contacts, c)
    ensures var departed := AfterDepartures(room, seen.contacts, seen.now);
      var seated := Activate(departed.seats, FirstContacts(seen.contacts), seen.now);
      && (HoldsSeat(seated, c.cid) <==> HasOpenSeat(room.seats, c.cid))
      && (forall i :: AdmittingInvite(departed, c, seen.provenance) == Some(i) <==> LetsIn(room, c, i, seen.provenance))
      && (Enters(departed, seated, s, c, seen) <==> exists i :: i in room.invites && AdmittedThrough(room, s, c, i, seen))
  {
    var departed := AfterDepartures(room, seen.contacts, seen.now);
    var firsts := FirstContacts(seen.contacts);
    var seated := Activate(departed.seats, firsts, seen.now);
    DeparturesAreEach(room, seen);
    ListedKeepSeats(room.seats, departed.seats, seen.contacts, seen.now, room.epoch, departed.epoch, c.cid);
    OpenStaysOpen(room, departed, seated, firsts, seen.now, c.cid);
    forall i ensures AdmittingInvite(departed, c, seen.provenance) == Some(i) <==> LetsIn(room, c, i, seen.provenance) {
      AdmitsIffLetsIn(room, departed, c, i, seen.provenance);
    }
    EntersIffThrough(room, departed, seated, c, s, seen);
  }

  lemma EntersIffThrough(room: Room, departed: Room, seated: seq<Seat>, c: Contact, s: Seat, seen: Observed)
    requires FirstListed(seen.contacts, c) && (HoldsSeat(seated, c.cid) <==> HasOpenSeat(room.seats, c.cid))
    requires forall i :: AdmittingInvite(departed, c, seen.provenance) == Some(i) <==> LetsIn(room, c, i, seen.provenance)
    ensures Enters(departed, seated, s, c, seen) <==> exists i :: i in room.invites && AdmittedThrough(room, s, c, i, seen)
  {
    var found := AdmittingInvite(departed, c, seen.provenance);
    if found.Some? {
      assert LetsIn(room, c, found.value, seen.provenance);
      if Enters(departed, seated, s, c, seen) { assert AdmittedThrough(room, s, c, found.value, seen); }
    }
    if i :| i in room.invites && AdmittedThrough(room, s, c, i, seen) { assert found == Some(i); }
  }

  lemma NewSeatsAreAdmitted(room: Room, seen: Observed)
    requires Healthy(room) && |seen.contacts| <= |seen.ids|
    ensures var after := Admitted(AfterDepartures(room, seen.contacts, seen.now), seen);
      forall k :: |room.seats| <= k < |after.seats| ==> SeatAdmitted(room, after.seats[k], seen)
  {
    var departed := AfterDepartures(room, seen.contacts, seen.now);
    var after, firsts := Admitted(departed, seen), FirstContacts(seen.contacts);
    var seated := Activate(departed.seats, firsts, seen.now);
    DeparturesAreEach(room, seen);
    forall k | |room.seats| <= k < |after.seats| ensures SeatAdmitted(room, after.seats[k], seen) {
      var s := after.seats[k];
      assert s in Admissions(departed, seated, firsts, seen);
      AdmissionsFrom(departed, seated, firsts, seen, s);
      var c :| c in firsts && Enters(departed, seated, s, c, seen);
      FirstsAreFirst(seen.contacts, c);
      ContactEnters(room, c, s, seen);
    }
  }

  lemma EverybodyEnters(room: Room, seen: Observed)
    requires Healthy(room) && |seen.contacts| <= |seen.ids|
    ensures var after := Admitted(AfterDepartures(room, seen.contacts, seen.now), seen);
      |room.seats| <= |after.seats| && NobodyForgotten(room, after, seen)
  {
    var departed := AfterDepartures(room, seen.contacts, seen.now);
    var after, firsts := Admitted(departed, seen), FirstContacts(seen.contacts);
    var seated := Activate(departed.seats, firsts, seen.now);
    DeparturesAreEach(room, seen);
    FirstsAreDistinct(seen.contacts);
    assert after.seats[|room.seats|..] == Admissions(departed, seated, firsts, seen);
    forall c, i | FirstListed(seen.contacts, c) && !HasOpenSeat(room.seats, c.cid) && LetsIn(room, c, i, seen.provenance)
      ensures exists s :: s in after.seats[|room.seats|..] && AdmittedThrough(room, s, c, i, seen)
    {
      FirstsAreFirst(seen.contacts, c);
      OneEnters(room, departed, seated, firsts, seen, c, i);
    }
  }

  lemma {:induction false} OneEnters(room: Room, departed: Room, seated: seq<Seat>, firsts: seq<Contact>, seen: Observed, c: Contact, i: Invite)
    requires Healthy(room) && |seen.contacts| <= |seen.ids| && departed == AfterDepartures(room, seen.contacts, seen.now)
    requires firsts == FirstContacts(seen.contacts) && seated == Activate(departed.seats, firsts, seen.now)
    requires DistinctContacts(firsts) && c in firsts && FirstListed(seen.contacts, c)
    requires !HasOpenSeat(room.seats, c.cid) && LetsIn(room, c, i, seen.provenance)
    ensures exists s :: s in Admissions(departed, seated, firsts, seen) && AdmittedThrough(room, s, c, i, seen)
  {
    DeparturesAreEach(room, seen);
    ListedKeepSeats(room.seats, departed.seats, seen.contacts, seen.now, room.epoch, departed.epoch, c.cid);
    OpenStaysOpen(room, departed, seated, firsts, seen.now, c.cid);
    AdmitsIffLetsIn(room, departed, c, i, seen.provenance);
    AdmissionsFor(departed, seated, firsts, seen, c);
    var s :| s in Admissions(departed, seated, firsts, seen) && Enters(departed, seated, s, c, seen);
    assert AdmittedThrough(room, s, c, i, seen);
  }

  lemma GrantsOfTheListed(room: Room, seen: Observed)
    requires Healthy(room) && |seen.contacts| <= |seen.ids|
    ensures var after := Admitted(AfterDepartures(room, seen.contacts, seen.now), seen);
      forall g :: g in after.grants <==> g in room.grants && IsListed(seen.contacts, g.caller)
  {
    var r := Depart(room.seats, seen.contacts, room.epoch, seen.now);
    forall g | g in room.grants ensures g.caller in r.gone <==> !IsListed(seen.contacts, g.caller) {
      DepartGone(room.seats, seen.contacts, room.epoch, seen.now, g.caller);
      assert HoldsActiveSeat(room.seats, g.caller);
    }
  }

  lemma StateAdvances(room: Room, departed: Room, seen: Observed)
    requires |seen.contacts| <= |seen.ids| && departed == AfterDepartures(room, seen.contacts, seen.now)
    ensures var after := Admitted(departed, seen);
      after.state == if room.state == Provisioning && ReadyToOpen(after) then Active else room.state
  {
    var contacts := FirstContacts(seen.contacts);
    var seated := Activate(departed.seats, contacts, seen.now);
    var before := Reseated(departed, seated, Admissions(departed, seated, contacts, seen), contacts, seen);
    OpensWhenReady(before);
    OpensWhenReady(Admitted(departed, seen));
  }
}
