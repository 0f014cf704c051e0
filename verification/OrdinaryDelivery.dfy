/**
 What everybody in a room must get: which messages intake takes and to whom it addresses them, what the
 relay does with an ordinary one, and what of it each member reads, under which name. Everything is said
 in terms of seats, states and archived fields.
 */
module OrdinaryDelivery {
  import opened Prelude
  import opened Rooms
  import opened ReplyThreading
  import opened Threads
  import opened ThreadAncestry
  import opened ThreadRouting
  import opened ThreadHistory
  import opened ThreadRuns
  import opened ThreadDelivery
  import opened WireNames

  predicate HasActiveSeat(room: Room, c: Cid) {
    exists s :: s in room.seats && s.state == ActiveSeat && s.identity == c
  }

  predicate HasRemovedSeat(room: Room, c: Cid) {
    exists s :: s in room.seats && s.state == RemovedSeat && s.identity == c
  }

  predicate HasAnySeat(room: Room, c: Cid) {
    exists s :: s in room.seats && s.identity == c
  }

  // ----- Intake ------------------------------------------------------------------------------------------

  lemma ActiveSeatIffSome(room: Room, c: Cid)
    ensures ActiveSeatOf(room, c).Some? <==> HasActiveSeat(room, c)
  {
  }

  lemma {:induction false} WalkFailsOneWay(rows: seq<Row>, view: RoomView, item: Row, seen: set<Key>, depth: nat)
    requires item.IsItem()
    ensures Ancestry(rows, view, item, seen, depth).Err? ==> Ancestry(rows, view, item, seen, depth) == Err(ReplyTargetUnavailable)
    decreases item.pos
  {
    var parent := Parent(rows, view, item);
    if parent.Resolved? { WalkFailsOneWay(rows, view, parent.item, seen + {item.KeyOf()}, depth + 1); }
  }

  lemma {:induction false} ChecksFailOneWay(rows: seq<Row>, view: RoomView, chain: seq<Link>)
    requires forall l :: l in chain ==> l.item.IsItem()
    ensures Associate(rows, view, chain).Err? ==> Associate(rows, view, chain) == Err(ReplyTargetUnavailable)
  {
    if chain != [] {
      assert chain[0] in chain && forall l :: l in chain[1..] ==> l in chain;
      ChecksFailOneWay(rows, view, chain[1..]);
      var older := Associate(rows, view, chain[1..]);
      if older.Ok? { CheckFailsOneWay(rows, view, chain[0], older.value); }
    }
  }

  lemma CheckFailsOneWay(rows: seq<Row>, view: RoomView, link: Link, older: Association)
    requires link.item.IsItem()
    ensures Advance(rows, view, link, older).Err? ==> Advance(rows, view, link, older) == Err(ReplyTargetUnavailable)
  {
  }

  lemma VerdictFailsOneWay(rows: seq<Row>, view: RoomView, source: Row)
    requires source.IsItem()
    ensures Classify(rows, view, source).Err? ==> Classify(rows, view, source) == Err(ReplyTargetUnavailable)
  {
    WalkFailsOneWay(rows, view, source, {}, 0);
    if Ancestry(rows, view, source, {}, 0).Ok? { ChecksFailOneWay(rows, view, Ancestry(rows, view, source, {}, 0).value); }
  }

  /** A reply the room looks at: well formed, from an active member of an active room, to an item it knows. */
  ghost predicate ReplyTargetFound(room: Room, rows: seq<Row>, item: InboxItem, pos: nat) {
    && item.reply.Some? && 0 < |item.reply.value.wire| <= 256 && item.reply.value.sentence != Some(0)
    && room.state == Active && !room.lifecyclePending && HasActiveSeat(room, item.sender)
    && var parent := ResolveReplyParent(rows, room.id, item.sender, Some(item.reply.value.wire), pos);
      parent.Resolved? && Classify(rows, View(room), parent.item).Ok?
  }

  /** The thread the target belongs to, if it is private. */
  ghost function TargetRoot(room: Room, rows: seq<Row>, item: InboxItem, pos: nat): Option<Row>
    requires ReplyTargetFound(room, rows, item, pos)
  {
    var verdict := Classify(rows, View(room), ResolveReplyParent(rows, room.id, item.sender, Some(item.reply.value.wire), pos).item).value;
    if verdict.Scoped? then Some(verdict.root) else None
  }

  /** The sender may write into the thread: it is still active as the participant the root selected. */
  predicate MayWriteTo(room: Room, root: Row, c: Cid) {
    root.Message? && root.threadRoot.Some?
    && exists s :: s in room.seats && s.state == ActiveSeat && s.identity == c && Member(s.participant, c) in root.threadRoot.value.members
  }

  ghost predicate ReplyTaken(room: Room, rows: seq<Row>, item: InboxItem, pos: nat) {
    && ReplyTargetFound(room, rows, item, pos)
    && var root := TargetRoot(room, rows, item, pos);
      root.Some? ==> MayWriteTo(room, root.value, item.sender) && !item.isFile
  }

  /** All that stands in the way is that files have no place in threads. */
  ghost predicate MayOnlyText(room: Room, rows: seq<Row>, item: InboxItem, pos: nat) {
    && ReplyTargetFound(room, rows, item, pos)
    && var root := TargetRoot(room, rows, item, pos);
      root.Some? && MayWriteTo(room, root.value, item.sender)
  }

  /**
   The three answers of intake. A stranger is ignored, and so is a message without a reply from who is not
   an active member of an active room; such a reply is refused instead. Everything else is archived, except
   replies whose target cannot be found or written to, and files in threads.
   */
  lemma IntakeAnswers(room: Room, rows: seq<Row>, item: InboxItem, id: Ulid, pos: nat)
    ensures var answer := DecideIntake(room, rows, item, id, pos);
      && (answer.Appended? <==>
          if item.reply.None? then room.state == Active && HasActiveSeat(room, item.sender) else ReplyTaken(room, rows, item, pos))
      && (answer.Ignored? <==>
          !HasAnySeat(room, item.sender) || (item.reply.None? && !(room.state == Active && HasActiveSeat(room, item.sender))))
      && (answer.Rejected? ==>
          answer.failure == if MayOnlyText(room, rows, item, pos) then ThreadFilesUnsupported else ReplyTargetUnavailable)
  {
    ActiveSeatIffSome(room, item.sender);
    if item.reply.Some? { ReplyScope(room, rows, item, pos); }
  }

  /** Where a reply goes: into its target's thread, or to everybody else. */
  lemma ReplyScope(room: Room, rows: seq<Row>, item: InboxItem, pos: nat)
    requires item.reply.Some?
    ensures var to := ResolveIntakeScope(room, rows, item, pos);
      && (to.Ok? <==> ReplyTaken(room, rows, item, pos))
      && (to.Err? ==> to == Err(if MayOnlyText(room, rows, item, pos) then ThreadFilesUnsupported else ReplyTargetUnavailable))
      && (to.Ok? ==> (to.value.scope.Some? <==> TargetRoot(room, rows, item, pos).Some?))
      && (to.Ok? && to.value.scope.None? ==> to.value.recipients == Unique(ActiveCids(room.seats, item.sender)))
  {
    ActiveSeatIffSome(room, item.sender);
    var parent := ResolveReplyParent(rows, room.id, item.sender, Some(item.reply.value.wire), pos);
    if parent.Resolved? { VerdictFailsOneWay(rows, View(room), parent.item); }
  }

  /** The archived row is the sender's message, under the name of its active seat. */
  lemma AppendedIsTheMessage(room: Room, rows: seq<Row>, item: InboxItem, id: Ulid, pos: nat)
    requires DecideIntake(room, rows, item, id, pos).Appended?
    ensures var row := DecideIntake(room, rows, item, id, pos).row;
      && row.IsItem() && (row.File? <==> item.isFile) && row.id == id && row.pos == pos && row.room == room.id && row.at == item.date
      && row.reply == item.reply && row.sourceWire == (if item.wire == "" then None else Some(item.wire))
      && (row.Message? ==> row.category == Chat && row.text == item.body && row.sourceMessage == Some(item.sourceId) && row.threadRoot.None?)
      && (row.File? ==> row.content == item.body && row.sourceFile == item.sourceId)
      && exists s :: s in room.seats && s.state == ActiveSeat && s.identity == item.sender && IsAuthoredBy(room, row, s)
  {
    ActiveSeatIffSome(room, item.sender);
    var row, s := DecideIntake(room, rows, item, id, pos).row, ActiveSeatOf(room, item.sender).value;
    assert IsAuthoredBy(room, row, s);
  }

  predicate IsAuthoredBy(room: Room, row: Row, s: Seat)
    requires row.IsItem()
  {
    && row.author == Author(s.identity, s.displayName, s.role)
    && row.alias == if room.anonymous && s.alias.Some? then Some(AuthorAlias(s.participant, s.alias.value)) else None
  }

  /** Outside threads everybody else with an active seat is addressed, and nobody twice. */
  lemma OrdinaryRowAddressesRoom(room: Room, rows: seq<Row>, item: InboxItem, id: Ulid, pos: nat)
    requires DecideIntake(room, rows, item, id, pos).Appended?
    ensures var row := DecideIntake(room, rows, item, id, pos).row;
      && row.IsItem() && (row.Message? && row.scope.Some? <==> item.reply.Some? && TargetRoot(room, rows, item, pos).Some?)
      && (row.File? || row.scope.None? ==>
          InSeatOrder(row.recipients, room.seats) && forall c :: c in row.recipients <==> c != item.sender && HasActiveSeat(room, c))
  {
    if item.reply.Some? { ReplyScope(room, rows, item, pos); }
    EverybodyElse(room, item.sender);
    AddressedInOrder(room.seats, item.sender);
  }

  predicate Seated(seats: seq<Seat>, c: Cid) {
    exists s :: s in seats && s.state == ActiveSeat && s.identity == c
  }

  /** Each once, in the order of their first active seats. */
  predicate InSeatOrder(cids: seq<Cid>, seats: seq<Seat>) {
    forall i, j :: 0 <= i < j < |cids| ==> SeatedBefore(seats, cids[i], cids[j])
  }

  predicate SeatedBefore(seats: seq<Seat>, a: Cid, b: Cid) {
    exists n :: 0 <= n < |seats| && Seated(seats[..n], a) && !Seated(seats[..n], b)
  }

  lemma {:induction false} AddressedInOrder(seats: seq<Seat>, except: Cid)
    ensures InSeatOrder(Unique(ActiveCids(seats, except)), seats)
  {
    if seats != [] {
      var init, s := seats[..|seats| - 1], seats[|seats| - 1];
      assert seats == init + [s];
      AddressedInOrder(init, except);
      var before, earlier := ActiveCids(init, except), Unique(ActiveCids(init, except));
      var cids := Unique(ActiveCids(seats, except));
      if ActiveCids(seats, except) != before {
        assert ActiveCids(seats, except)[..|before|] == before;
      }
      assert cids == earlier || cids == earlier + [s.identity];
      forall i, j | 0 <= i < j < |cids| ensures SeatedBefore(seats, cids[i], cids[j]) {
        if j < |earlier| { EarlierStays(init, s, earlier[i], earlier[j]); } else { NewestIsLast(init, s, except, earlier, i); }
      }
    }
  }

  lemma EarlierStays(init: seq<Seat>, s: Seat, a: Cid, b: Cid)
    requires SeatedBefore(init, a, b)
    ensures SeatedBefore(init + [s], a, b)
  {
    var n :| 0 <= n < |init| && Seated(init[..n], a) && !Seated(init[..n], b);
    assert (init + [s])[..n] == init[..n];
  }

  lemma {:induction false} NewestIsLast(init: seq<Seat>, s: Seat, except: Cid, earlier: seq<Cid>, i: nat)
    requires earlier == Unique(ActiveCids(init, except)) && i < |earlier| && s.identity !in earlier && s.identity != except
    ensures SeatedBefore(init + [s], earlier[i], s.identity)
  {
    assert (init + [s])[..|init|] == init && earlier[i] in earlier;
    assert Seated(init, earlier[i]) && !Seated(init, s.identity);
  }

  lemma {:induction false} EverybodyElse(room: Room, sender: Cid)
    ensures var others := Unique(ActiveCids(room.seats, sender));
      Distinct(others) && forall c :: c in others <==> c != sender && HasActiveSeat(room, c)
  {
  }

  // ----- Relay -------------------------------------------------------------------------------------------

  lemma {:induction false} FirstIsOnly(rows: seq<Row>, source: Row)
    requires source in rows && source.IsItem()
    requires forall x :: x in rows && x.IsItem() && x.KeyOf() == source.KeyOf() ==> x == source
    ensures FirstItem(rows, source.KeyOf()) == Some(source)
  {
  }

  /** A row that neither replies nor declares a thread is ordinary whatever else is archived. */
  lemma LoneVerdict(rows: seq<Row>, view: RoomView, source: Row)
    requires source.IsItem() && source.reply.None? && !Declared(source) && source.room == view.id
    ensures Classify(rows, view, source) == Ok(Ordinary)
  {
    var chain := [Link(source, NoReply)];
    assert Parent(rows, view, source) == NoReply && chain[1..] == [];
    assert Ancestry(rows, view, source, {}, 0) == Ok(chain);
    assert Associate(rows, view, []) == Ok(Ordinary);
    assert Associate(rows, view, chain) == Advance(rows, view, chain[0], Ordinary);
  }

  /**
   The relay of an ordinary row to one of its saved recipients, exactly: it is skipped if and only if the
   recipient was removed and holds no active seat. What is sent is the row itself, outside any thread, and
   its reply target is the recipient's own wire for the row's parent, whenever that is linked.
   */
  lemma OrdinaryRelayIsExact(room: Room, rows: seq<Row>, intent: Row, source: Row)
    requires UniqueKeys(rows) && source in rows && source.IsItem() && intent.Intent? && intent.subject == source.KeyOf()
    requires Classify(rows, View(room), source) == Ok(Ordinary) && intent.recipient in source.recipients
    ensures var c, link := intent.recipient, SelectReply(rows, room.id, source, intent.recipient);
      DecideRelay(room, rows, intent) ==
        if HasRemovedSeat(room, c) && !HasActiveSeat(room, c) then Skip(SkippedRemoved)
        else Send(source, None, if link.Linked? then Some(link.wire) else None)
  {
    FirstIsOnly(rows, source);
    ActiveSeatIffSome(room, intent.recipient);
    if source.reply.None? && !Declared(source) {
      LoneVerdict([], View(room), source);
    }
  }

  /** Over every run: who is sent an ordinary reply is told exactly the wire it knows the parent by, if any. */
  lemma OrdinaryReplyTarget(worlds: seq<World>, events: seq<Event>, i: nat, intent: Row, source: Row, parent: Row)
    requires Run(worlds, events) && i < |worlds| && source in worlds[i].rows && source.IsItem()
    requires intent.Intent? && intent.subject == source.KeyOf() && intent.recipient in source.recipients
    requires Classify(worlds[i].rows, View(worlds[i].room), source) == Ok(Ordinary)
    requires parent in worlds[i].rows && parent.IsItem() && Parent(worlds[i].rows, View(worlds[i].room), source) == Resolved(parent.KeyOf(), parent)
    requires DecideRelay(worlds[i].room, worlds[i].rows, intent).Send?
    ensures var replyTo := DecideRelay(worlds[i].room, worlds[i].rows, intent).replyTo;
      && (replyTo.Some? <==> exists w :: Knows(worlds[i].rows, parent, intent.recipient, w))
      && (replyTo.Some? ==> Preferred(worlds[i].rows, parent, intent.recipient, replyTo.value))
  {
    RunKeepsInv(worlds, events, i);
    OrdinaryRelayIsExact(worlds[i].room, worlds[i].rows, intent, source);
    LinksAreExact(worlds, events, i, source, parent, intent.recipient);
  }

  /**
   From the inbox to everybody: an ordinary message taken in step `i` of a run is addressed to every other
   active member, and at any later time an intent for one of them that still has its seat is sent.
   */
  lemma OrdinaryMessageReachesMembers(worlds: seq<World>, events: seq<Event>, i: nat, j: nat, item: InboxItem, id: Ulid, c: Cid, intent: Row)
    requires Run(worlds, events) && i < j < |worlds| && events[i] == Intake(item, id)
    requires item.reply.None? && worlds[i].room.state == Active && HasActiveSeat(worlds[i].room, item.sender)
    requires c != item.sender && HasActiveSeat(worlds[i].room, c) && HasActiveSeat(worlds[j].room, c)
    requires intent.Intent? && intent.recipient == c && intent.subject == if item.isFile then FileKey(id) else MessageKey(id)
    ensures DecideIntake(worlds[i].room, worlds[i].rows, item, id, worlds[i].next).Appended?
    ensures var row := DecideIntake(worlds[i].room, worlds[i].rows, item, id, worlds[i].next).row;
      row in worlds[j].rows && DecideRelay(worlds[j].room, worlds[j].rows, intent) == Send(row, None, None)
  {
    var w := worlds[i];
    IntakeAnswers(w.room, w.rows, item, id, w.next);
    OrdinaryRowAddressesRoom(w.room, w.rows, item, id, w.next);
    AppendedIsTheMessage(w.room, w.rows, item, id, w.next);
    var row := DecideIntake(w.room, w.rows, item, id, w.next).row;
    TakenRowStays(worlds, events, i, j, item, id);
    RunKeepsInv(worlds, events, j);
    LoneVerdict(worlds[j].rows, View(worlds[j].room), row);
    OrdinaryRelayIsExact(worlds[j].room, worlds[j].rows, intent, row);
    NoReplyNoLink(worlds[j].rows, worlds[j].room.id, row, c);
  }

  lemma TakenRowStays(worlds: seq<World>, events: seq<Event>, i: nat, j: nat, item: InboxItem, id: Ulid)
    requires Run(worlds, events) && i < j < |worlds| && events[i] == Intake(item, id)
    requires DecideIntake(worlds[i].room, worlds[i].rows, item, id, worlds[i].next).Appended?
    ensures DecideIntake(worlds[i].room, worlds[i].rows, item, id, worlds[i].next).row in worlds[j].rows
    ensures worlds[j].room.id == worlds[i].room.id
  {
    var row := DecideIntake(worlds[i].room, worlds[i].rows, item, id, worlds[i].next).row;
    assert Step(worlds[i], worlds[i + 1], events[i]);
    assert worlds[i + 1].rows == worlds[i].rows + [row] && row in worlds[i + 1].rows;
    RunGrows(worlds, events, i, i + 1);
    RunGrows(worlds, events, i + 1, j);
  }
}
