/**
 What wires mean over whole runs. A participant knows an archived item by the wire it sent it under, or
 by the wires of the copies queued to it; no wire of one participant ever names two items. References
 and reply targets are exactly that knowledge, spelled out in the fields of the archived rows.
 */
module WireNames {
  import opened Prelude
  import opened Rooms
  import opened ReplyThreading
  import opened Threads
  import opened ThreadRouting
  import opened ThreadRuns

  /** The relay recorded that it queued a copy of `x` to `c`. */
  predicate Copied(r: Row, x: Row, c: Cid)
    requires x.IsItem()
  {
    r.Result? && r.status == Queued && r.subject == x.KeyOf() && r.recipient == c && c in x.recipients
  }

  predicate CopyCarries(r: Row, x: Row, w: Wire)
    requires r.Result?
  {
    w != "" && (r.wire == Some(w) || (x.File? && r.metadataWire == Some(w)))
  }

  /** `c` sent `x` as `w`, or got it as `w`. */
  predicate Knows(rows: seq<Row>, x: Row, c: Cid, w: Wire)
    requires x.IsItem()
  {
    || (w != "" && x.author.identity == c && x.sourceWire == Some(w))
    || exists r :: r in rows && Copied(r, x, c) && CopyCarries(r, x, w)
  }

  /** Every result answers an archived intent. */
  ghost predicate Backed(rows: seq<Row>, r: Row) {
    r.Result? ==> exists intent :: intent in rows && IsAnswer(r, intent)
  }

  predicate IsAnswer(r: Row, intent: Row) {
    && r.Result? && intent.Intent? && intent.Name() == r.intent && intent.subject == r.subject
    && intent.recipient == r.recipient && intent.pos < r.pos
  }

  ghost predicate AllBacked(rows: seq<Row>) {
    forall r :: r in rows ==> Backed(rows, r)
  }

  /** Intents and results come after the item they are about. */
  ghost predicate ItemsFirst(rows: seq<Row>) {
    forall x, r :: x in rows && r in rows && x.IsItem() && (r.Intent? || r.Result?) && r.subject == x.KeyOf() ==> x.pos < r.pos
  }

  ghost predicate OneItemPerWire(rows: seq<Row>) {
    forall x, y, c, w :: x in rows && y in rows && x.IsItem() && y.IsItem() && Knows(rows, x, c, w) && Knows(rows, y, c, w) ==> x == y
  }

  ghost predicate NamesInv(rows: seq<Row>) {
    AllBacked(rows) && ItemsFirst(rows) && OneItemPerWire(rows)
  }

  // ----- Every step keeps it -----------------------------------------------------------------------------

  lemma KnownIsMentioned(rows: seq<Row>, x: Row, c: Cid, w: Wire)
    requires x in rows && x.IsItem() && Knows(rows, x, c, w)
    ensures exists y :: y in rows && MentionsWire(y, c, w)
  {
    if x.author.identity == c && x.sourceWire == Some(w) {
      assert MentionsWire(x, c, w);
    } else {
      var r :| r in rows && Copied(r, x, c) && CopyCarries(r, x, w);
      assert MentionsWire(r, c, w);
    }
  }

  /** Only a result about `x` teaches anybody a new wire of `x`. */
  lemma LearnedFrom(rows: seq<Row>, r: Row, x: Row, c: Cid, w: Wire)
    requires x.IsItem() && Knows(rows + [r], x, c, w)
    ensures Knows(rows, x, c, w) || (r.Result? && Copied(r, x, c) && CopyCarries(r, x, w))
  {
    if !(w != "" && x.author.identity == c && x.sourceWire == Some(w)) {
      var y :| y in rows + [r] && Copied(y, x, c) && CopyCarries(y, x, w);
      assert y in rows || y == r;
    }
  }

  lemma NewItemKnowsItsSender(rows: seq<Row>, r: Row, c: Cid, w: Wire)
    requires r.IsItem() && NewNames(rows, r) && Knows(rows + [r], r, c, w)
    ensures r.author.identity == c && r.sourceWire == Some(w)
  {
    forall y | y in rows + [r] && y.Result? ensures y.subject != r.KeyOf() {
      assert y in rows;
      assert !MentionsKey(y, r.KeyOf());
    }
  }

  lemma NewWireIsUnknown(rows: seq<Row>, r: Row, x: Row, c: Cid, w: Wire)
    requires NewNames(rows, r) && x in rows && x.IsItem()
    requires (r.IsItem() && r.author.identity == c && r.sourceWire == Some(w))
      || (r.Result? && r.recipient == c && (r.wire == Some(w) || r.metadataWire == Some(w)))
    ensures !Knows(rows, x, c, w)
  {
    forall y | y in rows ensures !MentionsWire(y, c, w) { }
    if Knows(rows, x, c, w) { KnownIsMentioned(rows, x, c, w); }
  }

  lemma AppendKeepsOneItem(rows: seq<Row>, r: Row)
    requires UniqueKeys(rows) && OneItemPerWire(rows) && NewNames(rows, r)
    ensures OneItemPerWire(rows + [r])
  {
    forall x, y, c, w | x in rows + [r] && y in rows + [r] && x.IsItem() && y.IsItem() && Knows(rows + [r], x, c, w) && Knows(rows + [r], y, c, w)
      ensures x == y
    {
      OneItemAfter(rows, r, x, y, c, w);
    }
  }

  lemma OneItemAfter(rows: seq<Row>, r: Row, x: Row, y: Row, c: Cid, w: Wire)
    requires UniqueKeys(rows) && OneItemPerWire(rows) && NewNames(rows, r)
    requires x in rows + [r] && y in rows + [r] && x.IsItem() && y.IsItem() && Knows(rows + [r], x, c, w) && Knows(rows + [r], y, c, w)
    ensures x == y
  {
    if x == r && y != r {
      NewItemKnowsItsSender(rows, r, c, w);
      LearnedFrom(rows, r, y, c, w);
      NewWireIsUnknown(rows, r, y, c, w);
    } else if y == r && x != r {
      NewItemKnowsItsSender(rows, r, c, w);
      LearnedFrom(rows, r, x, c, w);
      NewWireIsUnknown(rows, r, x, c, w);
    } else if x != r {
      LearnedFrom(rows, r, x, c, w);
      LearnedFrom(rows, r, y, c, w);
      if r.Result? && (r.wire == Some(w) || r.metadataWire == Some(w)) && r.recipient == c {
        NewWireIsUnknown(rows, r, x, c, w);
        NewWireIsUnknown(rows, r, y, c, w);
      }
    }
  }

  lemma AppendKeepsItemsFirst(rows: seq<Row>, next: nat, r: Row)
    requires Ordered(rows, next) && ItemsFirst(rows) && NewNames(rows, r) && r.pos == next
    ensures ItemsFirst(rows + [r])
  {
    forall x, y | x in rows + [r] && y in rows + [r] && x.IsItem() && (y.Intent? || y.Result?) && y.subject == x.KeyOf() ensures x.pos < y.pos {
      if x == r {
        assert y in rows && MentionsKey(y, r.KeyOf());
      } else if y == r {
        assert x in rows;
      }
    }
  }

  lemma StillBacked(rows: seq<Row>, r: Row)
    requires AllBacked(rows) && Backed(rows, r)
    ensures AllBacked(rows + [r])
  {
    forall x | x in rows + [r] ensures Backed(rows + [r], x) {
      if x.Result? {
        assert Backed(rows, x);
        var intent :| intent in rows && IsAnswer(x, intent);
        assert intent in rows + [r];
      }
    }
  }

  lemma StepAppendsBacked(w: World, w': World, e: Event)
    requires Inv(w) && Step(w, w', e)
    ensures w'.rows == w.rows || exists r :: w'.rows == w.rows + [r] && r.pos == w.next && NewNames(w.rows, r) && Backed(w.rows, r)
  {
    StepShape(w, w', e);
    if w'.rows != w.rows {
      var r :| w'.rows == w.rows + [r] && r.pos == w.next && NewNames(w.rows, r);
      assert r == w'.rows[|w.rows|];
      match e
      case RelayOne(intent, outcome) => RelayAnswers(w, w', intent, outcome);
      case Intake(item, id) => assert r.IsItem();
      case Start(_, _, _, _, _, _, _) => assert r.IsItem();
      case Post(row) => assert r == row;
      case RecordIntent(subject, recipient) => assert r.Intent?;
      case _ =>
    }
  }

  lemma RelayAnswers(w: World, w': World, intent: Row, outcome: Outcome)
    requires Ordered(w.rows, w.next) && intent in w.rows && intent.Intent? && intent.room == w.room.id
    requires Relays(w, w', intent, outcome) && w'.rows != w.rows
    ensures |w'.rows| == |w.rows| + 1 && IsAnswer(w'.rows[|w.rows|], intent)
  {
  }

  lemma StepKeepsNames(w: World, w': World, e: Event)
    requires Inv(w) && NamesInv(w.rows) && Step(w, w', e)
    ensures NamesInv(w'.rows)
  {
    StepAppendsBacked(w, w', e);
    if w'.rows != w.rows {
      var r :| w'.rows == w.rows + [r] && r.pos == w.next && NewNames(w.rows, r) && Backed(w.rows, r);
      StillBacked(w.rows, r);
      AppendKeepsItemsFirst(w.rows, w.next, r);
      AppendKeepsOneItem(w.rows, r);
    }
  }

  lemma {:induction false} RunKeepsNames(worlds: seq<World>, events: seq<Event>, i: nat)
    requires Run(worlds, events) && i < |worlds|
    ensures NamesInv(worlds[i].rows) && Inv(worlds[i])
    decreases i
  {
    RunKeepsInv(worlds, events, i);
    if i == 0 {
      NothingIsNamed(worlds[0].rows);
    } else {
      RunKeepsNames(worlds, events, i - 1);
      NextKeepsNames(worlds, events, i - 1);
    }
  }

  lemma NothingIsNamed(rows: seq<Row>)
    requires rows == []
    ensures NamesInv(rows)
  {
  }

  lemma NextKeepsNames(worlds: seq<World>, events: seq<Event>, i: nat)
    requires Run(worlds, events) && i < |events| && Inv(worlds[i]) && NamesInv(worlds[i].rows)
    ensures NamesInv(worlds[i + 1].rows)
  {
    StepKeepsNames(worlds[i], worlds[i + 1], events[i]);
  }

  // ----- What resolution and linking make of it ------------------------------------------------------------

  ghost predicate GoodArchive(rows: seq<Row>, room: RoomId, next: nat) {
    Ordered(rows, next) && UniqueKeys(rows) && RowsValid(rows, room) && NamesInv(rows)
  }

  lemma SameNameSameRow(rows: seq<Row>, next: nat, x: Row, y: Row)
    requires Ordered(rows, next) && x in rows && y in rows && x.Name() == y.Name()
    ensures x == y
  {
    var i :| 0 <= i < |rows| && rows[i] == x;
    var j :| 0 <= j < |rows| && rows[j] == y;
    assert i == j;
  }

  lemma AllTheSame(s: seq<Row>, x: Row)
    requires Distinct(s) && x in s && forall y :: y in s ==> y == x
    ensures s == [x]
  {
    forall k | 0 <= k < |s| ensures s[k] == x { assert s[k] in s; }
    assert s[0] == x && s[|s| - 1] == x;
  }

  lemma OrderedIsDistinct(rows: seq<Row>, next: nat)
    requires Ordered(rows, next)
    ensures Distinct(rows)
  {
    forall i, j | 0 <= i < j < |rows| ensures rows[i] != rows[j] { assert rows[i].pos < rows[j].pos; }
  }

  lemma OneIntent(rows: seq<Row>, room: RoomId, next: nat, intent: Row)
    requires Ordered(rows, next) && intent in rows && intent.Intent? && intent.room == room
    ensures IntentsNamed(rows, room, intent.Name()) == [intent]
  {
    var named := IntentsNamed(rows, room, intent.Name());
    OrderedIsDistinct(rows, next);
    forall y | y in named ensures y == intent { SameNameSameRow(rows, next, y, intent); }
    AllTheSame(named, intent);
  }

  /** A copy is recorded exactly where a queued result says so. */
  lemma CopyIsQueuedResult(rows: seq<Row>, room: RoomId, next: nat, r: Row, x: Row, c: Cid)
    requires GoodArchive(rows, room, next) && r in rows && x in rows && x.IsItem()
    ensures IsCopy(rows, room, r, x, c) <==> Copied(r, x, c)
  {
    if Copied(r, x, c) {
      assert Backed(rows, r);
      var intent :| intent in rows && IsAnswer(r, intent);
      OneIntent(rows, room, next, intent);
    }
  }

  lemma OwnsIsKnows(rows: seq<Row>, room: RoomId, next: nat, x: Row, c: Cid, w: Wire)
    requires GoodArchive(rows, room, next) && x in rows && x.IsItem() && w != ""
    ensures Owns(rows, room, x, w, c) <==> Knows(rows, x, c, w)
  {
    forall r | r in rows ensures IsCopy(rows, room, r, x, c) <==> Copied(r, x, c) { CopyIsQueuedResult(rows, room, next, r, x, c); }
    forall r | r in rows && r.Result? ensures w in Wires(r, x) <==> CopyCarries(r, x, w) { }
  }

  lemma KnownHasOneOwner(rows: seq<Row>, room: RoomId, next: nat, x: Row, c: Cid, w: Wire)
    requires GoodArchive(rows, room, next) && x in rows && x.IsItem() && Knows(rows, x, c, w)
    ensures OwnersFor(rows, room, w, c) == [x]
  {
    var owners := OwnersFor(rows, room, w, c);
    OrderedIsDistinct(rows, next);
    forall y | y in owners ensures y == x { OwnsIsKnows(rows, room, next, y, c, w); }
    OwnsIsKnows(rows, room, next, x, c, w);
    AllTheSame(owners, x);
  }

  lemma KeyedOnce(rows: seq<Row>, room: RoomId, next: nat, x: Row)
    requires GoodArchive(rows, room, next) && x in rows && x.IsItem()
    ensures ItemsKeyed(rows, room, x.KeyOf()) == [x]
  {
    OrderedIsDistinct(rows, next);
    AllTheSame(ItemsKeyed(rows, room, x.KeyOf()), x);
  }

  /** A reference resolves to an item exactly when its sender knows that earlier item by the wire it names. */
  lemma ResolvesIffKnown(rows: seq<Row>, room: RoomId, next: nat, x: Row, c: Cid, w: Wire, before: nat)
    requires GoodArchive(rows, room, next) && x in rows && x.IsItem()
    ensures ResolveReplyParent(rows, room, c, Some(w), before) == Resolved(x.KeyOf(), x) <==> Knows(rows, x, c, w) && x.pos < before
  {
    if Knows(rows, x, c, w) {
      KnownHasOneOwner(rows, room, next, x, c, w);
      KeyedOnce(rows, room, next, x);
    } else if ResolveReplyParent(rows, room, c, Some(w), before) == Resolved(x.KeyOf(), x) {
      var owners := OwnersFor(rows, room, w, c);
      assert owners[0] in owners;
      OwnsIsKnows(rows, room, next, owners[0], c, w);
    }
  }

  /** The first wire of a copy: that of the item itself, else that of a file's announcement. */
  predicate FirstOfCopy(r: Row, x: Row, w: Wire)
    requires r.Result?
  {
    w != "" && (r.wire == Some(w) || (x.File? && (r.wire.None? || r.wire.value == "") && r.metadataWire == Some(w)))
  }

  /** What a recipient is told to reply to: its own original, else the first wire of its earliest copy. */
  ghost predicate Preferred(rows: seq<Row>, x: Row, c: Cid, w: Wire)
    requires x.IsItem()
  {
    if x.author.identity == c && x.sourceWire.Some? && x.sourceWire.value != "" then x.sourceWire == Some(w)
    else exists r :: r in rows && IsEarliest(rows, x, c, r) && FirstOfCopy(r, x, w)
  }

  /** No earlier copy of the item for this recipient carries a wire. */
  ghost predicate IsEarliest(rows: seq<Row>, x: Row, c: Cid, r: Row)
    requires x.IsItem()
  {
    Copied(r, x, c) && forall y, v :: y in rows && Copied(y, x, c) && CopyCarries(y, x, v) ==> r.pos <= y.pos
  }

  lemma CopiesAreResults(rows: seq<Row>, room: RoomId, next: nat, x: Row, c: Cid)
    requires GoodArchive(rows, room, next) && x in rows && x.IsItem()
    ensures forall r :: r in Copies(rows, room, x, c) <==> r in rows && Copied(r, x, c)
  {
    forall r | r in rows ensures IsCopy(rows, room, r, x, c) <==> Copied(r, x, c) { CopyIsQueuedResult(rows, room, next, r, x, c); }
  }

  /** If the recipient knows the item at all, its wire is the preferred one. */
  lemma EarliestIsPreferred(rows: seq<Row>, room: RoomId, next: nat, x: Row, c: Cid)
    requires GoodArchive(rows, room, next) && x in rows && x.IsItem()
    requires !(x.author.identity == c && x.sourceWire.Some? && x.sourceWire.value != "")
    ensures var chosen := EarliestWire(Copies(rows, room, x, c), x);
      && (chosen.Some? ==> Preferred(rows, x, c, chosen.value) && Knows(rows, x, c, chosen.value))
      && (chosen.None? ==> forall w :: !Knows(rows, x, c, w))
  {
    CopiesAreResults(rows, room, next, x, c);
    var copies := Copies(rows, room, x, c);
    EarliestOf(copies, x);
    var chosen := EarliestWire(copies, x);
    if chosen.Some? {
      var r :| r in copies && FirstOfCopy(r, x, chosen.value) && EarliestAmong(copies, x, r);
      assert IsEarliest(rows, x, c, r) && CopyCarries(r, x, chosen.value);
    }
  }

  ghost predicate EarliestAmong(copies: seq<Row>, x: Row, r: Row)
    requires forall c :: c in copies ==> c.Result?
  {
    forall y, v :: y in copies && CopyCarries(y, x, v) ==> r.pos <= y.pos
  }

  /** The chosen wire is the first of the earliest row that carries any. */
  lemma EarliestOf(copies: seq<Row>, x: Row)
    requires forall r :: r in copies ==> r.Result?
    ensures var chosen := EarliestWire(copies, x);
      && (chosen.None? ==> forall y, v :: y in copies ==> !CopyCarries(y, x, v))
      && (chosen.Some? ==> exists r :: r in copies && FirstOfCopy(r, x, chosen.value) && EarliestAmong(copies, x, r))
  {
    forall y, v | y in copies ensures CopyCarries(y, x, v) ==> Wires(y, x) != [] { }
    var best := EarliestWired(copies, x);
    if best.Some? { assert FirstOfCopy(best.value, x, Wires(best.value, x)[0]); }
  }

  /** A reply target is given exactly to the recipients that know the parent, and it is their preferred wire. */
  lemma LinksIffKnown(rows: seq<Row>, room: RoomId, next: nat, child: Row, x: Row, c: Cid)
    requires GoodArchive(rows, room, next) && child.IsItem() && x in rows && x.IsItem()
    requires ResolveReplyParent(rows, room, child.author.identity, ReplyWire(child), child.pos) == Resolved(x.KeyOf(), x)
    ensures var decision := SelectReply(rows, room, child, c);
      && (decision.Linked? <==> exists w :: Knows(rows, x, c, w))
      && (decision.Linked? ==> decision.parentKey == Some(x.KeyOf()) && Knows(rows, x, c, decision.wire) && Preferred(rows, x, c, decision.wire))
  {
    KeyedOnce(rows, room, next, x);
    RecipientWireIsPreferred(rows, room, next, x, c);
    var chosen := RecipientWire(rows, room, x, c);
    if chosen.Some? { KnownHasOneOwner(rows, room, next, x, c, chosen.value); }
    MapsTheWire(rows, room, child, x, c);
  }

  lemma RecipientWireIsPreferred(rows: seq<Row>, room: RoomId, next: nat, x: Row, c: Cid)
    requires GoodArchive(rows, room, next) && x in rows && x.IsItem()
    ensures var chosen := RecipientWire(rows, room, x, c);
      && (chosen.Some? ==> Preferred(rows, x, c, chosen.value) && Knows(rows, x, c, chosen.value))
      && (chosen.None? ==> forall w :: !Knows(rows, x, c, w))
  {
    if x.author.identity == c && x.sourceWire.Some? && x.sourceWire.value != "" {
      assert Knows(rows, x, c, x.sourceWire.value);
      KnownHasOneOwner(rows, room, next, x, c, x.sourceWire.value);
      OwnWireIsTaken(rows, room, x, c);
    } else {
      EarliestIsPreferred(rows, room, next, x, c);
      OtherwiseEarliest(rows, room, x, c);
    }
  }

  lemma OwnWireIsTaken(rows: seq<Row>, room: RoomId, x: Row, c: Cid)
    requires x.IsItem() && x.author.identity == c && x.sourceWire.Some? && x.sourceWire.value != ""
    requires OwnersFor(rows, room, x.sourceWire.value, c) == [x]
    ensures RecipientWire(rows, room, x, c) == x.sourceWire
  {
  }

  /** In a corrupt archive too: an original wire that also names something else is not used, a copy's is. */
  lemma AmbiguousOwnWireIsSkipped(rows: seq<Row>, room: RoomId, x: Row, y: Row, c: Cid)
    requires x.IsItem() && x.author.identity == c && x.sourceWire.Some? && x.sourceWire.value != ""
    requires y in rows && y != x && y.IsItem() && x in rows && Distinct(rows) && x.room == room
    requires Owns(rows, room, y, x.sourceWire.value, c)
    ensures RecipientWire(rows, room, x, c) == EarliestWire(Copies(rows, room, x, c), x)
  {
    var owners := OwnersFor(rows, room, x.sourceWire.value, c);
    assert x in owners && y in owners;
    var i :| 0 <= i < |owners| && owners[i] == x;
    var j :| 0 <= j < |owners| && owners[j] == y;
  }

  lemma OtherwiseEarliest(rows: seq<Row>, room: RoomId, x: Row, c: Cid)
    requires x.IsItem() && !(x.author.identity == c && x.sourceWire.Some? && x.sourceWire.value != "")
    ensures RecipientWire(rows, room, x, c) == EarliestWire(Copies(rows, room, x, c), x)
  {
  }

  lemma MapsTheWire(rows: seq<Row>, room: RoomId, child: Row, x: Row, c: Cid)
    requires child.IsItem() && x.IsItem() && ItemsKeyed(rows, room, x.KeyOf()) == [x] && x.room == room
    requires ResolveReplyParent(rows, room, child.author.identity, ReplyWire(child), child.pos) == Resolved(x.KeyOf(), x)
    requires var chosen := RecipientWire(rows, room, x, c);
      chosen.Some? ==> chosen.value != "" && OwnersFor(rows, room, chosen.value, c) == [x]
    ensures var decision, chosen := SelectReply(rows, room, child, c), RecipientWire(rows, room, x, c);
      if chosen.Some? then decision == Linked(Some(x.KeyOf()), chosen.value) else !decision.Linked?
  {
  }

  lemma RunArchiveIsGood(worlds: seq<World>, events: seq<Event>, i: nat)
    requires Run(worlds, events) && i < |worlds|
    ensures GoodArchive(worlds[i].rows, worlds[i].room.id, worlds[i].next)
  {
    RunKeepsNames(worlds, events, i);
  }

  /** Over every run: who replies under a wire of its own means the one item it knows by it. */
  lemma ReferencesAreExact(worlds: seq<World>, events: seq<Event>, i: nat, x: Row, c: Cid, w: Wire, before: nat)
    requires Run(worlds, events) && i < |worlds| && x in worlds[i].rows && x.IsItem()
    ensures ResolveReplyParent(worlds[i].rows, worlds[i].room.id, c, Some(w), before) == Resolved(x.KeyOf(), x) <==>
      Knows(worlds[i].rows, x, c, w) && x.pos < before
  {
    RunArchiveIsGood(worlds, events, i);
    ResolvesIffKnown(worlds[i].rows, worlds[i].room.id, worlds[i].next, x, c, w, before);
  }

  /** Over every run: a reply is linked for exactly the recipients that know its parent, by their preferred wire. */
  lemma LinksAreExact(worlds: seq<World>, events: seq<Event>, i: nat, child: Row, x: Row, c: Cid)
    requires Run(worlds, events) && i < |worlds| && child.IsItem() && x in worlds[i].rows && x.IsItem()
    requires Parent(worlds[i].rows, View(worlds[i].room), child) == Resolved(x.KeyOf(), x)
    ensures var decision := SelectReply(worlds[i].rows, worlds[i].room.id, child, c);
      && (decision.Linked? <==> exists w :: Knows(worlds[i].rows, x, c, w))
      && (decision.Linked? ==>
          && decision.parentKey == Some(x.KeyOf()) && Knows(worlds[i].rows, x, c, decision.wire)
          && Preferred(worlds[i].rows, x, c, decision.wire))
  {
    RunArchiveIsGood(worlds, events, i);
    LinksIffKnown(worlds[i].rows, worlds[i].room.id, worlds[i].next, child, x, c);
  }
}
