/**
 Sequence numbers carry no meaning beyond their order. An archive renumbered in an order-preserving way
 gives every reply the same parent, every row the same verdict, and every viewer the same history; so
 rows that were never archived leave no trace in the numbers of the others either.
 */
module ThreadRenumbering {
  import opened Prelude
  import opened Rooms
  import opened ReplyThreading
  import opened Threads
  import opened ThreadHistory
  import opened ThreadRuns
  import opened ThreadPrivacy

  type Numbering = nat -> nat

  ghost predicate Increasing(f: Numbering) {
    forall a, b :: a < b ==> f(a) < f(b)
  }

  function NewName(id: RecordId, f: Numbering): RecordId {
    id.(pos := f(id.pos))
  }

  /** The same row under its new number; a result follows the intent it answers. */
  function Moved(r: Row, f: Numbering): (m: Row)
    ensures m.IsItem() == r.IsItem() && (r.IsItem() ==> m.KeyOf() == r.KeyOf())
  {
    if r.IsItem() then r.At(f(r.pos))
    else if r.Intent? then Intent(r.room, f(r.pos), r.subject, r.recipient)
    else Result(r.room, f(r.pos), NewName(r.intent, f), r.subject, r.recipient, r.status, r.wire, r.metadataWire)
  }

  function MovedAll(rows: seq<Row>, f: Numbering): (m: seq<Row>)
    ensures |m| == |rows| && forall i :: 0 <= i < |m| ==> m[i] == Moved(rows[i], f)
  {
    seq(|rows|, i requires 0 <= i < |rows| => Moved(rows[i], f))
  }

  lemma MovedIn(rows: seq<Row>, f: Numbering, r: Row)
    requires r in rows
    ensures Moved(r, f) in MovedAll(rows, f)
  {
    var i :| 0 <= i < |rows| && rows[i] == r;
    assert MovedAll(rows, f)[i] == Moved(r, f);
  }

  lemma MovedFrom(rows: seq<Row>, f: Numbering, m: Row) returns (r: Row)
    requires m in MovedAll(rows, f)
    ensures r in rows && m == Moved(r, f)
  {
    var i :| 0 <= i < |rows| && MovedAll(rows, f)[i] == m;
    r := rows[i];
  }

  lemma {:induction false} FilterMoved(rows: seq<Row>, f: Numbering, p: Row -> bool, q: Row -> bool)
    requires forall i :: 0 <= i < |rows| ==> q(Moved(rows[i], f)) == p(rows[i])
    ensures Filter(MovedAll(rows, f), q) == MovedAll(Filter(rows, p), f)
  {
    if rows != [] {
      var init, last := rows[..|rows| - 1], rows[|rows| - 1];
      FilterMoved(init, f, p, q);
      MovedAppend(rows, f);
      if p(last) { MovedAppend(Filter(init, p) + [last], f); }
    }
  }

  lemma MovedAppend(rows: seq<Row>, f: Numbering)
    requires rows != []
    ensures MovedAll(rows, f) == MovedAll(rows[..|rows| - 1], f) + [Moved(rows[|rows| - 1], f)]
    ensures MovedAll(rows, f)[..|rows| - 1] == MovedAll(rows[..|rows| - 1], f)
  {
  }

  lemma IntentsMoved(rows: seq<Row>, f: Numbering, room: RoomId, id: RecordId)
    requires Increasing(f)
    ensures IntentsNamed(MovedAll(rows, f), room, NewName(id, f)) == MovedAll(IntentsNamed(rows, room, id), f)
  {
    var p := (x: Row) => x.room == room && x.Intent? && x.Name() == id;
    var q := (x: Row) => x.room == room && x.Intent? && x.Name() == NewName(id, f);
    forall i | 0 <= i < |rows| ensures q(Moved(rows[i], f)) == p(rows[i]) { SameNumber(f, rows[i].pos, id.pos); }
    FilterMoved(rows, f, p, q);
  }

  lemma SameNumber(f: Numbering, a: nat, b: nat)
    requires Increasing(f)
    ensures f(a) == f(b) <==> a == b
    ensures f(a) < f(b) <==> a < b
  {
  }

  lemma CopyMoved(rows: seq<Row>, f: Numbering, room: RoomId, result: Row, parent: Row, cid: Cid)
    requires Increasing(f)
    ensures IsCopy(MovedAll(rows, f), room, Moved(result, f), Moved(parent, f), cid) == IsCopy(rows, room, result, parent, cid)
  {
    if result.Result? && parent.IsItem() {
      IntentsMoved(rows, f, room, result.intent);
      var intents := IntentsNamed(rows, room, result.intent);
      if |intents| == 1 {
        SameNumber(f, parent.pos, intents[0].pos);
        SameNumber(f, intents[0].pos, result.pos);
      }
    }
  }

  lemma OwnsMoved(rows: seq<Row>, f: Numbering, room: RoomId, item: Row, wire: Wire, cid: Cid)
    requires Increasing(f)
    ensures Owns(MovedAll(rows, f), room, Moved(item, f), wire, cid) == Owns(rows, room, item, wire, cid)
  {
    if item.IsItem() { WireMoved(rows, f, room, item, wire, cid); }
  }

  ghost predicate CarriesWire(rows: seq<Row>, room: RoomId, r: Row, item: Row, wire: Wire, cid: Cid) {
    item.IsItem() && IsCopy(rows, room, r, item, cid) && wire in Wires(r, item)
  }

  lemma OneWireMoved(rows: seq<Row>, f: Numbering, room: RoomId, r: Row, item: Row, wire: Wire, cid: Cid)
    requires Increasing(f)
    ensures CarriesWire(MovedAll(rows, f), room, Moved(r, f), Moved(item, f), wire, cid) == CarriesWire(rows, room, r, item, wire, cid)
  {
    CopyMoved(rows, f, room, r, item, cid);
  }

  lemma WireMoved(rows: seq<Row>, f: Numbering, room: RoomId, item: Row, wire: Wire, cid: Cid)
    requires Increasing(f) && item.IsItem()
    ensures var moved, it := MovedAll(rows, f), Moved(item, f);
      (exists m :: m in moved && CarriesWire(moved, room, m, it, wire, cid))
      <==> (exists r :: r in rows && CarriesWire(rows, room, r, item, wire, cid))
  {
    var moved, it := MovedAll(rows, f), Moved(item, f);
    if r :| r in rows && CarriesWire(rows, room, r, item, wire, cid) {
      OneWireMoved(rows, f, room, r, item, wire, cid);
      MovedIn(rows, f, r);
    }
    if m :| m in moved && CarriesWire(moved, room, m, it, wire, cid) {
      var r := MovedFrom(rows, f, m);
      OneWireMoved(rows, f, room, r, item, wire, cid);
    }
  }

  lemma OwnersMoved(rows: seq<Row>, f: Numbering, room: RoomId, wire: Wire, cid: Cid)
    requires Increasing(f)
    ensures OwnersFor(MovedAll(rows, f), room, wire, cid) == MovedAll(OwnersFor(rows, room, wire, cid), f)
  {
    var moved := MovedAll(rows, f);
    forall i | 0 <= i < |rows| ensures Owns(moved, room, Moved(rows[i], f), wire, cid) == Owns(rows, room, rows[i], wire, cid) {
      OwnsMoved(rows, f, room, rows[i], wire, cid);
    }
    FilterMoved(rows, f, (x: Row) => Owns(rows, room, x, wire, cid), (x: Row) => Owns(moved, room, x, wire, cid));
  }

  lemma KeyedMoved(rows: seq<Row>, f: Numbering, room: RoomId, key: Key)
    ensures ItemsKeyed(MovedAll(rows, f), room, key) == MovedAll(ItemsKeyed(rows, room, key), f)
  {
    var p := (x: Row) => x.room == room && x.IsItem() && x.KeyOf() == key;
    FilterMoved(rows, f, p, p);
  }

  function MovedParent(p: ParentResolution, f: Numbering): ParentResolution {
    if p.Resolved? then Resolved(p.key, Moved(p.item, f)) else p
  }

  /** A reply resolves to the same parent, wherever the rows stand. */
  lemma ParentMoved(rows: seq<Row>, f: Numbering, room: RoomId, sender: Cid, wire: Option<Wire>, before: nat)
    requires Increasing(f)
    ensures ResolveReplyParent(MovedAll(rows, f), room, sender, wire, f(before))
      == MovedParent(ResolveReplyParent(rows, room, sender, wire, before), f)
  {
    if wire.Some? && wire.value != "" {
      OwnersMoved(rows, f, room, wire.value, sender);
      var owners := OwnersFor(rows, room, wire.value, sender);
      if |owners| == 1 {
        SameNumber(f, owners[0].pos, before);
        KeyedMoved(rows, f, room, owners[0].KeyOf());
        LoneOwnerMoved(rows, f, room, sender, wire, before, owners[0]);
      }
    }
  }

  lemma LoneOwnerMoved(rows: seq<Row>, f: Numbering, room: RoomId, sender: Cid, wire: Option<Wire>, before: nat, owner: Row)
    requires wire.Some? && wire.value != "" && owner.IsItem() && OwnersFor(rows, room, wire.value, sender) == [owner]
    requires OwnersFor(MovedAll(rows, f), room, wire.value, sender) == [Moved(owner, f)]
    requires |ItemsKeyed(MovedAll(rows, f), room, owner.KeyOf())| == |ItemsKeyed(rows, room, owner.KeyOf())|
    requires f(owner.pos) < f(before) <==> owner.pos < before
    ensures ResolveReplyParent(MovedAll(rows, f), room, sender, wire, f(before))
      == MovedParent(ResolveReplyParent(rows, room, sender, wire, before), f)
  {
    MovedItem(owner, f);
    LoneOwnerResolves(rows, room, sender, wire, before, owner);
    LoneOwnerResolves(MovedAll(rows, f), room, sender, wire, f(before), Moved(owner, f));
  }

  lemma MovedItem(item: Row, f: Numbering)
    requires item.IsItem()
    ensures Moved(item, f).IsItem() && Moved(item, f).KeyOf() == item.KeyOf() && Moved(item, f).pos == f(item.pos)
  {
  }

  lemma LoneOwnerResolves(rows: seq<Row>, room: RoomId, sender: Cid, wire: Option<Wire>, before: nat, owner: Row)
    requires wire.Some? && wire.value != "" && owner.IsItem() && OwnersFor(rows, room, wire.value, sender) == [owner]
    ensures ResolveReplyParent(rows, room, sender, wire, before) ==
      if owner.pos >= before then UnknownParent
      else if |ItemsKeyed(rows, room, owner.KeyOf())| != 1 then AmbiguousParent
      else Resolved(owner.KeyOf(), owner)
  {
  }

  function MovedChain(chain: seq<Link>, f: Numbering): (m: seq<Link>)
    ensures |m| == |chain| && forall i :: 0 <= i < |m| ==> m[i] == Link(Moved(chain[i].item, f), MovedParent(chain[i].resolved, f))
  {
    seq(|chain|, i requires 0 <= i < |chain| => Link(Moved(chain[i].item, f), MovedParent(chain[i].resolved, f)))
  }

  lemma LoneLink(link: Link, f: Numbering)
    ensures MovedChain([link], f) == [Link(Moved(link.item, f), MovedParent(link.resolved, f))]
  {
  }

  lemma ChainLonger(link: Link, older: seq<Link>, f: Numbering)
    ensures MovedChain([link] + older, f) == MovedChain([link], f) + MovedChain(older, f)
  {
  }

  function MovedWalk(walk: Try<seq<Link>>, f: Numbering): Try<seq<Link>> {
    if walk.Ok? then Ok(MovedChain(walk.value, f)) else walk
  }

  lemma WalkLonger(link: Link, walk: Try<seq<Link>>, f: Numbering)
    ensures MovedWalk(Prepended([link], walk), f)
      == Prepended([Link(Moved(link.item, f), MovedParent(link.resolved, f))], MovedWalk(walk, f))
  {
    if walk.Ok? {
      ChainLonger(link, walk.value, f);
      LoneLink(link, f);
    }
  }

  predicate Stuck(rows: seq<Row>, view: RoomView, item: Row, seen: set<Key>, depth: nat)
    requires item.IsItem()
  {
    item.room != view.id || item.KeyOf() in seen || depth > |rows|
  }

  /** The walk in the moved archive, one row at a time. */
  ghost predicate WalkMoved(rows: seq<Row>, moved: seq<Row>, f: Numbering, view: RoomView, item: Row, seen: set<Key>, depth: nat)
    requires item.IsItem()
  {
    Ancestry(moved, view, Moved(item, f), seen, depth) == MovedWalk(Ancestry(rows, view, item, seen, depth), f)
  }

  lemma WalkMovedLast(rows: seq<Row>, moved: seq<Row>, f: Numbering, view: RoomView, item: Row, seen: set<Key>, depth: nat)
    requires item.IsItem() && |moved| == |rows| && Parent(moved, view, Moved(item, f)) == MovedParent(Parent(rows, view, item), f)
    requires Stuck(rows, view, item, seen, depth) || !Parent(rows, view, item).Resolved?
    ensures WalkMoved(rows, moved, f, view, item, seen, depth)
  {
    LoneLink(Link(item, Parent(rows, view, item)), f);
  }

  lemma WalkMovedOn(rows: seq<Row>, moved: seq<Row>, f: Numbering, view: RoomView, item: Row, seen: set<Key>, depth: nat)
    requires item.IsItem() && |moved| == |rows| && Parent(moved, view, Moved(item, f)) == MovedParent(Parent(rows, view, item), f)
    requires !Stuck(rows, view, item, seen, depth) && Parent(rows, view, item).Resolved?
    requires WalkMoved(rows, moved, f, view, Parent(rows, view, item).item, seen + {item.KeyOf()}, depth + 1)
    ensures WalkMoved(rows, moved, f, view, item, seen, depth)
  {
    var parent := Parent(rows, view, item);
    AncestryUnfolds(rows, view, item, seen, depth);
    AncestryUnfolds(moved, view, Moved(item, f), seen, depth);
    WalkLonger(Link(item, parent), Ancestry(rows, view, parent.item, seen + {item.KeyOf()}, depth + 1), f);
  }

  lemma {:induction false} AncestryMoved(rows: seq<Row>, f: Numbering, view: RoomView, item: Row, seen: set<Key>, depth: nat)
    requires Increasing(f) && item.IsItem()
    ensures WalkMoved(rows, MovedAll(rows, f), f, view, item, seen, depth)
    decreases item.pos
  {
    var parent := Parent(rows, view, item);
    ParentMoved(rows, f, view.id, item.author.identity, ReplyWire(item), item.pos);
    if Stuck(rows, view, item, seen, depth) || !parent.Resolved? {
      WalkMovedLast(rows, MovedAll(rows, f), f, view, item, seen, depth);
    } else {
      AncestryMoved(rows, f, view, parent.item, seen + {item.KeyOf()}, depth + 1);
      WalkMovedOn(rows, MovedAll(rows, f), f, view, item, seen, depth);
    }
  }

  function MovedVerdict(v: Try<Association>, f: Numbering): Try<Association> {
    if v.Ok? && v.value.Scoped? then Ok(Scoped(Moved(v.value.root, f), v.value.scope)) else v
  }

  lemma RootMoved(rows: seq<Row>, f: Numbering, view: RoomView, id: Ulid)
    ensures FindThreadRoot(MovedAll(rows, f), view, id)
      == (var found := FindThreadRoot(rows, view, id); if found.Ok? then Ok(Moved(found.value, f)) else found)
  {
    var p := (x: Row) => RootCandidate(x, view, id);
    FilterMoved(rows, f, p, p);
  }

  lemma CountMoved(rows: seq<Row>, f: Numbering, view: RoomView, id: Ulid)
    ensures CountMessages(MovedAll(rows, f), view, id) == CountMessages(rows, view, id)
  {
    var p := (x: Row) => x.room == view.id && x.Message? && x.id == id;
    FilterMoved(rows, f, p, p);
  }

  /** What the check of one link looks at besides the link itself. */
  lemma AdvanceMoved(rows: seq<Row>, f: Numbering, view: RoomView, link: Link, older: Association)
    requires Increasing(f) && link.item.IsItem()
    ensures Advance(MovedAll(rows, f), view, Link(Moved(link.item, f), MovedParent(link.resolved, f)), MovedVerdict(Ok(older), f).value)
      == MovedVerdict(Advance(rows, view, link, older), f)
  {
    if link.item.Message? && link.item.scope.Some? {
      var id := link.item.scope.value.threadId;
      CountMoved(rows, f, view, link.item.id);
      RootMoved(rows, f, view, id);
      AdvanceAgrees(rows, MovedAll(rows, f), f, view, link, older);
    }
  }

  lemma AdvanceAgrees(rows: seq<Row>, moved: seq<Row>, f: Numbering, view: RoomView, link: Link, older: Association)
    requires Increasing(f) && link.item.Message? && link.item.scope.Some?
    requires CountMessages(moved, view, link.item.id) == CountMessages(rows, view, link.item.id)
    requires var found, id := FindThreadRoot(rows, view, link.item.scope.value.threadId), link.item.scope.value.threadId;
      FindThreadRoot(moved, view, id) == if found.Ok? then Ok(Moved(found.value, f)) else found
    ensures Advance(moved, view, Link(Moved(link.item, f), MovedParent(link.resolved, f)), MovedVerdict(Ok(older), f).value)
      == MovedVerdict(Advance(rows, view, link, older), f)
  {
    var root := FindThreadRoot(rows, view, link.item.scope.value.threadId);
    if root.Ok? { SameNumber(f, root.value.pos, link.item.pos); }
  }

  lemma {:induction false} AssociateMoved(rows: seq<Row>, f: Numbering, view: RoomView, chain: seq<Link>)
    requires Increasing(f) && forall l :: l in chain ==> l.item.IsItem()
    ensures forall l :: l in MovedChain(chain, f) ==> l.item.IsItem()
    ensures Associate(MovedAll(rows, f), view, MovedChain(chain, f)) == MovedVerdict(Associate(rows, view, chain), f)
  {
    if chain != [] {
      assert chain[0] in chain && forall l :: l in chain[1..] ==> l in chain;
      AssociateMoved(rows, f, view, chain[1..]);
      assert MovedChain(chain, f)[1..] == MovedChain(chain[1..], f);
      var older := Associate(rows, view, chain[1..]);
      if older.Ok? { AdvanceMoved(rows, f, view, chain[0], older.value); }
    }
  }

  /** Every row keeps its verdict. */
  lemma VerdictMoved(rows: seq<Row>, f: Numbering, view: RoomView, item: Row)
    requires Increasing(f) && item.IsItem()
    ensures Classify(MovedAll(rows, f), view, Moved(item, f)) == MovedVerdict(Classify(rows, view, item), f)
  {
    AncestryMoved(rows, f, view, item, {}, 0);
    var walk := Ancestry(rows, view, item, {}, 0);
    if walk.Ok? { AssociateMoved(rows, f, view, walk.value); }
  }

  lemma ProjectionMoved(room: Room, rows: seq<Row>, f: Numbering, viewer: Cid, r: Row)
    requires Increasing(f)
    ensures ProjectOne(room, MovedAll(rows, f), viewer, Moved(r, f)) == ProjectOne(room, rows, viewer, r)
  {
    if r.Message? { VerdictMoved(rows, f, View(room), r); }
  }

  lemma {:induction false} VisibleMoved(room: Room, rows: seq<Row>, f: Numbering, viewer: Cid, records: seq<Row>)
    requires Increasing(f)
    ensures Visible(room, MovedAll(rows, f), viewer, MovedAll(records, f)) == Visible(room, rows, viewer, records)
  {
    if records != [] {
      var init := records[..|records| - 1];
      VisibleMoved(room, rows, f, viewer, init);
      assert MovedAll(records, f)[..|records| - 1] == MovedAll(init, f);
      ProjectionMoved(room, rows, f, viewer, records[|records| - 1]);
    }
  }

  /** No page of anybody's history depends on the numbers, for any archive, even a corrupt one. */
  lemma HistoryMoved(room: Room, rows: seq<Row>, f: Numbering, viewer: Cid, after: nat, limit: nat, cost: HistoryRow -> nat)
    requires Increasing(f)
    ensures HistoryPage(room, MovedAll(rows, f), viewer, after, limit, cost) == HistoryPage(room, rows, viewer, after, limit, cost)
  {
    VisibleMoved(room, rows, f, viewer, rows);
  }

  /**
   Noninterference in full. If what two rooms hold outside the hidden threads is one archive, renumbered
   in each by the sequence numbers its own hidden rows used up, an outsider reads the same history in
   both: nothing tells whether those threads ever existed, or when.
   */
  lemma HiddenThreadsLeaveNoTrace(a: seq<World>, b: seq<World>, aEvents: seq<Event>, bEvents: seq<Event>, i: nat, j: nat,
                                  shared: seq<Row>, f: Numbering, g: Numbering,
                                  hidden: set<Ulid>, viewer: Cid, after: nat, limit: nat, cost: HistoryRow -> nat)
    requires Run(a, aEvents) && i < |a| && Run(b, bEvents) && j < |b| && a[i].room == b[j].room && Increasing(f) && Increasing(g)
    requires Outside(a[i].room, a[i].rows, hidden, viewer) && Outside(b[j].room, b[j].rows, hidden, viewer)
    requires Without(a[i].rows, hidden) == MovedAll(shared, f) && Without(b[j].rows, hidden) == MovedAll(shared, g)
    ensures HistoryPage(a[i].room, a[i].rows, viewer, after, limit, cost) == HistoryPage(b[j].room, b[j].rows, viewer, after, limit, cost)
  {
    OutsiderSeesNothing(a, aEvents, i, hidden, viewer, after, limit, cost);
    OutsiderSeesNothing(b, bEvents, j, hidden, viewer, after, limit, cost);
    HistoryMoved(a[i].room, shared, f, viewer, after, limit, cost);
    HistoryMoved(a[i].room, shared, g, viewer, after, limit, cost);
  }
}
