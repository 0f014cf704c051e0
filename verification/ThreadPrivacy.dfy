/**
 Noninterference. To a participant outside some threads, the history looks exactly as if those
 threads, with every relay record about them, had never been archived.
 */
module ThreadPrivacy {
  import opened Prelude
  import opened Rooms
  import opened ReplyThreading
  import opened Threads
  import opened ThreadAncestry
  import opened ThreadRouting
  import opened ThreadHistory
  import opened ThreadRuns

  predicate Concealed(r: Row, hidden: set<Ulid>) {
    r.Message? && r.scope.Some? && r.scope.value.threadId in hidden
  }

  /** A message of a hidden thread, or a relay record about one. */
  predicate Belongs(rows: seq<Row>, hidden: set<Ulid>, r: Row) {
    || Concealed(r, hidden)
    || ((r.Intent? || r.Result?) && exists m :: m in rows && Concealed(m, hidden) && r.subject == MessageKey(m.id))
  }

  predicate Kept(rows: seq<Row>, hidden: set<Ulid>, r: Row) {
    r in rows && !Belongs(rows, hidden, r)
  }

  function Without(rows: seq<Row>, hidden: set<Ulid>): (r: seq<Row>)
    ensures forall x :: x in r <==> Kept(rows, hidden, x)
  {
    Filter(rows, (x: Row) => !Belongs(rows, hidden, x))
  }

  /** The viewer holds no seat that any root of the hidden threads selected. */
  ghost predicate Outside(room: Room, rows: seq<Row>, hidden: set<Ulid>, viewer: Cid) {
    forall r :: r in rows && Concealed(r, hidden) && r.threadRoot.Some? ==> !ActiveThreadSeat(room, r.threadRoot.value, viewer)
  }

  /** Filtering the thinned archive is filtering the whole one, once everything selected is kept. */
  lemma {:induction false} FilterWithout(rows: seq<Row>, hidden: set<Ulid>, p: Row -> bool, q: Row -> bool)
    requires forall x :: x in rows && p(x) ==> !Belongs(rows, hidden, x)
    requires forall x :: Kept(rows, hidden, x) ==> p(x) == q(x)
    ensures Filter(Without(rows, hidden), q) == Filter(rows, p)
  {
    FilterKept(rows, (x: Row) => !Belongs(rows, hidden, x), p, q);
  }

  lemma {:induction false} FilterKept(rows: seq<Row>, keep: Row -> bool, p: Row -> bool, q: Row -> bool)
    requires forall x :: x in rows && p(x) ==> keep(x)
    requires forall x :: x in rows && keep(x) ==> p(x) == q(x)
    ensures Filter(Filter(rows, keep), q) == Filter(rows, p)
  {
    if rows != [] {
      var init, last := rows[..|rows| - 1], rows[|rows| - 1];
      assert rows == init + [last];
      FilterKept(init, keep, p, q);
      if keep(last) { assert (Filter(init, keep) + [last])[..|Filter(init, keep)|] == Filter(init, keep); }
    }
  }

  lemma SameNameSameRow(rows: seq<Row>, next: nat, x: Row, y: Row)
    requires Ordered(rows, next) && x in rows && y in rows && x.Name() == y.Name()
    ensures x == y
  {
    var i :| 0 <= i < |rows| && rows[i] == x;
    var j :| 0 <= j < |rows| && rows[j] == y;
    assert i == j;
  }

  lemma AboutKeptItem(rows: seq<Row>, hidden: set<Ulid>, item: Row, r: Row)
    requires UniqueKeys(rows) && item.IsItem() && Kept(rows, hidden, item)
    requires r in rows && (r.Intent? || r.Result?) && r.subject == item.KeyOf()
    ensures Kept(rows, hidden, r)
  {
    forall m | m in rows && Concealed(m, hidden) ensures r.subject != MessageKey(m.id) {
      assert m.IsItem() && m.KeyOf() == MessageKey(m.id);
    }
  }

  lemma IntentsWithout(rows: seq<Row>, hidden: set<Ulid>, view: RoomView, next: nat, id: RecordId, x: Row)
    requires ArchiveInv(rows, view, next) && Kept(rows, hidden, x)
    requires x.room == view.id && x.Intent? && x.Name() == id
    ensures IntentsNamed(Without(rows, hidden), view.id, id) == IntentsNamed(rows, view.id, id)
  {
    var p := (y: Row) => y.room == view.id && y.Intent? && y.Name() == id;
    forall y | y in rows && p(y) ensures !Belongs(rows, hidden, y) {
      SameNameSameRow(rows, next, x, y);
    }
    FilterWithout(rows, hidden, p, p);
  }

  lemma CopyWithout(rows: seq<Row>, hidden: set<Ulid>, view: RoomView, next: nat, result: Row, item: Row, cid: Cid)
    requires ArchiveInv(rows, view, next) && item.IsItem() && Kept(rows, hidden, item)
    ensures IsCopy(Without(rows, hidden), view.id, result, item, cid) == IsCopy(rows, view.id, result, item, cid)
  {
    var thin := Without(rows, hidden);
    if IsCopy(rows, view.id, result, item, cid) {
      var intents := IntentsNamed(rows, view.id, result.intent);
      assert intents[0] in intents;
      AboutKeptItem(rows, hidden, item, intents[0]);
      IntentsWithout(rows, hidden, view, next, result.intent, intents[0]);
    } else if IsCopy(thin, view.id, result, item, cid) {
      var intents := IntentsNamed(thin, view.id, result.intent);
      assert intents[0] in intents;
      IntentsWithout(rows, hidden, view, next, result.intent, intents[0]);
    }
  }

  lemma OwnsWithout(rows: seq<Row>, hidden: set<Ulid>, view: RoomView, next: nat, item: Row, wire: Wire, cid: Cid)
    requires ArchiveInv(rows, view, next) && Kept(rows, hidden, item)
    ensures Owns(Without(rows, hidden), view.id, item, wire, cid) == Owns(rows, view.id, item, wire, cid)
  {
    if item.IsItem() {
      forall r | r in rows ensures IsCopy(Without(rows, hidden), view.id, r, item, cid) == IsCopy(rows, view.id, r, item, cid)
        ensures IsCopy(rows, view.id, r, item, cid) ==> r in Without(rows, hidden)
      {
        CopyWithout(rows, hidden, view, next, r, item, cid);
        if IsCopy(rows, view.id, r, item, cid) { AboutKeptItem(rows, hidden, item, r); }
      }
    }
  }

  lemma OwnersWithout(rows: seq<Row>, hidden: set<Ulid>, view: RoomView, next: nat, wire: Wire, cid: Cid)
    requires ArchiveInv(rows, view, next)
    requires forall x :: x in OwnersFor(rows, view.id, wire, cid) ==> Kept(rows, hidden, x)
    ensures OwnersFor(Without(rows, hidden), view.id, wire, cid) == OwnersFor(rows, view.id, wire, cid)
  {
    var thin := Without(rows, hidden);
    forall x | Kept(rows, hidden, x) ensures Owns(thin, view.id, x, wire, cid) == Owns(rows, view.id, x, wire, cid) {
      OwnsWithout(rows, hidden, view, next, x, wire, cid);
    }
    forall x | x in rows && Owns(rows, view.id, x, wire, cid) ensures !Belongs(rows, hidden, x) {
      assert x in OwnersFor(rows, view.id, wire, cid);
    }
    FilterWithout(rows, hidden, (x: Row) => Owns(rows, view.id, x, wire, cid), (x: Row) => Owns(thin, view.id, x, wire, cid));
  }

  lemma KeyedWithout(rows: seq<Row>, hidden: set<Ulid>, view: RoomView, item: Row)
    requires UniqueKeys(rows) && item.IsItem() && Kept(rows, hidden, item)
    ensures ItemsKeyed(Without(rows, hidden), view.id, item.KeyOf()) == ItemsKeyed(rows, view.id, item.KeyOf())
  {
    var p := (x: Row) => x.room == view.id && x.IsItem() && x.KeyOf() == item.KeyOf();
    FilterWithout(rows, hidden, p, p);
  }

  /** A reference that resolved to a kept parent resolves to it in the thinned archive too. */
  lemma ParentWithout(rows: seq<Row>, hidden: set<Ulid>, view: RoomView, next: nat, item: Row)
    requires ArchiveInv(rows, view, next) && item.IsItem()
    requires var parent := Parent(rows, view, item);
      parent.NoReply? || (parent.Resolved? && Kept(rows, hidden, parent.item))
    ensures Parent(Without(rows, hidden), view, item) == Parent(rows, view, item)
  {
    var parent := Parent(rows, view, item);
    if parent.Resolved? {
      var owners := OwnersFor(rows, view.id, ReplyWire(item).value, item.author.identity);
      assert owners == [parent.item];
      OwnersWithout(rows, hidden, view, next, ReplyWire(item).value, item.author.identity);
      KeyedWithout(rows, hidden, view, parent.item);
    }
  }

  /** The whole native ancestry of a kept row is kept: a reply chain never leaves its thread. */
  lemma {:induction false} KeptChain(rows: seq<Row>, hidden: set<Ulid>, view: RoomView, next: nat, item: Row)
    requires ArchiveInv(rows, view, next) && item.IsItem() && Kept(rows, hidden, item)
    requires Ancestry(rows, view, item, {}, 0).Ok?
    ensures forall l :: l in Ancestry(rows, view, item, {}, 0).value ==> Kept(rows, hidden, l.item)
  {
    assert Settled(rows, view, item);
    var chain := Ancestry(rows, view, item, {}, 0).value;
    AncestryInRows(rows, view, item, {}, 0);
    if Classify(rows, view, item).value.Ordinary? {
      OrdinaryMeansUndeclared(rows, view, chain);
    } else {
      AncestryIsLinked(rows, view, item, {}, 0);
      ScopedChainReachesRoot(rows, view, chain);
      assert chain[0] in chain;
    }
  }

  lemma {:induction false} ChainFits(rows: seq<Row>, view: RoomView, item: Row, thin: seq<Row>)
    requires item.IsItem() && Ancestry(rows, view, item, {}, 0).Ok?
    requires forall l :: l in Ancestry(rows, view, item, {}, 0).value ==> l.item in thin
    ensures |Ancestry(rows, view, item, {}, 0).value| <= |thin|
  {
    var chain := Ancestry(rows, view, item, {}, 0).value;
    AncestryDistinct(rows, view, item, {}, 0);
    AncestryShape(rows, view, item, {}, 0);
    var items := seq(|chain|, i requires 0 <= i < |chain| => chain[i].item);
    forall i, j | 0 <= i < j < |items| ensures items[i] != items[j] {
      assert chain[i] in chain && chain[j] in chain && chain[i] != chain[j];
    }
    forall x | x in items ensures x in thin {
      var i :| 0 <= i < |items| && items[i] == x;
      assert chain[i] in chain;
    }
    DistinctFits(items, thin);
  }

  lemma {:induction false} LinkInChain(rows: seq<Row>, view: RoomView, chain: seq<Link>, k: nat)
    requires ThreadAncestry.Linked(rows, view, chain) && Firm(chain) && k < |chain|
    ensures chain[k].item.IsItem() && chain[k].resolved == Parent(rows, view, chain[k].item)
    ensures chain[k].resolved.NoReply? || (exists l :: l in chain && chain[k].resolved.Resolved? && chain[k].resolved.item == l.item)
  {
    EveryLink(rows, view, chain, k);
    assert chain[k] in chain;
    if k + 1 < |chain| { assert chain[k + 1] in chain; }
  }

  lemma {:induction false} ChainParentsWithout(rows: seq<Row>, hidden: set<Ulid>, view: RoomView, next: nat, chain: seq<Link>)
    requires ArchiveInv(rows, view, next) && ThreadAncestry.Linked(rows, view, chain) && Firm(chain)
    requires forall l :: l in chain ==> Kept(rows, hidden, l.item)
    ensures forall l :: l in chain ==> l.item.IsItem() && Parent(Without(rows, hidden), view, l.item) == l.resolved
  {
    forall l | l in chain ensures l.item.IsItem() && Parent(Without(rows, hidden), view, l.item) == l.resolved {
      var k :| 0 <= k < |chain| && chain[k] == l;
      LinkInChain(rows, view, chain, k);
      ParentWithout(rows, hidden, view, next, l.item);
    }
  }

  lemma {:induction false} AncestryWithout(rows: seq<Row>, hidden: set<Ulid>, view: RoomView, next: nat, item: Row)
    requires ArchiveInv(rows, view, next) && item.IsItem() && Kept(rows, hidden, item)
    requires Settled(rows, view, item)
    ensures Ancestry(Without(rows, hidden), view, item, {}, 0) == Ancestry(rows, view, item, {}, 0)
  {
    var chain, thin := Ancestry(rows, view, item, {}, 0).value, Without(rows, hidden);
    KeptChain(rows, hidden, view, next, item);
    AncestryShape(rows, view, item, {}, 0);
    AncestryIsLinked(rows, view, item, {}, 0);
    ChainParentsWithout(rows, hidden, view, next, chain);
    ChainFits(rows, view, item, thin);
    AncestryTransfers(rows, thin, view, item, {}, {}, 0, 0);
  }

  lemma CountWithout(rows: seq<Row>, hidden: set<Ulid>, view: RoomView, item: Row)
    requires UniqueKeys(rows) && item.Message? && Kept(rows, hidden, item)
    ensures CountMessages(Without(rows, hidden), view, item.id) == CountMessages(rows, view, item.id)
  {
    var p := (x: Row) => x.room == view.id && x.Message? && x.id == item.id;
    forall x | x in rows && p(x) ensures !Belongs(rows, hidden, x) {
      assert x.KeyOf() == item.KeyOf();
    }
    FilterWithout(rows, hidden, p, p);
  }

  lemma RootWithout(rows: seq<Row>, hidden: set<Ulid>, view: RoomView, id: Ulid)
    requires id !in hidden && FindThreadRoot(rows, view, id).Ok?
    ensures FindThreadRoot(Without(rows, hidden), view, id) == FindThreadRoot(rows, view, id)
  {
    var p := (x: Row) => RootCandidate(x, view, id);
    var candidates := RootCandidates(rows, view, id);
    assert candidates == [candidates[0]];
    forall x | x in rows && p(x) ensures !Belongs(rows, hidden, x) {
      assert x in candidates;
    }
    FilterWithout(rows, hidden, p, p);
  }

  lemma {:induction false} AssociateWithout(rows: seq<Row>, hidden: set<Ulid>, view: RoomView, chain: seq<Link>)
    requires UniqueKeys(rows) && forall l :: l in chain ==> l.item.IsItem() && Kept(rows, hidden, l.item)
    requires Associate(rows, view, chain).Ok?
    ensures Associate(Without(rows, hidden), view, chain) == Associate(rows, view, chain)
  {
    if chain != [] {
      assert chain[0] in chain && forall l :: l in chain[1..] ==> l in chain;
      AssociateWithout(rows, hidden, view, chain[1..]);
      var item, older := chain[0].item, Associate(rows, view, chain[1..]).value;
      if Declared(item) || older.Scoped? {
        CountWithout(rows, hidden, view, item);
        RootWithout(rows, hidden, view, item.scope.value.threadId);
      }
    }
  }

  /** A kept row has the same verdict whether or not the hidden threads exist. */
  lemma VerdictWithout(rows: seq<Row>, hidden: set<Ulid>, view: RoomView, next: nat, item: Row)
    requires ArchiveInv(rows, view, next) && item.IsItem() && Kept(rows, hidden, item)
    ensures Classify(Without(rows, hidden), view, item) == Classify(rows, view, item)
  {
    assert Settled(rows, view, item);
    AncestryWithout(rows, hidden, view, next, item);
    KeptChain(rows, hidden, view, next, item);
    AncestryShape(rows, view, item, {}, 0);
    AssociateWithout(rows, hidden, view, Ancestry(rows, view, item, {}, 0).value);
  }

  /** A row of a hidden thread projects to nothing for a viewer outside it. */
  lemma HiddenProjectsToNothing(room: Room, rows: seq<Row>, hidden: set<Ulid>, next: nat, viewer: Cid, r: Row)
    requires ArchiveInv(rows, View(room), next) && Outside(room, rows, hidden, viewer) && r in rows && Belongs(rows, hidden, r)
    ensures ProjectOne(room, rows, viewer, r) == None
  {
    if r.Message? {
      assert Settled(rows, View(room), r);
      ScopedVerdictHasRoot(rows, View(room), r);
      var root := Classify(rows, View(room), r).value.root;
      assert Concealed(root, hidden) && root in rows;
    }
  }

  lemma KeptProjectsTheSame(room: Room, rows: seq<Row>, hidden: set<Ulid>, next: nat, viewer: Cid, r: Row)
    requires ArchiveInv(rows, View(room), next) && Kept(rows, hidden, r)
    ensures ProjectOne(room, Without(rows, hidden), viewer, r) == ProjectOne(room, rows, viewer, r)
  {
    if r.Message? {
      VerdictWithout(rows, hidden, View(room), next, r);
      SameVerdictSameProjection(room, rows, Without(rows, hidden), viewer, r);
    }
  }

  lemma SameVerdictSameProjection(room: Room, rows: seq<Row>, others: seq<Row>, viewer: Cid, r: Row)
    requires r.Message? && Classify(others, View(room), r) == Classify(rows, View(room), r)
    ensures ProjectOne(room, others, viewer, r) == ProjectOne(room, rows, viewer, r)
  {
  }

  lemma {:induction false} VisibleLast(room: Room, rows: seq<Row>, viewer: Cid, records: seq<Row>, last: Row)
    ensures Visible(room, rows, viewer, records + [last]) == Visible(room, rows, viewer, records)
      + (match ProjectOne(room, rows, viewer, last) case None => [] case Some(m) => [m])
  {
    assert (records + [last])[..|records|] == records;
  }

  /** The records among these that are not of the hidden threads. */
  function KeptOf(rows: seq<Row>, hidden: set<Ulid>, records: seq<Row>): seq<Row> {
    if records == [] then [] else
      var last := records[|records| - 1];
      KeptOf(rows, hidden, records[..|records| - 1]) + if Belongs(rows, hidden, last) then [] else [last]
  }

  lemma {:induction false} KeptOfAll(rows: seq<Row>, hidden: set<Ulid>, records: seq<Row>)
    ensures KeptOf(rows, hidden, records) == Filter(records, (x: Row) => !Belongs(rows, hidden, x))
  {
    if records != [] { KeptOfAll(rows, hidden, records[..|records| - 1]); }
  }

  lemma {:induction false} VisibleWithout(room: Room, rows: seq<Row>, hidden: set<Ulid>, next: nat, viewer: Cid, records: seq<Row>)
    requires ArchiveInv(rows, View(room), next) && Outside(room, rows, hidden, viewer)
    requires forall r :: r in records ==> r in rows
    ensures Visible(room, Without(rows, hidden), viewer, KeptOf(rows, hidden, records)) == Visible(room, rows, viewer, records)
  {
    if records != [] {
      var init, last := records[..|records| - 1], records[|records| - 1];
      assert records == init + [last];
      VisibleWithout(room, rows, hidden, next, viewer, init);
      OneMoreWithout(room, rows, hidden, next, viewer, init, KeptOf(rows, hidden, init), last);
    }
  }

  lemma {:induction false} OneMoreWithout(room: Room, rows: seq<Row>, hidden: set<Ulid>, next: nat, viewer: Cid, init: seq<Row>,
                                      kept: seq<Row>, last: Row)
    requires ArchiveInv(rows, View(room), next) && Outside(room, rows, hidden, viewer) && last in rows
    requires Visible(room, Without(rows, hidden), viewer, kept) == Visible(room, rows, viewer, init)
    ensures Visible(room, Without(rows, hidden), viewer, kept + if Belongs(rows, hidden, last) then [] else [last])
      == Visible(room, rows, viewer, init + [last])
  {
    VisibleLast(room, rows, viewer, init, last);
    if Belongs(rows, hidden, last) {
      HiddenProjectsToNothing(room, rows, hidden, next, viewer, last);
      assert kept + [] == kept;
    } else {
      KeptProjectsTheSame(room, rows, hidden, next, viewer, last);
      VisibleLast(room, Without(rows, hidden), viewer, kept, last);
    }
  }

  /** Same pages, ordinals and cursors, for every cursor, page size and row encoding. */
  lemma HistoryWithout(room: Room, rows: seq<Row>, hidden: set<Ulid>, next: nat, viewer: Cid,
                       after: nat, limit: nat, cost: HistoryRow -> nat)
    requires ArchiveInv(rows, View(room), next) && Outside(room, rows, hidden, viewer)
    ensures HistoryPage(room, Without(rows, hidden), viewer, after, limit, cost) == HistoryPage(room, rows, viewer, after, limit, cost)
  {
    KeptOfAll(rows, hidden, rows);
    VisibleWithout(room, rows, hidden, next, viewer, rows);
  }

  /**
   Noninterference over whole runs: whatever happened in the room, a viewer outside the hidden
   threads reads exactly what it would read had none of their records ever existed.
   */
  lemma OutsiderSeesNothing(worlds: seq<World>, events: seq<Event>, i: nat, hidden: set<Ulid>, viewer: Cid,
                            after: nat, limit: nat, cost: HistoryRow -> nat)
    requires Run(worlds, events) && i < |worlds| && Outside(worlds[i].room, worlds[i].rows, hidden, viewer)
    ensures HistoryPage(worlds[i].room, worlds[i].rows, viewer, after, limit, cost)
      == HistoryPage(worlds[i].room, Without(worlds[i].rows, hidden), viewer, after, limit, cost)
  {
    RunKeepsInv(worlds, events, i);
    HistoryWithout(worlds[i].room, worlds[i].rows, hidden, worlds[i].next, viewer, after, limit, cost);
  }
}
