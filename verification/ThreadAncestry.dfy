/**
 What a verdict says about the ancestry of a row, in any archive at all: a corrupt, cyclic or
 inconsistent one included.
 */
module ThreadAncestry {
  import opened Prelude
  import opened Rooms
  import opened ReplyThreading
  import opened Threads

  /** The n-th native ancestor of a row: itself, the row it replies to, the row that one replies to, ... */
  function Ancestor(rows: seq<Row>, view: RoomView, item: Row, n: nat): (r: Option<Row>)
    requires item.IsItem()
    ensures r.Some? ==> r.value.IsItem() && (n > 0 ==> r.value in rows && r.value.pos + n <= item.pos)
    decreases n
  {
    if n == 0 then Some(item)
    else match Parent(rows, view, item)
      case Resolved(key, parent) => Ancestor(rows, view, parent, n - 1)
      case _ => None
  }

  /** Consecutive links of one native reply chain, the last of which replies to nothing resolvable. */
  predicate Linked(rows: seq<Row>, view: RoomView, chain: seq<Link>) {
    chain != [] ==>
      && IsLink(rows, view, chain[0]) && JoinedAt(chain, 0)
      && (|chain| > 1 ==> Linked(rows, view, chain[1..]))
  }

  predicate IsLink(rows: seq<Row>, view: RoomView, link: Link) {
    link.item.IsItem() && link.item.room == view.id && link.resolved == Parent(rows, view, link.item)
  }

  predicate JoinedAt(chain: seq<Link>, k: nat)
    requires k < |chain|
  {
    if k == |chain| - 1 then !chain[k].resolved.Resolved?
    else chain[k].resolved.Resolved? && chain[k].resolved.item == chain[k + 1].item
  }

  lemma {:induction false} EveryLink(rows: seq<Row>, view: RoomView, chain: seq<Link>, k: nat)
    requires Linked(rows, view, chain) && k < |chain|
    ensures IsLink(rows, view, chain[k]) && JoinedAt(chain, k)
  {
    if k > 0 {
      EveryLink(rows, view, chain[1..], k - 1);
      assert chain[1..][k - 1] == chain[k];
    }
  }

  lemma {:induction false} AncestryIsLinked(rows: seq<Row>, view: RoomView, item: Row, seen: set<Key>, depth: nat)
    requires item.IsItem() && Ancestry(rows, view, item, seen, depth).Ok?
    ensures Linked(rows, view, Ancestry(rows, view, item, seen, depth).value)
    decreases item.pos
  {
    var resolved := Parent(rows, view, item);
    if resolved.Resolved? {
      AncestryIsLinked(rows, view, resolved.item, seen + {item.KeyOf()}, depth + 1);
      var older := Ancestry(rows, view, resolved.item, seen + {item.KeyOf()}, depth + 1).value;
      LinkedCons(rows, view, Link(item, resolved), older);
      assert Ancestry(rows, view, item, seen, depth).value == [Link(item, resolved)] + older;
    }
  }

  lemma {:induction false} LinkedCons(rows: seq<Row>, view: RoomView, link: Link, older: seq<Link>)
    requires Linked(rows, view, older) && older != [] && link.resolved.Resolved? && link.resolved.item == older[0].item
    requires link.item.IsItem() && link.item.room == view.id && link.resolved == Parent(rows, view, link.item)
    ensures Linked(rows, view, [link] + older)
  {
    assert ([link] + older)[1..] == older;
  }

  lemma OneUp(rows: seq<Row>, view: RoomView, item: Row, n: nat)
    requires item.IsItem() && n > 0
    ensures var parent := Parent(rows, view, item);
      Ancestor(rows, view, item, n) == if parent.Resolved? then Ancestor(rows, view, parent.item, n - 1) else None
  {
  }

  /** The walk visits exactly the ancestors, in strictly decreasing sequence order. */
  lemma {:induction false} LinkedAreAncestors(rows: seq<Row>, view: RoomView, chain: seq<Link>, n: nat)
    requires Linked(rows, view, chain) && chain != []
    ensures n < |chain| ==> Ancestor(rows, view, chain[0].item, n) == Some(chain[n].item)
    ensures n >= |chain| ==> Ancestor(rows, view, chain[0].item, n) == None
    decreases n
  {
    if n > 0 {
      OneUp(rows, view, chain[0].item, n);
      if |chain| > 1 { LinkedAreAncestors(rows, view, chain[1..], n - 1); }
    }
  }

  lemma {:induction false} OrdinaryMeansUndeclared(rows: seq<Row>, view: RoomView, chain: seq<Link>)
    requires forall l :: l in chain ==> l.item.IsItem()
    ensures Associate(rows, view, chain) == Ok(Ordinary) <==> forall l :: l in chain ==> !Declared(l.item)
  {
    if chain != [] {
      assert chain == [chain[0]] + chain[1..];
      assert chain[0] in chain && forall l :: l in chain[1..] ==> l in chain;
      OrdinaryMeansUndeclared(rows, view, chain[1..]);
    }
  }

  lemma {:induction false} ChainCoversAncestors(rows: seq<Row>, view: RoomView, chain: seq<Link>)
    requires Linked(rows, view, chain) && chain != []
    ensures (forall l :: l in chain ==> !Declared(l.item)) <==> NothingPrivate(rows, view, chain[0].item)
  {
    var source := chain[0].item;
    forall k | 0 <= k < |chain| ensures chain[k].item.IsItem() { EveryLink(rows, view, chain, k); }
    forall n: nat
      ensures n < |chain| ==> Ancestor(rows, view, source, n) == Some(chain[n].item) && chain[n] in chain
      ensures n >= |chain| ==> Ancestor(rows, view, source, n) == None
    {
      LinkedAreAncestors(rows, view, chain, n);
    }
    if NothingPrivate(rows, view, source) {
      forall l | l in chain ensures !Declared(l.item) {
        var n :| 0 <= n < |chain| && chain[n] == l;
        assert Ancestor(rows, view, source, n) == Some(l.item);
      }
    }
  }

  /** Neither the row nor any of its native ancestors carries a scope or a thread root. */
  ghost predicate NothingPrivate(rows: seq<Row>, view: RoomView, source: Row)
    requires source.IsItem()
  {
    forall n: nat :: Ancestor(rows, view, source, n).Some? ==> !Declared(Ancestor(rows, view, source, n).value)
  }

  /**
   Private scope is kept or refused, never dropped: a row is ordinary exactly when the walk
   completes and there is nothing private on it.
   */
  lemma {:induction false} OrdinaryIffNothingPrivate(rows: seq<Row>, view: RoomView, source: Row)
    requires source.IsItem()
    ensures Classify(rows, view, source) == Ok(Ordinary) <==>
      Ancestry(rows, view, source, {}, 0).Ok? && NothingPrivate(rows, view, source)
  {
    if Ancestry(rows, view, source, {}, 0).Ok? {
      var chain := Ancestry(rows, view, source, {}, 0).value;
      AncestryIsLinked(rows, view, source, {}, 0);
      OrdinaryMeansUndeclared(rows, view, chain);
      ChainCoversAncestors(rows, view, chain);
    }
  }

  lemma OnlyCarrier(rows: seq<Row>, view: RoomView, a: Row, b: Row)
    requires a in rows && b in rows && a.Message? && b.Message? && a.room == b.room == view.id && a.id == b.id
    requires CountMessages(rows, view, a.id) == 1
    ensures a == b
  {
    var same := Filter(rows, (x: Row) => x.room == view.id && x.Message? && x.id == a.id);
    assert a in same && b in same && same == [same[0]];
  }

  predicate InThread(r: Row, threadId: Ulid) {
    r.Message? && r.scope.Some? && r.scope.value.threadId == threadId
  }

  /** Every row of `chain` is a message of the thread rooted at `root`, and the chain ends at the root itself. */
  ghost predicate WithinThread(chain: seq<Link>, root: Row) {
    && chain != [] && root.Message? && chain[|chain| - 1].item == root
    && forall l :: l in chain ==> InThread(l.item, root.id)
  }

  /** The link that yields a scoped verdict is the root itself, or continues its parent's thread. */
  lemma ScopedLink(rows: seq<Row>, view: RoomView, link: Link, older: Association)
    requires link.item.IsItem() && link.item in rows && link.item.room == view.id
    requires link.resolved == Parent(rows, view, link.item)
    requires Advance(rows, view, link, older).Ok? && Advance(rows, view, link, older).value.Scoped?
    ensures var a := Advance(rows, view, link, older).value;
      && FindThreadRoot(rows, view, a.scope.threadId) == Ok(a.root) && a.root.id == a.scope.threadId
      && InThread(link.item, a.root.id) && link.item.scope == Some(a.scope)
      && ((link.item == a.root && link.resolved.NoReply?)
          || (link.resolved.Resolved? && older.Scoped? && older.root.Message? && older.root.id == a.root.id))
  {
    var a := Advance(rows, view, link, older).value;
    if link.item.id == a.root.id {
      OnlyCarrier(rows, view, link.item, a.root);
    }
  }

  lemma {:induction false} ScopedChainReachesRoot(rows: seq<Row>, view: RoomView, chain: seq<Link>)
    requires Linked(rows, view, chain) && forall l :: l in chain ==> l.item.IsItem() && l.item in rows
    requires Associate(rows, view, chain).Ok? && Associate(rows, view, chain).value.Scoped?
    ensures var a := Associate(rows, view, chain).value;
      && FindThreadRoot(rows, view, a.scope.threadId) == Ok(a.root) && a.root.id == a.scope.threadId
      && WithinThread(chain, a.root) && chain[0].item.scope == Some(a.scope)
  {
    var a := Associate(rows, view, chain).value;
    var rest := chain[1..];
    assert chain == [chain[0]] + rest && chain[0] in chain;
    assert forall l :: l in rest ==> l in chain;
    var older := Associate(rows, view, rest).value;
    ScopedLink(rows, view, chain[0], older);
    if rest == [] {
      assert chain == [chain[0]];
    } else {
      ScopedChainReachesRoot(rows, view, rest);
      assert older.root == a.root;
      WithinLonger(chain, a.root);
    }
  }

  lemma WithinLonger(chain: seq<Link>, root: Row)
    requires |chain| > 1 && root.Message? && InThread(chain[0].item, root.id) && WithinThread(chain[1..], root)
    ensures WithinThread(chain, root)
  {
    assert chain == [chain[0]] + chain[1..];
    assert chain[|chain| - 1] == chain[1..][|chain| - 2];
  }

  ghost predicate ReachesRoot(rows: seq<Row>, view: RoomView, source: Row, depth: nat, root: Row)
    requires source.IsItem() && root.Message?
  {
    && Ancestor(rows, view, source, depth) == Some(root)
    && Ancestor(rows, view, source, depth + 1) == None
    && forall n: nat :: n <= depth ==>
      Ancestor(rows, view, source, n).Some? && InThread(Ancestor(rows, view, source, n).value, root.id)
  }

  /**
   A scoped verdict for a saved row means that its whole native ancestry stays inside one thread and
   ends at that thread's root.
   */
  lemma ScopedStaysInThread(rows: seq<Row>, view: RoomView, source: Row)
    requires source.IsItem() && source in rows
    requires Classify(rows, view, source).Ok? && Classify(rows, view, source).value.Scoped?
    ensures var a := Classify(rows, view, source).value;
      && FindThreadRoot(rows, view, a.scope.threadId) == Ok(a.root)
      && source.Message? && source.scope == Some(a.scope)
      && exists depth: nat :: ReachesRoot(rows, view, source, depth, a.root)
  {
    var a := Classify(rows, view, source).value;
    var chain := Ancestry(rows, view, source, {}, 0).value;
    AncestryIsLinked(rows, view, source, {}, 0);
    AncestryInRows(rows, view, source, {}, 0);
    ScopedChainReachesRoot(rows, view, chain);
    forall n: nat
      ensures n < |chain| ==> Ancestor(rows, view, source, n) == Some(chain[n].item) && chain[n] in chain
      ensures n >= |chain| ==> Ancestor(rows, view, source, n) == None
    {
      LinkedAreAncestors(rows, view, chain, n);
    }
    var d := |chain| - 1;
    assert Ancestor(rows, view, source, d) == Some(a.root);
    assert ReachesRoot(rows, view, source, d, a.root);
  }

  lemma {:induction false} AncestryInRows(rows: seq<Row>, view: RoomView, item: Row, seen: set<Key>, depth: nat)
    requires item.IsItem() && item in rows && Ancestry(rows, view, item, seen, depth).Ok?
    ensures forall l :: l in Ancestry(rows, view, item, seen, depth).value ==> l.item in rows
    decreases item.pos
  {
    var resolved := Parent(rows, view, item);
    if resolved.Resolved? {
      AncestryInRows(rows, view, resolved.item, seen + {item.KeyOf()}, depth + 1);
    }
  }

  // ----- Verdicts do not change as the archive grows -----------------------------------------------

  /** The thread fields of a message as the record schema admits them. */
  predicate ThreadFieldsValid(r: Row) {
    r.Message? ==>
      && (r.threadRoot.Some? ==> r.scope.Some? && WellFormedRoot(r, r.id))
      && (r.threadRoot.None? && r.scope.Some? ==>
          r.scope.value.parent.Some? && r.scope.value.threadId != r.id && r.reply.Some? && r.category.Chat?)
  }

  /** Every reply on the chain names something: no reference is left unresolved. */
  ghost predicate Firm(chain: seq<Link>) {
    forall l :: l in chain ==> l.resolved.Resolved? || l.resolved.NoReply?
  }

  lemma ParentStable(rows: seq<Row>, r: Row, view: RoomView, item: Row)
    requires item.IsItem() && Fresh(rows, r)
    requires Parent(rows, view, item).Resolved? || Parent(rows, view, item).NoReply?
    ensures Parent(rows + [r], view, item) == Parent(rows, view, item)
  {
    if Parent(rows, view, item).Resolved? {
      ResolvedStable(rows, view.id, r, item.author.identity, ReplyWire(item), item.pos);
    }
  }

  lemma {:induction false} AncestryShape(rows: seq<Row>, view: RoomView, item: Row, seen: set<Key>, depth: nat)
    requires item.IsItem() && Ancestry(rows, view, item, seen, depth).Ok?
    ensures var chain := Ancestry(rows, view, item, seen, depth).value;
      && (forall l :: l in chain ==> l.item.IsItem() && l.item.KeyOf() !in seen && l.resolved == Parent(rows, view, l.item))
      && depth + |chain| <= |rows| + 1
    decreases item.pos
  {
    var resolved := Parent(rows, view, item);
    if resolved.Resolved? {
      AncestryShape(rows, view, resolved.item, seen + {item.KeyOf()}, depth + 1);
      var older := Ancestry(rows, view, resolved.item, seen + {item.KeyOf()}, depth + 1).value;
      assert Ancestry(rows, view, item, seen, depth).value == [Link(item, resolved)] + older;
    }
  }

  lemma DistinctCons(link: Link, older: seq<Link>)
    requires Distinct(older) && link !in older
    ensures Distinct([link] + older)
  {
    var chain := [link] + older;
    forall i, j | 0 <= i < j < |chain| ensures chain[i] != chain[j] { assert chain[j] == older[j - 1] && chain[j] in older; }
  }

  /** No row is visited twice. */
  lemma {:induction false} AncestryDistinct(rows: seq<Row>, view: RoomView, item: Row, seen: set<Key>, depth: nat)
    requires item.IsItem() && Ancestry(rows, view, item, seen, depth).Ok?
    ensures Distinct(Ancestry(rows, view, item, seen, depth).value)
    decreases item.pos
  {
    var resolved := Parent(rows, view, item);
    if resolved.Resolved? {
      AncestryDistinct(rows, view, resolved.item, seen + {item.KeyOf()}, depth + 1);
      AncestryShape(rows, view, resolved.item, seen + {item.KeyOf()}, depth + 1);
      var older := Ancestry(rows, view, resolved.item, seen + {item.KeyOf()}, depth + 1).value;
      assert Ancestry(rows, view, item, seen, depth).value == [Link(item, resolved)] + older;
      assert Link(item, resolved) !in older;
      DistinctCons(Link(item, resolved), older);
    }
  }

  /** The other archive resolves every link alike, and is long enough for the walk. */
  predicate ResolvesAlike(rows': seq<Row>, view: RoomView, chain: seq<Link>, seen': set<Key>, depth': nat) {
    && depth' + |chain| <= |rows'| + 1
    && forall l :: l in chain ==> l.item.IsItem() && l.item.KeyOf() !in seen' && Parent(rows', view, l.item) == l.resolved
  }

  lemma OlderResolvesAlike(rows: seq<Row>, rows': seq<Row>, view: RoomView, item: Row, seen: set<Key>, seen': set<Key>, depth: nat, depth': nat)
    requires item.IsItem() && Ancestry(rows, view, item, seen, depth).Ok? && Parent(rows, view, item).Resolved?
    requires ResolvesAlike(rows', view, Ancestry(rows, view, item, seen, depth).value, seen', depth')
    ensures var older := Ancestry(rows, view, Parent(rows, view, item).item, seen + {item.KeyOf()}, depth + 1);
      older.Ok? && ResolvesAlike(rows', view, older.value, seen' + {item.KeyOf()}, depth' + 1)
  {
    var parent := Parent(rows, view, item);
    AncestryShape(rows, view, parent.item, seen + {item.KeyOf()}, depth + 1);
    var older := Ancestry(rows, view, parent.item, seen + {item.KeyOf()}, depth + 1).value;
    assert Ancestry(rows, view, item, seen, depth).value == [Link(item, parent)] + older;
  }

  /** The walk gives the same chain in any other archive where each link resolves the same way. */
  lemma {:induction false} AncestryTransfers(rows: seq<Row>, rows': seq<Row>, view: RoomView, item: Row,
                                             seen: set<Key>, seen': set<Key>, depth: nat, depth': nat)
    requires item.IsItem() && Ancestry(rows, view, item, seen, depth).Ok?
    requires ResolvesAlike(rows', view, Ancestry(rows, view, item, seen, depth).value, seen', depth')
    ensures Ancestry(rows', view, item, seen', depth') == Ancestry(rows, view, item, seen, depth)
    decreases item.pos
  {
    var chain, parent := Ancestry(rows, view, item, seen, depth).value, Parent(rows, view, item);
    assert chain[0] in chain;
    if parent.Resolved? {
      OlderResolvesAlike(rows, rows', view, item, seen, seen', depth, depth');
      AncestryTransfers(rows, rows', view, parent.item, seen + {item.KeyOf()}, seen' + {item.KeyOf()}, depth + 1, depth' + 1);
    }
  }

  lemma {:induction false} AncestryStable(rows: seq<Row>, r: Row, view: RoomView, item: Row)
    requires item.IsItem() && Fresh(rows, r)
    requires Ancestry(rows, view, item, {}, 0).Ok? && Firm(Ancestry(rows, view, item, {}, 0).value)
    ensures Ancestry(rows + [r], view, item, {}, 0) == Ancestry(rows, view, item, {}, 0)
  {
    var chain := Ancestry(rows, view, item, {}, 0).value;
    AncestryShape(rows, view, item, {}, 0);
    forall l | l in chain ensures Parent(rows + [r], view, l.item) == l.resolved {
      ParentStable(rows, r, view, l.item);
    }
    AncestryTransfers(rows, rows + [r], view, item, {}, {}, 0, 0);
  }

  lemma RootStable(rows: seq<Row>, r: Row, view: RoomView, id: Ulid)
    requires Fresh(rows, r) && ThreadFieldsValid(r) && FindThreadRoot(rows, view, id).Ok?
    ensures FindThreadRoot(rows + [r], view, id) == FindThreadRoot(rows, view, id)
  {
    var root := FindThreadRoot(rows, view, id).value;
    assert MentionsKey(root, MessageKey(id));
    var p := (x: Row) => RootCandidate(x, view, id);
    FilterAppend(rows, r, p, p);
  }

  lemma CountStable(rows: seq<Row>, r: Row, view: RoomView, id: Ulid)
    requires Fresh(rows, r) && CountMessages(rows, view, id) == 1
    ensures CountMessages(rows + [r], view, id) == 1
  {
    var p := (x: Row) => x.room == view.id && x.Message? && x.id == id;
    var same := Filter(rows, p);
    assert same[0] in same && MentionsKey(same[0], MessageKey(id));
    FilterAppend(rows, r, p, p);
  }

  lemma {:induction false} AssociateStable(rows: seq<Row>, r: Row, view: RoomView, chain: seq<Link>)
    requires Fresh(rows, r) && ThreadFieldsValid(r) && forall l :: l in chain ==> l.item.IsItem()
    requires Associate(rows, view, chain).Ok?
    ensures Associate(rows + [r], view, chain) == Associate(rows, view, chain)
  {
    if chain != [] {
      assert chain[0] in chain && forall l :: l in chain[1..] ==> l in chain;
      AssociateStable(rows, r, view, chain[1..]);
      var item, older := chain[0].item, Associate(rows, view, chain[1..]).value;
      if Declared(item) || older.Scoped? {
        CountStable(rows, r, view, item.id);
        RootStable(rows, r, view, item.scope.value.threadId);
      }
    }
  }

  /** A verdict whose references all resolve is the same verdict after any fresh row. */
  lemma {:induction false} VerdictStable(rows: seq<Row>, r: Row, view: RoomView, item: Row)
    requires item.IsItem() && Fresh(rows, r) && ThreadFieldsValid(r)
    requires Classify(rows, view, item).Ok? && Firm(Ancestry(rows, view, item, {}, 0).value)
    ensures Classify(rows + [r], view, item) == Classify(rows, view, item)
    ensures Ancestry(rows + [r], view, item, {}, 0) == Ancestry(rows, view, item, {}, 0)
  {
    AncestryStable(rows, r, view, item);
    AssociateStable(rows, r, view, Ancestry(rows, view, item, {}, 0).value);
  }

  /** Scoped verdicts need no further assumption: a scoped chain ends at a root, which replies to nothing. */
  lemma {:induction false} ScopedIsFirm(rows: seq<Row>, view: RoomView, item: Row)
    requires item.IsItem() && item in rows
    requires Classify(rows, view, item).Ok? && Classify(rows, view, item).value.Scoped?
    ensures Firm(Ancestry(rows, view, item, {}, 0).value)
  {
    var chain := Ancestry(rows, view, item, {}, 0).value;
    AncestryIsLinked(rows, view, item, {}, 0);
    AncestryInRows(rows, view, item, {}, 0);
    ScopedChainReachesRoot(rows, view, chain);
    RootEndsFirm(rows, view, chain, Associate(rows, view, chain).value.root);
  }

  lemma {:induction false} RootEndsFirm(rows: seq<Row>, view: RoomView, chain: seq<Link>, root: Row)
    requires Linked(rows, view, chain) && chain != [] && chain[|chain| - 1].item == root && root.IsItem() && root.reply.None?
    ensures Firm(chain)
  {
    var last := chain[|chain| - 1];
    forall l | l in chain ensures l.resolved.Resolved? || l.resolved.NoReply? {
      var k :| 0 <= k < |chain| && chain[k] == l;
      EveryLink(rows, view, chain, k);
      assert k < |chain| - 1 || l == last;
    }
  }

  ghost predicate ValidExtension(rows: seq<Row>, more: seq<Row>) {
    FreshExtension(rows, more) && forall r :: r in more ==> ThreadFieldsValid(r)
  }

  lemma ScopedStep(rows: seq<Row>, r: Row, view: RoomView, item: Row)
    requires Fresh(rows, r) && ThreadFieldsValid(r) && item.IsItem() && item in rows
    requires Classify(rows, view, item).Ok? && Classify(rows, view, item).value.Scoped?
    ensures Classify(rows + [r], view, item) == Classify(rows, view, item)
  {
    ScopedIsFirm(rows, view, item);
    VerdictStable(rows, r, view, item);
  }

  /** A scoped verdict holds in every fresh extension of the archive, with the same root and parent. */
  lemma {:induction false} ScopedForever(rows: seq<Row>, more: seq<Row>, view: RoomView, item: Row)
    requires ValidExtension(rows, more) && item.IsItem() && item in rows
    requires Classify(rows, view, item).Ok? && Classify(rows, view, item).value.Scoped?
    ensures Classify(rows + more, view, item) == Classify(rows, view, item)
    decreases |more|
  {
    if more == [] {
      assert rows + more == rows;
    } else {
      ScopedStep(rows, more[0], view, item);
      ScopedForever(rows + [more[0]], more[1..], view, item);
      Regrouped(rows, more);
    }
  }
}
