/**
 Invite recovery lineage. A lost invite is replaced by a new one that points back to it; both the
 daemon's schema and the browser check those pointers, and they do not check the same thing.
 */
module InviteLineage {
  import opened Prelude
  import opened Rooms

  // ----- What the stored schema demands ----------------------------------------------------------

  /** The rules one invite must satisfy by itself. */
  predicate InviteValid(i: Invite) {
    && (i.mode.OneTime? ==> i.minAccepts == 1) && i.minAccepts > 0
    && (i.state.ReceiptPending? ==> i.recoveryOf.Some? && i.confirmed == Some(false) && i.accepted == [])
    && (i.recoveryOf.Some? <==> i.confirmed.Some?)
    && (i.recoveryOf.Some? && (i.state.Live? || i.state.Consumed? || i.state.ReplacementRequired?) ==> i.confirmed == Some(true))
  }

  /** The state a recovery source must be in, given the invite that replaces it. */
  predicate SourceState(i: Invite, source: InviteState) {
    match i.state
    case ReceiptPending => source.ReplacementRequired?
    case Revoked => source.Revoked? || (i.confirmed != Some(true) && source.ReplacementRequired?)
    case _ => source.Revoked?
  }

  /** A replacement copies the terms of the invite it replaces. */
  predicate Replaces(i: Invite, source: Invite) {
    && source.id != i.id && SourceState(i, source.state)
    && i.mode == source.mode && i.role == source.role && i.minAccepts == source.minAccepts
  }

  /** The first invite with this ID: JavaScript's `find`. */
  function FindInvite(invites: seq<Invite>, id: InviteId): (r: Option<Invite>)
    ensures r.Some? ==> r.value in invites && r.value.id == id
    ensures r.None? ==> forall i :: i in invites ==> i.id != id
  {
    if invites == [] then None
    else if invites[0].id == id then Some(invites[0])
    else FindInvite(invites[1..], id)
  }

  predicate PointerValid(invites: seq<Invite>, i: Invite) {
    i.recoveryOf.Some? ==>
      var source := FindInvite(invites, i.recoveryOf.value);
      source.Some? && Replaces(i, source.value)
  }

  predicate OnePendingPerSource(invites: seq<Invite>) {
    forall i, j :: 0 <= i < j < |invites| && invites[i].state.ReceiptPending? && invites[j].state.ReceiptPending? ==>
      invites[i].recoveryOf != invites[j].recoveryOf
  }

  predicate LineageValid(invites: seq<Invite>) {
    (forall k :: 0 <= k < |invites| ==> PointerValid(invites, invites[k])) && OnePendingPerSource(invites)
  }

  /** `refineRoomLineage`: one pass over the invites, with the pending recoveries seen so far. */
  method RefineRoomLineage(invites: seq<Invite>) returns (ok: bool)
    requires forall i :: i in invites ==> InviteValid(i)
    ensures ok == LineageValid(invites)
  {
    var pendingByRecovery: set<InviteId> := {};
    ok := true;
    for k := 0 to |invites|
      invariant ok == ((forall j :: 0 <= j < k ==> PointerValid(invites, invites[j])) && OnePendingPerSource(invites[..k]))
      invariant forall id :: id in pendingByRecovery <==>
        exists j :: 0 <= j < k && invites[j].state.ReceiptPending? && invites[j].recoveryOf == Some(id)
    {
      var i := invites[k];
      assert i in invites && invites[..k + 1] == invites[..k] + [i];
      if i.recoveryOf.None? { continue; }
      if !PointerValid(invites, i) { ok := false; }
      if i.state.ReceiptPending? {
        if i.recoveryOf.value in pendingByRecovery { ok := false; }
        pendingByRecovery := pendingByRecovery + {i.recoveryOf.value};
      }
    }
    assert invites[..|invites|] == invites;
  }

  // ----- What the browser demands on top -----------------------------------------------------------

  /** The n-th invite up the recovery pointers. */
  function Ascend(invites: seq<Invite>, i: Invite, n: nat): (r: Option<Invite>)
    ensures r.Some? && n > 0 ==> r.value in invites
    decreases n
  {
    if n == 0 then Some(i)
    else
      var below := Ascend(invites, i, n - 1);
      if below.None? || below.value.recoveryOf.None? then None
      else FindInvite(invites, below.value.recoveryOf.value)
  }

  ghost predicate UniqueIds(invites: seq<Invite>) {
    forall i, j :: 0 <= i < j < |invites| ==> invites[i].id != invites[j].id
  }

  ghost predicate Acyclic(invites: seq<Invite>) {
    forall i :: i in invites ==> NeverReturns(invites, i)
  }

  /** No climb from this invite leads back to it. */
  ghost predicate NeverReturns(invites: seq<Invite>, i: Invite) {
    forall n: nat :: n > 0 ==> Ascend(invites, i, n) != Some(i)
  }

  /** Its recovery pointer, if it has one, leads to an invite. */
  predicate Anchored(invites: seq<Invite>, i: Invite) {
    i.recoveryOf.Some? ==> FindInvite(invites, i.recoveryOf.value).Some?
  }

  ghost predicate Dangles(invites: seq<Invite>) {
    exists i :: i in invites && !Anchored(invites, i)
  }

  lemma {:induction false} AscendStops(invites: seq<Invite>, i: Invite, m: nat, n: nat)
    requires m <= n && Ascend(invites, i, m).None?
    ensures Ascend(invites, i, n).None?
    decreases n
  {
    if m < n {
      AscendStops(invites, i, m, n - 1);
    }
  }

  lemma {:induction false} AscendAdds(invites: seq<Invite>, i: Invite, m: nat, n: nat)
    requires Ascend(invites, i, m).Some?
    ensures Ascend(invites, i, m + n) == Ascend(invites, Ascend(invites, i, m).value, n)
    decreases n
  {
    if n > 0 {
      AscendAdds(invites, i, m, n - 1);
    }
  }

  lemma SameIdSameInvite(invites: seq<Invite>, a: Invite, b: Invite)
    requires UniqueIds(invites) && a in invites && b in invites && a.id == b.id
    ensures a == b
  {
    var i :| 0 <= i < |invites| && invites[i] == a;
    var j :| 0 <= j < |invites| && invites[j] == b;
    assert i == j;
  }

  ghost predicate LinkAt(invites: seq<Invite>, path: seq<Invite>, k: nat) {
    k + 1 < |path| && path[k].recoveryOf.Some? && FindInvite(invites, path[k].recoveryOf.value) == Some(path[k + 1])
  }

  /** A path up the recovery pointers on which no ID repeats. */
  ghost predicate Climbed(invites: seq<Invite>, path: seq<Invite>) {
    && path != [] && (forall i :: i in path ==> i in invites)
    && (forall k: nat :: k < |path| - 1 ==> LinkAt(invites, path, k))
    && (forall j, k :: 0 <= j < k < |path| ==> path[j].id != path[k].id)
  }

  lemma {:induction false} PathAscends(invites: seq<Invite>, path: seq<Invite>, k: nat)
    requires Climbed(invites, path) && k < |path|
    ensures Ascend(invites, path[0], k) == Some(path[k])
    decreases k
  {
    if k > 0 {
      PathAscends(invites, path, k - 1);
      assert LinkAt(invites, path, k - 1);
    }
  }

  lemma {:induction false} ClimbsOnce(invites: seq<Invite>, path: seq<Invite>, n: nat)
    requires Climbed(invites, path) && path[|path| - 1].recoveryOf.None? && n > 0
    ensures Ascend(invites, path[0], n) != Some(path[0])
  {
    if n < |path| {
      PathAscends(invites, path, n);
    } else {
      PathAscends(invites, path, |path| - 1);
      AscendStops(invites, path[0], |path|, n);
    }
  }

  lemma MeetsItself(invites: seq<Invite>, path: seq<Invite>, k: nat)
    requires UniqueIds(invites) && Climbed(invites, path) && k < |path|
    requires path[|path| - 1].recoveryOf == Some(path[k].id)
    ensures !Acyclic(invites)
  {
    var met, m := path[k], |path| - 1;
    assert met in path;
    SameIdSameInvite(invites, met, FindInvite(invites, met.id).value);
    PathAscends(invites, path, k);
    PathAscends(invites, path, m);
    AscendOnce(invites, path[0], m, met);
    AscendAdds(invites, path[0], k, m + 1 - k);
    CycleFound(invites, met, m + 1 - k);
  }

  lemma AscendOnce(invites: seq<Invite>, i: Invite, m: nat, next: Invite)
    requires Ascend(invites, i, m).Some? && Ascend(invites, i, m).value.recoveryOf.Some?
    requires FindInvite(invites, Ascend(invites, i, m).value.recoveryOf.value) == Some(next)
    ensures Ascend(invites, i, m + 1) == Some(next)
  {
  }

  lemma {:induction false} CycleFound(invites: seq<Invite>, i: Invite, n: nat)
    requires i in invites && n > 0 && Ascend(invites, i, n) == Some(i)
    ensures !Acyclic(invites)
  {
  }

  lemma {:induction false} ClimbStep(invites: seq<Invite>, path: seq<Invite>, next: Invite)
    requires Climbed(invites, path) && path[|path| - 1].recoveryOf.Some?
    requires FindInvite(invites, path[|path| - 1].recoveryOf.value) == Some(next)
    requires forall i :: i in path ==> i.id != next.id
    ensures Climbed(invites, path + [next])
  {
    var more := path + [next];
    forall k: nat | k < |more| - 1 ensures LinkAt(invites, more, k) {
      if k < |path| - 1 { assert LinkAt(invites, path, k); }
    }
    forall j, k | 0 <= j < k < |more| ensures more[j].id != more[k].id {
      assert more[j] in path;
    }
  }

  /** The browser's climb from one invite; it stops at a repeated ID or a missing source. */
  method ClimbsToRoot(invites: seq<Invite>, start: Invite) returns (ok: bool)
    requires UniqueIds(invites) && start in invites
    ensures ok ==> NeverReturns(invites, start)
    ensures !ok ==> !Acyclic(invites) || Dangles(invites)
  {
    var lineage := {start.id};
    var cursor := start;
    ghost var path := [start];
    ghost var all := set i | i in invites :: i.id;
    while cursor.recoveryOf.Some?
      invariant Climbed(invites, path) && path[0] == start && path[|path| - 1] == cursor && cursor in invites
      invariant forall id :: id in lineage <==> exists i :: i in path && i.id == id
      invariant lineage <= all
      decreases all - lineage
    {
      var id := cursor.recoveryOf.value;
      if id in lineage {
        ghost var i :| i in path && i.id == id;
        ghost var k: nat :| k < |path| && path[k] == i;
        MeetsItself(invites, path, k);
        return false;
      }
      var source := FindInvite(invites, id);
      if source.None? { return false; }
      ClimbStep(invites, path, source.value);
      lineage := lineage + {id};
      cursor := source.value;
      path := path + [cursor];
    }
    forall n: nat | n > 0 ensures Ascend(invites, start, n) != Some(start) { ClimbsOnce(invites, path, n); }
    return true;
  }

  /** The browser's whole lineage check accepts exactly the acyclic ones without a missing source. */
  method BrowserAcceptsLineage(invites: seq<Invite>) returns (ok: bool)
    requires UniqueIds(invites)
    ensures ok <==> Acyclic(invites) && !Dangles(invites)
  {
    for k := 0 to |invites|
      invariant forall j :: 0 <= j < k ==> NeverReturns(invites, invites[j]) && Anchored(invites, invites[j])
    {
      if !Anchored(invites, invites[k]) { return false; }
      var climbs := ClimbsToRoot(invites, invites[k]);
      if !climbs { return false; }
    }
    assert forall i :: i in invites ==> NeverReturns(invites, i) && Anchored(invites, i);
    return true;
  }

  // ----- The stronger invariant the operations keep -----------------------------------------------

  /** The recovery pointer leads to an invite recorded earlier, in the state it must be in. */
  ghost predicate PointsBack(invites: seq<Invite>, k: nat)
    requires k < |invites|
  {
    invites[k].recoveryOf.Some? ==>
      exists j :: 0 <= j < k && invites[j].id == invites[k].recoveryOf.value && Replaces(invites[k], invites[j])
  }

  ghost predicate Sound(invites: seq<Invite>) {
    && UniqueIds(invites) && OnePendingPerSource(invites)
    && (forall i :: i in invites ==> InviteValid(i))
    && forall k :: 0 <= k < |invites| ==> PointsBack(invites, k)
  }

  lemma {:induction false} FoundAt(invites: seq<Invite>, j: nat)
    requires UniqueIds(invites) && j < |invites|
    ensures FindInvite(invites, invites[j].id) == Some(invites[j])
  {
    SameIdSameInvite(invites, invites[j], FindInvite(invites, invites[j].id).value);
  }

  /** No save of a sound room is rejected on lineage grounds. */
  lemma SoundIsValid(invites: seq<Invite>)
    requires Sound(invites)
    ensures LineageValid(invites) && !Dangles(invites)
  {
    forall k | 0 <= k < |invites| ensures PointerValid(invites, invites[k]) {
      assert PointsBack(invites, k);
      if invites[k].recoveryOf.Some? {
        var j :| 0 <= j < k && invites[j].id == invites[k].recoveryOf.value && Replaces(invites[k], invites[j]);
        FoundAt(invites, j);
      }
    }
    assert forall i :: i in invites ==> PointerValid(invites, i);
  }

  lemma {:induction false} AscendGoesBack(invites: seq<Invite>, k: nat, n: nat)
    requires Sound(invites) && k < |invites| && n > 0
    ensures var up := Ascend(invites, invites[k], n);
      up.Some? ==> exists j :: 0 <= j < k && invites[j] == up.value
    decreases n
  {
    var up := Ascend(invites, invites[k], n);
    if up.Some? {
      var below := Ascend(invites, invites[k], n - 1).value;
      if n > 1 { AscendGoesBack(invites, k, n - 1); }
      var b :| 0 <= b <= k && invites[b] == below;
      assert PointsBack(invites, b);
      var j :| 0 <= j < b && invites[j].id == invites[b].recoveryOf.value && Replaces(invites[b], invites[j]);
      FoundAt(invites, j);
    }
  }

  /** Every reachable lineage is acyclic, which the stored schema never says. */
  lemma SoundIsAcyclic(invites: seq<Invite>)
    requires Sound(invites)
    ensures Acyclic(invites)
  {
    forall i, n: nat | i in invites && n > 0 ensures Ascend(invites, i, n) != Some(i) {
      var k :| 0 <= k < |invites| && invites[k] == i;
      AscendGoesBack(invites, k, n);
    }
  }

  /** The schema alone allows a cycle: two revoked invites, each recorded as the replacement of the other. */
  lemma SchemaAllowsCycle()
    ensures var a := Invite("a", OneTime, "member", 1, [], Revoked, Some("b"), Some(true), 0);
      var b := Invite("b", OneTime, "member", 1, [], Revoked, Some("a"), Some(true), 0);
      var invites := [a, b];
      InviteValid(a) && InviteValid(b) && LineageValid(invites) && UniqueIds(invites) && !Acyclic(invites)
  {
    var a := Invite("a", OneTime, "member", 1, [], Revoked, Some("b"), Some(true), 0);
    var b := Invite("b", OneTime, "member", 1, [], Revoked, Some("a"), Some(true), 0);
    var invites := [a, b];
    FoundAt(invites, 0);
    FoundAt(invites, 1);
    assert Ascend(invites, a, 1) == Some(b);
    assert Ascend(invites, a, 2) == Some(a) && a in invites;
  }

  // ----- When a schema-valid lineage is acyclic --------------------------------------------------------

  /** Every pointer of the invites that satisfy `which` leads to an invite of lower rank. */
  ghost predicate Ranked(invites: seq<Invite>, rank: Invite -> nat, which: Invite -> bool) {
    forall i :: i in invites && i.recoveryOf.Some? && which(i) ==>
      var source := FindInvite(invites, i.recoveryOf.value);
      source.Some? ==> rank(source.value) < rank(i)
  }

  /** The only states in which an invite may be the source of a replacement. */
  predicate Spent(i: Invite) {
    i.state.Revoked? || i.state.ReplacementRequired?
  }

  predicate Any(i: Invite) { true }

  ghost function Above(invites: seq<Invite>, i: Invite): set<Invite> {
    set j | j in invites && Reaches(invites, i, j)
  }

  ghost function Height(invites: seq<Invite>, i: Invite): nat {
    |Above(invites, i)|
  }

  ghost predicate Reaches(invites: seq<Invite>, i: Invite, j: Invite) {
    exists n: nat :: n > 0 && Ascend(invites, i, n) == Some(j)
  }

  lemma {:induction false} RankFalls(invites: seq<Invite>, rank: Invite -> nat, i: Invite, n: nat)
    requires Ranked(invites, rank, Any) && i in invites && n > 0
    ensures var up := Ascend(invites, i, n); up.Some? ==> rank(up.value) < rank(i)
    decreases n
  {
    var below := Ascend(invites, i, n - 1);
    if n > 1 && below.Some? { RankFalls(invites, rank, i, n - 1); }
  }

  lemma {:induction false} SourceHasFewerAbove(invites: seq<Invite>, i: Invite, source: Invite)
    requires Acyclic(invites) && i in invites && i.recoveryOf.Some? && FindInvite(invites, i.recoveryOf.value) == Some(source)
    ensures |Above(invites, source)| < |Above(invites, i)|
  {
    assert Ascend(invites, i, 0) == Some(i) && Ascend(invites, i, 1) == Some(source);
    forall j | j in Above(invites, source) ensures j in Above(invites, i) {
      var n: nat :| n > 0 && Ascend(invites, source, n) == Some(j);
      AscendAdds(invites, i, 1, n);
    }
    assert source in Above(invites, i) && source !in Above(invites, source);
    StrictlyFewer(Above(invites, source), Above(invites, i), source);
  }

  lemma StrictlyFewer(a: set<Invite>, b: set<Invite>, x: Invite)
    requires a <= b && x in b && x !in a
    ensures |a| < |b|
  {
    assert b == (b - a) + a && x in b - a;
  }

  /** Acyclic means exactly that the invites can be ranked with every pointer leading down. */
  lemma AcyclicIffRanked(invites: seq<Invite>)
    ensures Acyclic(invites) <==> exists rank: Invite -> nat :: Ranked(invites, rank, Any)
  {
    if Acyclic(invites) {
      var rank: Invite -> nat := (i: Invite) => Height(invites, i);
      forall i | i in invites && i.recoveryOf.Some? && FindInvite(invites, i.recoveryOf.value).Some?
        ensures rank(FindInvite(invites, i.recoveryOf.value).value) < rank(i)
      {
        SourceHasFewerAbove(invites, i, FindInvite(invites, i.recoveryOf.value).value);
      }
      assert Ranked(invites, rank, Any);
    }
    if rank :| Ranked(invites, rank, Any) {
      forall i, n: nat | i in invites && n > 0 ensures Ascend(invites, i, n) != Some(i) {
        RankFalls(invites, rank, i, n);
      }
    }
  }

  /** On a cycle of a schema-valid lineage every invite is spent and replaces another spent one. */
  lemma {:induction false} OnlySpentInvitesCycle(invites: seq<Invite>, i: Invite, n: nat)
    requires LineageValid(invites) && i in invites && n > 0 && Ascend(invites, i, n) == Some(i)
    ensures Spent(i) && i.recoveryOf.Some?
    ensures i.state.ReplacementRequired? ==> FindInvite(invites, i.recoveryOf.value).value.state.Revoked?
  {
    var below := Ascend(invites, i, n - 1).value;
    var k :| 0 <= k < |invites| && invites[k] == below;
    assert PointerValid(invites, below);
    var up := Ascend(invites, i, 1);
    if up.None? { AscendStops(invites, i, 1, n); }
    var m :| 0 <= m < |invites| && invites[m] == i;
    assert PointerValid(invites, i);
  }

  /** What is not spent is nobody's source, so it may rank just above its own. */
  function RankAll(invites: seq<Invite>, rank: Invite -> nat, i: Invite): nat {
    if Spent(i) || i.recoveryOf.None? || FindInvite(invites, i.recoveryOf.value).None? then rank(i)
    else rank(FindInvite(invites, i.recoveryOf.value).value) + 1
  }

  /**
   The exact condition for the promise the schema does not keep: a lineage it accepts is acyclic if and
   only if the pointers of its spent invites alone can be ranked. Live, consumed and pending invites
   need no check: they are nobody's source.
   */
  lemma AcyclicIffSpentRanked(invites: seq<Invite>)
    requires LineageValid(invites)
    ensures Acyclic(invites) <==> exists rank: Invite -> nat :: Ranked(invites, rank, Spent)
  {
    AcyclicIffRanked(invites);
    if rank: Invite -> nat :| Ranked(invites, rank, Any) { assert Ranked(invites, rank, Spent); }
    if rank: Invite -> nat :| Ranked(invites, rank, Spent) {
      var whole: Invite -> nat := (i: Invite) => RankAll(invites, rank, i);
      forall i | i in invites && i.recoveryOf.Some? ensures
        var source := FindInvite(invites, i.recoveryOf.value);
        source.Some? ==> whole(source.value) < whole(i)
      {
        var k :| 0 <= k < |invites| && invites[k] == i;
        assert PointerValid(invites, i);
      }
      assert Ranked(invites, whole, Any);
    }
  }

  // ----- Operations ----------------------------------------------------------------------------------

  lemma StillPointBack(invites: seq<Invite>, more: seq<Invite>)
    requires Sound(invites) && invites <= more
    ensures forall k :: 0 <= k < |invites| ==> PointsBack(more, k)
  {
    forall k | 0 <= k < |invites| ensures PointsBack(more, k) {
      assert PointsBack(invites, k);
      if invites[k].recoveryOf.Some? {
        var j :| 0 <= j < k && invites[j].id == invites[k].recoveryOf.value && Replaces(invites[k], invites[j]);
        assert more[j] == invites[j] && more[k] == invites[k];
      }
    }
  }

  lemma PendingSource(invites: seq<Invite>, k: nat, j: nat)
    requires Sound(invites) && k < |invites| && j < |invites|
    requires invites[k].state.ReceiptPending? && invites[k].recoveryOf == Some(invites[j].id)
    ensures invites[j].state.ReplacementRequired?
  {
    assert PointsBack(invites, k);
    var s :| 0 <= s < k && invites[s].id == invites[k].recoveryOf.value && Replaces(invites[k], invites[s]);
    assert s == j;
  }

  lemma {:induction false} MintKeepsSound(invites: seq<Invite>, i: Invite)
    requires Sound(invites) && InviteValid(i) && i.recoveryOf.None? && FindInvite(invites, i.id).None?
    ensures Sound(invites + [i])
  {
    StillPointBack(invites, invites + [i]);
  }

  /** Mark the invites in `ids` revoked. */
  function Revoking(invites: seq<Invite>, ids: set<InviteId>): (r: seq<Invite>)
    ensures |r| == |invites|
  {
    seq(|invites|, k requires 0 <= k < |invites| => if invites[k].id in ids then invites[k].(state := Revoked) else invites[k])
  }

  function PendingChildren(invites: seq<Invite>, id: InviteId): set<InviteId> {
    set i | i in invites && i.state.ReceiptPending? && i.recoveryOf == Some(id) :: i.id
  }

  lemma OnlyTheNamed(invites: seq<Invite>, id: InviteId, i: Invite)
    requires UniqueIds(invites) && i in invites && i.id in PendingChildren(invites, id)
    ensures i.state.ReceiptPending? && i.recoveryOf == Some(id)
  {
    var other :| other in invites && other.state.ReceiptPending? && other.recoveryOf == Some(id) && other.id == i.id;
    SameIdSameInvite(invites, i, other);
  }

  /** Revoking the pending replacements of one invite keeps the lineage sound. */
  lemma RevokePendingKeepsSound(invites: seq<Invite>, id: InviteId)
    requires Sound(invites)
    ensures Sound(Revoking(invites, PendingChildren(invites, id)))
  {
    var ids := PendingChildren(invites, id);
    var after := Revoking(invites, ids);
    forall k | 0 <= k < |invites|
      ensures after[k] == invites[k] || (invites[k].state.ReceiptPending? && after[k] == invites[k].(state := Revoked))
    {
      assert invites[k] in invites;
      if invites[k].id in ids { OnlyTheNamed(invites, id, invites[k]); }
    }
    forall k, j | 0 <= j < k < |invites| && invites[k].recoveryOf == Some(invites[j].id) && after[j] != invites[j]
      ensures !after[k].state.ReceiptPending?
    {
      if invites[k].state.ReceiptPending? { PendingSource(invites, k, j); }
    }
    RevocationsKeepSound(invites, after);
  }

  /** Revocations are safe as long as no replacement is left pending on an invite that is now revoked. */
  lemma RevocationsKeepSound(invites: seq<Invite>, after: seq<Invite>)
    requires Sound(invites) && |after| == |invites|
    requires forall k :: 0 <= k < |invites| ==> after[k] == invites[k] || after[k] == invites[k].(state := Revoked)
    requires forall k, j :: 0 <= j < k < |invites| && invites[k].recoveryOf == Some(invites[j].id) && after[j] != invites[j] ==>
      !after[k].state.ReceiptPending?
    ensures Sound(after)
  {
    forall i | i in after ensures InviteValid(i) {
      var k :| 0 <= k < |after| && after[k] == i;
      assert invites[k] in invites;
    }
    forall k | 0 <= k < |after| ensures PointsBack(after, k) {
      assert PointsBack(invites, k) && invites[k] in invites;
      if after[k].recoveryOf.Some? {
        var j :| 0 <= j < k && invites[j].id == invites[k].recoveryOf.value && Replaces(invites[k], invites[j]);
        assert Replaces(after[k], after[j]);
      }
    }
  }

  /** `revokeInvite`: the invite itself and, when it awaits replacement, every pending replacement of it. */
  function Cascade(invites: seq<Invite>, i: Invite): set<InviteId> {
    {i.id} + if i.state.ReplacementRequired? then PendingChildren(invites, i.id) else {}
  }

  lemma CascadeKeepsSound(invites: seq<Invite>, i: Invite)
    requires Sound(invites) && i in invites
    ensures Sound(Revoking(invites, Cascade(invites, i)))
  {
    var ids := Cascade(invites, i);
    var after := Revoking(invites, ids);
    forall k, j | 0 <= j < k < |invites| && invites[k].recoveryOf == Some(invites[j].id) && after[j] != invites[j]
      ensures !after[k].state.ReceiptPending?
    {
      if invites[k].state.ReceiptPending? {
        PendingSource(invites, k, j);
        assert invites[j] in invites && invites[k] in invites;
        if invites[j].id != i.id { OnlyTheNamed(invites, i.id, invites[j]); }
        SameIdSameInvite(invites, invites[j], i);
        assert invites[k].id in PendingChildren(invites, i.id);
      }
    }
    RevocationsKeepSound(invites, after);
  }

  lemma {:induction false} ReplacementKeepsSound(invites: seq<Invite>, stale: Invite, i: Invite)
    requires Sound(invites) && stale in invites && stale.state.ReplacementRequired? && PendingChildren(invites, stale.id) == {}
    requires FindInvite(invites, i.id).None?
    requires i == Invite(i.id, stale.mode, stale.role, stale.minAccepts, [], ReceiptPending, Some(stale.id), Some(false), i.createdAt)
    ensures Sound(invites + [i])
  {
    var after := invites + [i];
    StillPointBack(invites, after);
    var j :| 0 <= j < |invites| && invites[j] == stale;
    assert after[j] == stale && PointsBack(after, |invites|);
    forall k | 0 <= k < |invites| && invites[k].state.ReceiptPending? ensures invites[k].recoveryOf != i.recoveryOf {
      assert invites[k] in invites && invites[k].id !in PendingChildren(invites, stale.id);
    }
  }

  /** `confirmRecoveredInvite`: the source is revoked and its pending replacement goes live. */
  function Confirming(invites: seq<Invite>, source: InviteId, replacement: InviteId): (r: seq<Invite>)
    ensures |r| == |invites|
  {
    seq(|invites|, k requires 0 <= k < |invites| =>
      if invites[k].id == source then invites[k].(state := Revoked)
      else if invites[k].id == replacement then invites[k].(accepted := [], state := Live, confirmed := Some(true))
      else invites[k])
  }

  lemma ConfirmingAt(invites: seq<Invite>, source: Invite, replacement: Invite, k: nat)
    requires Sound(invites) && source in invites && replacement in invites && source.id != replacement.id && k < |invites|
    ensures Confirming(invites, source.id, replacement.id)[k] ==
      if invites[k] == source then source.(state := Revoked)
      else if invites[k] == replacement then replacement.(accepted := [], state := Live, confirmed := Some(true))
      else invites[k]
  {
    assert invites[k] in invites;
    if invites[k].id == source.id { SameIdSameInvite(invites, invites[k], source); }
    if invites[k].id == replacement.id { SameIdSameInvite(invites, invites[k], replacement); }
  }

  /** A pending replacement other than the confirmed one has another source. */
  lemma OtherPending(invites: seq<Invite>, replacement: Invite, k: nat)
    requires Sound(invites) && replacement in invites && replacement.state.ReceiptPending? && k < |invites|
    requires invites[k].state.ReceiptPending? && invites[k] != replacement
    ensures invites[k].recoveryOf != replacement.recoveryOf
  {
    var r :| 0 <= r < |invites| && invites[r] == replacement;
  }

  lemma ConfirmKeepsPointers(invites: seq<Invite>, source: Invite, replacement: Invite, k: nat)
    requires Sound(invites) && source in invites && replacement in invites && source.id != replacement.id && k < |invites|
    requires source.state.ReplacementRequired? && replacement.state.ReceiptPending? && replacement.recoveryOf == Some(source.id)
    ensures PointsBack(Confirming(invites, source.id, replacement.id), k)
  {
    var after := Confirming(invites, source.id, replacement.id);
    assert PointsBack(invites, k);
    ConfirmingAt(invites, source, replacement, k);
    if invites[k].recoveryOf.Some? {
      var j :| 0 <= j < k && invites[j].id == invites[k].recoveryOf.value && Replaces(invites[k], invites[j]);
      ConfirmingAt(invites, source, replacement, j);
      if invites[k].state.ReceiptPending? && invites[k] != replacement { OtherPending(invites, replacement, k); }
      assert after[j].id == after[k].recoveryOf.value && Replaces(after[k], after[j]);
    }
  }

  lemma ConfirmKeepsSound(invites: seq<Invite>, source: Invite, replacement: Invite)
    requires Sound(invites) && source in invites && replacement in invites
    requires source.state.ReplacementRequired? && replacement.state.ReceiptPending? && replacement.recoveryOf == Some(source.id)
    ensures Sound(Confirming(invites, source.id, replacement.id))
  {
    var after := Confirming(invites, source.id, replacement.id);
    if source.id == replacement.id { SameIdSameInvite(invites, source, replacement); }
    forall k | 0 <= k < |invites| ensures PointsBack(after, k) && InviteValid(after[k]) {
      assert invites[k] in invites;
      ConfirmingAt(invites, source, replacement, k);
      ConfirmKeepsPointers(invites, source, replacement, k);
    }
    forall i | i in after ensures InviteValid(i) {
      var k :| 0 <= k < |after| && after[k] == i;
    }
  }

  /** What reconciliation may do to one invite: live ones are consumed or found missing; accepts are recounted. */
  predicate ReconciledTo(i: Invite, i': Invite) {
    && i' == i.(accepted := i'.accepted, state := i'.state)
    && (i.state.Live? ==> i'.state.Live? || i'.state.Consumed? || i'.state.ReplacementRequired?)
    && (!i.state.Live? ==> i'.state == i.state)
    && (i.state.ReceiptPending? ==> i'.accepted == [])
  }

  lemma ReconcileKeepsSound(invites: seq<Invite>, after: seq<Invite>)
    requires Sound(invites) && |after| == |invites|
    requires forall k :: 0 <= k < |invites| ==> ReconciledTo(invites[k], after[k])
    ensures Sound(after)
  {
    forall i | i in after ensures InviteValid(i) {
      var k :| 0 <= k < |after| && after[k] == i;
      assert invites[k] in invites;
    }
    forall k | 0 <= k < |after| ensures PointsBack(after, k) {
      assert PointsBack(invites, k);
      if after[k].recoveryOf.Some? {
        var j :| 0 <= j < k && invites[j].id == invites[k].recoveryOf.value && Replaces(invites[k], invites[j]);
        assert Replaces(after[k], after[j]);
      }
    }
  }
}
