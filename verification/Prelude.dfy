/** Shared value types and the few sequence facts the other modules lean on. */
module Prelude {

  datatype Option<+T> = None | Some(value: T)

  /** Keep the elements of `s` that satisfy `p`, in order: JavaScript's `filter`. */
  function Filter<T(!new)>(s: seq<T>, p: T -> bool): (r: seq<T>)
    ensures |r| <= |s|
    ensures forall x :: x in r <==> x in s && p(x)
    ensures Distinct(s) ==> Distinct(r)
  {
    if s == [] then [] else
      var rest := Filter(s[..|s| - 1], p);
      assert s == s[..|s| - 1] + [s[|s| - 1]];
      if p(s[|s| - 1]) then rest + [s[|s| - 1]] else rest
  }

  ghost predicate Distinct<T>(s: seq<T>) {
    forall i, j :: 0 <= i < j < |s| ==> s[i] != s[j]
  }

  lemma {:induction false} FilterNone<T(!new)>(s: seq<T>, p: T -> bool)
    requires forall x :: x in s ==> !p(x)
    ensures Filter(s, p) == []
  {
    if s != [] {
      FilterNone(s[..|s| - 1], p);
    }
  }

  /** Exactly the element at `k` is kept. */
  ghost predicate OnlyAt<T(!new)>(s: seq<T>, p: T -> bool, k: nat) {
    k < |s| && p(s[k]) && forall j :: 0 <= j < |s| && j != k ==> !p(s[j])
  }

  lemma {:induction false} FilterKeepsOne<T(!new)>(s: seq<T>, p: T -> bool)
    ensures |Filter(s, p)| == 1 ==> exists k: nat :: OnlyAt(s, p, k) && Filter(s, p) == [s[k]]
    ensures forall k: nat :: OnlyAt(s, p, k) ==> Filter(s, p) == [s[k]]
  {
    if s != [] {
      var init := s[..|s| - 1];
      FilterKeepsOne(init, p);
      if p(s[|s| - 1]) && Filter(init, p) == [] {
        forall j | 0 <= j < |init| ensures !p(s[j]) { assert s[j] in init; }
        assert OnlyAt(s, p, |s| - 1);
      } else if !p(s[|s| - 1]) && |Filter(init, p)| == 1 {
        var k: nat :| OnlyAt(init, p, k) && Filter(init, p) == [init[k]];
        assert OnlyAt(s, p, k);
      }
      forall k: nat | OnlyAt(s, p, k) ensures Filter(s, p) == [s[k]] {
        if k < |s| - 1 { assert OnlyAt(init, p, k); } else { FilterNone(init, p); }
      }
    }
  }

  /** The first kept element, and the rest as a filter of its own. */
  lemma {:induction false} FilterSplitsFirst<T(!new)>(s: seq<T>, p: T -> bool, q: T -> bool, k: nat)
    requires k < |s| && p(s[k]) && forall i :: 0 <= i < k ==> !p(s[i])
    requires (forall i :: 0 <= i <= k ==> !q(s[i])) && forall i :: k < i < |s| ==> q(s[i]) == p(s[i])
    ensures Filter(s, p) == [s[k]] + Filter(s, q)
  {
    var init := s[..|s| - 1];
    if k == |s| - 1 {
      FilterNone(init, p);
      FilterNone(init, q);
    } else {
      FilterSplitsFirst(init, p, q, k);
    }
  }

  lemma {:induction false} FirstKept<T(!new)>(s: seq<T>, p: T -> bool) returns (k: nat)
    requires Filter(s, p) != []
    ensures k < |s| && p(s[k]) && (forall i :: 0 <= i < k ==> !p(s[i])) && Filter(s, p)[0] == s[k]
  {
    var init := s[..|s| - 1];
    if Filter(init, p) == [] {
      k := |s| - 1;
      forall i | 0 <= i < k ensures !p(s[i]) { assert s[i] in init; }
    } else {
      k := FirstKept(init, p);
    }
  }

  lemma {:induction false} FilterAgree<T(!new)>(s: seq<T>, p: T -> bool, q: T -> bool)
    requires forall x :: x in s ==> p(x) == q(x)
    ensures Filter(s, p) == Filter(s, q)
  {
    if s != [] {
      FilterAgree(s[..|s| - 1], p, q);
    }
  }

  lemma {:induction false} DistinctFits<T(!new)>(a: seq<T>, b: seq<T>)
    requires Distinct(a) && forall x :: x in a ==> x in b
    ensures |a| <= |b|
  {
    if a != [] {
      var last, init := a[|a| - 1], a[..|a| - 1];
      assert last in a;
      var k :| 0 <= k < |b| && b[k] == last;
      var without := b[..k] + b[k + 1..];
      forall x | x in init ensures x in without {
        var i :| 0 <= i < |init| && init[i] == x;
        assert a[i] == x && x in a;
        var j :| 0 <= j < |b| && b[j] == x;
        assert j != k;
        assert x == if j < k then without[j] else without[j - 1];
      }
      DistinctFits(init, without);
    }
  }

  /** Whether the process dies, or a storage call throws, at this point; never in a steady run. */
  method Interrupted(steady: bool) returns (now: bool)
    ensures steady ==> !now
  {
    now := *;
    if steady { now := false; }
  }
}
