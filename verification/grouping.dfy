/** Grouping records into an insertion-ordered dictionary, the loop every summary
    runs: a record whose key is new starts a group (from a copy of that record), and
    every record is then added to its key's group. */
module Grouping {
  import opened Wrappers
  import opened OrderedMaps

  /** The records with key `k`, in order. */
  function Only<K(==), T>(xs: seq<T>, key: T -> K, k: K): (r: seq<T>)
    ensures |r| <= |xs|
    ensures forall i :: 0 <= i < |r| ==> key(r[i]) == k
    decreases |xs|
  {
    if |xs| == 0 then []
    else Only(xs[..|xs| - 1], key, k) + (if key(xs[|xs| - 1]) == k then [xs[|xs| - 1]] else [])
  }

  /** Adding records one after the other, left to right. */
  function FoldLeft<T, R>(r0: R, xs: seq<T>, add: (R, T) -> R): R
    decreases |xs|
  {
    if |xs| == 0 then r0 else add(FoldLeft(r0, xs[..|xs| - 1], add), xs[|xs| - 1])
  }

  /** Some record has key `k`. */
  predicate HasKey<K(==), T>(xs: seq<T>, key: T -> K, k: K) {
    exists i :: 0 <= i < |xs| && key(xs[i]) == k
  }

  /** The groups: `if k not in ret: ret[k] = start(x)` then `ret[k] = add(ret[k], x)`. */
  function GroupBy<K(==,!new), T, R>(xs: seq<T>, key: T -> K, start: T -> R, add: (R, T) -> R): (r: seq<(K, R)>)
    ensures DistinctKeys(r)
    ensures forall k :: k in Keys(r) <==> HasKey(xs, key, k)
    decreases |xs|
  {
    if |xs| == 0 then []
    else
      var prev := GroupBy(xs[..|xs| - 1], key, start, add);
      var x := xs[|xs| - 1];
      HasKeySnoc(xs, key);
      Put(prev, key(x), add(Current(prev, key(x), start(x)), x))
  }

  /** The value a record is added to: its key's group, or a fresh start. */
  function Current<K(==), R>(groups: seq<(K, R)>, k: K, start0: R): R {
    if k in Keys(groups) then Get(groups, k).value else start0
  }

  lemma HasKeySnoc<K, T>(xs: seq<T>, key: T -> K)
    requires |xs| > 0
    ensures forall k :: HasKey(xs, key, k) <==> HasKey(xs[..|xs| - 1], key, k) || key(xs[|xs| - 1]) == k
  {
    var init := xs[..|xs| - 1];
    forall k | HasKey(xs, key, k)
      ensures HasKey(init, key, k) || key(xs[|xs| - 1]) == k
    {
      var i :| 0 <= i < |xs| && key(xs[i]) == k;
      if i < |xs| - 1 { assert init[i] == xs[i]; }
    }
    forall k | HasKey(init, key, k)
      ensures HasKey(xs, key, k)
    {
      var i :| 0 <= i < |init| && key(init[i]) == k;
      assert init[i] == xs[i];
    }
  }

  /** A key has records exactly when some record carries it. */
  lemma {:induction false} OnlyEmpty<K, T>(xs: seq<T>, key: T -> K, k: K)
    ensures |Only(xs, key, k)| > 0 <==> HasKey(xs, key, k)
    decreases |xs|
  {
    if |xs| > 0 {
      HasKeySnoc(xs, key);
      OnlyEmpty(xs[..|xs| - 1], key, k);
    }
  }

  /** The group of a key is its records folded in from a copy of its first record:
      the other keys' records never touch it. */
  lemma {:induction false} GroupByIsFold<K(!new), T, R>(xs: seq<T>, key: T -> K, start: T -> R, add: (R, T) -> R, k: K)
    requires HasKey(xs, key, k)
    ensures var ys := Only(xs, key, k);
      |ys| > 0 && Get(GroupBy(xs, key, start, add), k) == Some(FoldLeft(start(ys[0]), ys, add))
    decreases |xs|
  {
    OnlyEmpty(xs, key, k);
    var init := xs[..|xs| - 1];
    var x := xs[|xs| - 1];
    var prev := GroupBy(init, key, start, add);
    var ys := Only(xs, key, k);
    var ys' := Only(init, key, k);
    HasKeySnoc(xs, key);
    if key(x) != k {
      assert ys == ys';
      GroupByIsFold(init, key, start, add, k);
    } else if k in Keys(prev) {
      GroupByIsFold(init, key, start, add, k);
      GroupSnoc(ys', x, start, add);
    } else {
      OnlyEmpty(init, key, k);
      assert ys == [x];
      assert ys[..0] == [];
    }
  }

  lemma GroupSnoc<T, R>(ys': seq<T>, x: T, start: T -> R, add: (R, T) -> R)
    requires |ys'| > 0
    ensures FoldLeft(start(ys'[0]), ys' + [x], add) == add(FoldLeft(start(ys'[0]), ys', add), x)
    ensures (ys' + [x])[0] == ys'[0]
  {
    assert (ys' + [x])[..|ys'|] == ys';
  }

  /** The first record of a group is the first record with its key. */
  lemma {:induction false} OnlyHead<K, T>(xs: seq<T>, key: T -> K, k: K)
    requires HasKey(xs, key, k)
    ensures |Only(xs, key, k)| > 0
    ensures exists i :: (0 <= i < |xs| && key(xs[i]) == k && Only(xs, key, k)[0] == xs[i]
      && forall j :: 0 <= j < i ==> key(xs[j]) != k)
    decreases |xs|
  {
    OnlyEmpty(xs, key, k);
    var init := xs[..|xs| - 1];
    HasKeySnoc(xs, key);
    if HasKey(init, key, k) {
      OnlyHead(init, key, k);
      OnlyEmpty(init, key, k);
      var i :| (0 <= i < |init| && key(init[i]) == k && Only(init, key, k)[0] == init[i]
        && forall j :: 0 <= j < i ==> key(init[j]) != k);
      assert Only(xs, key, k)[0] == Only(init, key, k)[0];
      assert forall j :: 0 <= j < i ==> xs[j] == init[j];
    } else {
      OnlyEmpty(init, key, k);
      forall j | 0 <= j < |xs| - 1
        ensures key(xs[j]) != k
      {
        assert xs[j] == init[j];
      }
    }
  }

  /** The number of records satisfying `p`. */
  function CountWhere<T>(xs: seq<T>, p: T -> bool): (n: nat)
    ensures n <= |xs|
    decreases |xs|
  {
    if |xs| == 0 then 0 else CountWhere(xs[..|xs| - 1], p) + (if p(xs[|xs| - 1]) then 1 else 0)
  }

  // ---------------------------------------------------------------------------
  // totals over the groups

  /** The sum of `f` over the groups' values. */
  function SumOver<K, R>(g: seq<(K, R)>, f: R -> int): int
    decreases |g|
  {
    if |g| == 0 then 0 else SumOver(g[..|g| - 1], f) + f(g[|g| - 1].1)
  }

  /** The sum of `w` over the records. */
  function WeightOf<T>(xs: seq<T>, w: T -> int): int
    decreases |xs|
  {
    if |xs| == 0 then 0 else WeightOf(xs[..|xs| - 1], w) + w(xs[|xs| - 1])
  }

  /** Every record weighs one. */
  function One<T>(x: T): int {
    1
  }

  /** With unit weights the weight is the number of records. */
  lemma {:induction false} WeightOfOnes<T>(xs: seq<T>)
    ensures WeightOf(xs, One) == |xs|
    decreases |xs|
  {
    if |xs| > 0 {
      WeightOfOnes(xs[..|xs| - 1]);
    }
  }

  /** The sum of a sequence of integers. */
  function SumInts(xs: seq<int>): int
    decreases |xs|
  {
    if |xs| == 0 then 0 else SumInts(xs[..|xs| - 1]) + xs[|xs| - 1]
  }

  /** Positive integers sum to at least their number. */
  lemma {:induction false} SumIntsAtLeast(xs: seq<int>)
    requires forall i :: 0 <= i < |xs| ==> xs[i] >= 1
    ensures SumInts(xs) >= |xs|
    decreases |xs|
  {
    if |xs| > 0 {
      SumIntsAtLeast(xs[..|xs| - 1]);
    }
  }

  lemma {:induction false} SumOverUpdate<K, R>(m: seq<(K, R)>, i: int, e: (K, R), f: R -> int)
    requires 0 <= i < |m|
    ensures SumOver(m[i := e], f) == SumOver(m, f) - f(m[i].1) + f(e.1)
    decreases |m|
  {
    if i < |m| - 1 {
      assert m[i := e][..|m| - 1] == m[..|m| - 1][i := e];
      SumOverUpdate(m[..|m| - 1], i, e, f);
    } else {
      assert m[i := e][..|m| - 1] == m[..|m| - 1];
    }
  }

  /** Assigning a key replaces its value's share of the sum, or adds a new share. */
  lemma SumOverPut<K(!new), R>(m: seq<(K, R)>, k: K, v: R, f: R -> int)
    ensures SumOver(Put(m, k, v), f) == SumOver(m, f) + f(v) - (if k in Keys(m) then f(Get(m, k).value) else 0)
  {
    var i := IndexOf(m, k);
    if i < 0 {
      assert (m + [(k, v)])[..|m|] == m;
    } else {
      SumOverUpdate(m, i, (k, v), f);
    }
  }

  /** When every record adds `w` of itself to a group's `f` and a fresh group has none,
      the groups' `f` add up to the records' `w`: grouping loses and duplicates nothing. */
  lemma {:induction false} GroupSum<K(!new), T, R>(xs: seq<T>, key: T -> K, start: T -> R, add: (R, T) -> R, f: R -> int, w: T -> int)
    requires forall x :: f(start(x)) == 0
    requires forall r, x :: f(add(r, x)) == f(r) + w(x)
    ensures SumOver(GroupBy(xs, key, start, add), f) == WeightOf(xs, w)
    decreases |xs|
  {
    if |xs| > 0 {
      var init := xs[..|xs| - 1];
      var x := xs[|xs| - 1];
      var prev := GroupBy(init, key, start, add);
      var row := Current(prev, key(x), start(x));
      GroupSum(init, key, start, add, f, w);
      AddsWeight(add, f, w, row, x);
      GroupSumStep(prev, key(x), row, add(row, x), f, w(x), start(x));
      assert GroupBy(xs, key, start, add) == Put(prev, key(x), add(row, x));
      assert WeightOf(xs, w) == WeightOf(init, w) + w(x);
    }
  }

  lemma AddsWeight<T, R>(add: (R, T) -> R, f: R -> int, w: T -> int, row: R, x: T)
    requires forall r, y :: f(add(r, y)) == f(r) + w(y)
    ensures f(add(row, x)) == f(row) + w(x)
  {
  }

  lemma GroupSumStep<K(!new), R>(prev: seq<(K, R)>, k: K, row: R, next: R, f: R -> int, wx: int, start0: R)
    requires row == Current(prev, k, start0)
    requires f(start0) == 0 && f(next) == f(row) + wx
    ensures SumOver(Put(prev, k, next), f) == SumOver(prev, f) + wx
  {
    SumOverPut(prev, k, next, f);
  }

  /** Sums of two dictionaries whose values agree position by position are equal. */
  lemma {:induction false} SumOverPointwise<K1, R1, K2, R2>(a: seq<(K1, R1)>, b: seq<(K2, R2)>, f: R1 -> int, g: R2 -> int)
    requires |a| == |b| && forall i :: 0 <= i < |a| ==> f(a[i].1) == g(b[i].1)
    ensures SumOver(a, f) == SumOver(b, g)
    decreases |a|
  {
    if |a| > 0 {
      SumOverPointwise(a[..|a| - 1], b[..|b| - 1], f, g);
    }
  }
}
