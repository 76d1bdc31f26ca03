/** `sort_dict(dictionary, subkey)`: an insertion sort of a dictionary's entries into
    non-increasing order of one numeric field of their values. A new entry goes before
    the first placed entry it strictly exceeds, so entries with equal fields keep the
    order they had. */
module SortDict {
  import opened OrderedMaps

  /** The position a value with field `s` is inserted at: before the first placed entry
      whose field is strictly smaller, or at the end. */
  function InsertPos<K, V>(sorted: seq<(K, V)>, score: V -> int, s: int): (i: nat)
    ensures i <= |sorted|
    ensures forall j :: 0 <= j < i ==> score(sorted[j].1) >= s
    ensures i < |sorted| ==> s > score(sorted[i].1)
    decreases |sorted|
  {
    if |sorted| == 0 then 0
    else if s > score(sorted[0].1) then 0
    else
      var i := InsertPos(sorted[1..], score, s);
      assert forall j :: 1 <= j < i + 1 ==> sorted[j] == sorted[1..][j - 1];
      1 + i
  }

  function Place<K, V>(sorted: seq<(K, V)>, e: (K, V), score: V -> int): seq<(K, V)> {
    var i := InsertPos(sorted, score, score(e.1));
    sorted[..i] + [e] + sorted[i..]
  }

  /** The sorted dictionary: each entry, in the input's order, placed into the result
      built so far. */
  function Sort<K, V>(d: seq<(K, V)>, score: V -> int): seq<(K, V)>
    decreases |d|
  {
    if |d| == 0 then [] else Place(Sort(d[..|d| - 1], score), d[|d| - 1], score)
  }

  predicate NonIncreasing<K, V>(xs: seq<(K, V)>, score: V -> int) {
    forall i, j :: 0 <= i < j < |xs| ==> score(xs[i].1) >= score(xs[j].1)
  }

  /** The entries whose field is `s`, in order. */
  function WithScore<K, V>(xs: seq<(K, V)>, score: V -> int, s: int): seq<(K, V)>
    decreases |xs|
  {
    if |xs| == 0 then []
    else WithScore(xs[..|xs| - 1], score, s) + (if score(xs[|xs| - 1].1) == s then [xs[|xs| - 1]] else [])
  }

  lemma {:induction false} WithScoreAppend<K, V>(a: seq<(K, V)>, b: seq<(K, V)>, score: V -> int, s: int)
    ensures WithScore(a + b, score, s) == WithScore(a, score, s) + WithScore(b, score, s)
    decreases |b|
  {
    if |b| == 0 {
      assert a + b == a;
    } else {
      assert (a + b)[..|a + b| - 1] == a + b[..|b| - 1];
      WithScoreAppend(a, b[..|b| - 1], score, s);
    }
  }

  lemma {:induction false} WithScoreNone<K, V>(xs: seq<(K, V)>, score: V -> int, s: int)
    requires forall j :: 0 <= j < |xs| ==> score(xs[j].1) < s
    ensures WithScore(xs, score, s) == []
    decreases |xs|
  {
    if |xs| > 0 {
      WithScoreNone(xs[..|xs| - 1], score, s);
    }
  }

  lemma PlaceMultiset<K, V>(sorted: seq<(K, V)>, e: (K, V), score: V -> int)
    ensures multiset(Place(sorted, e, score)) == multiset(sorted) + multiset{e}
  {
    var i := InsertPos(sorted, score, score(e.1));
    assert sorted == sorted[..i] + sorted[i..];
  }

  /** Everything placed at or after the insertion position is strictly smaller. */
  lemma AfterPosSmaller<K, V>(sorted: seq<(K, V)>, score: V -> int, s: int)
    requires NonIncreasing(sorted, score)
    ensures var i := InsertPos(sorted, score, s);
      forall j :: i <= j < |sorted| ==> score(sorted[j].1) < s
  {
    var i := InsertPos(sorted, score, s);
    forall j | i <= j < |sorted|
      ensures score(sorted[j].1) < s
    {
      assert score(sorted[i].1) >= score(sorted[j].1);
    }
  }

  /** Placing an entry into a sorted list keeps it sorted. */
  lemma PlaceOrdered<K, V>(sorted: seq<(K, V)>, e: (K, V), score: V -> int)
    requires NonIncreasing(sorted, score)
    ensures NonIncreasing(Place(sorted, e, score), score)
  {
    AfterPosSmaller(sorted, score, score(e.1));
    InsertOrdered(sorted, InsertPos(sorted, score, score(e.1)), e, score);
  }

  /** Inserting an entry between the entries with a field at least its own and those
      with a smaller one keeps a sorted list sorted. */
  lemma InsertOrdered<K, V>(sorted: seq<(K, V)>, i: int, e: (K, V), score: V -> int)
    requires 0 <= i <= |sorted| && NonIncreasing(sorted, score)
    requires forall j :: 0 <= j < i ==> score(sorted[j].1) >= score(e.1)
    requires forall j :: i <= j < |sorted| ==> score(sorted[j].1) < score(e.1)
    ensures NonIncreasing(sorted[..i] + [e] + sorted[i..], score)
  {
    var r := sorted[..i] + [e] + sorted[i..];
    forall a, b | 0 <= a < b < |r|
      ensures score(r[a].1) >= score(r[b].1)
    {
      if a < i && b < i {
        assert r[a] == sorted[a] && r[b] == sorted[b];
      } else if a < i && b == i {
        assert r[a] == sorted[a];
      } else if a < i {
        assert r[a] == sorted[a] && r[b] == sorted[b - 1];
      } else if a == i {
        assert r[b] == sorted[b - 1];
      } else {
        assert r[a] == sorted[a - 1] && r[b] == sorted[b - 1];
      }
    }
  }

  /** Placing an entry into a sorted list puts it after every entry with its field. */
  lemma PlaceWithScore<K, V>(sorted: seq<(K, V)>, e: (K, V), score: V -> int, s: int)
    requires NonIncreasing(sorted, score)
    ensures WithScore(Place(sorted, e, score), score, s)
      == WithScore(sorted, score, s) + (if score(e.1) == s then [e] else [])
  {
    AfterPosSmaller(sorted, score, score(e.1));
    InsertWithScore(sorted, InsertPos(sorted, score, score(e.1)), e, score, s);
  }

  /** Inserting an entry before a run of strictly smaller fields puts it after every
      entry with its field. */
  lemma InsertWithScore<K, V>(sorted: seq<(K, V)>, i: int, e: (K, V), score: V -> int, s: int)
    requires 0 <= i <= |sorted|
    requires forall j :: i <= j < |sorted| ==> score(sorted[j].1) < score(e.1)
    ensures WithScore(sorted[..i] + [e] + sorted[i..], score, s)
      == WithScore(sorted, score, s) + (if score(e.1) == s then [e] else [])
  {
    assert sorted == sorted[..i] + sorted[i..];
    WithScoreAppend(sorted[..i] + [e], sorted[i..], score, s);
    WithScoreAppend(sorted[..i], [e], score, s);
    WithScoreAppend(sorted[..i], sorted[i..], score, s);
    assert [e][..0] == [];
    if score(e.1) == s {
      WithScoreNone(sorted[i..], score, s);
    }
  }

  /** `sort_dict` returns the same entries: a permutation of its input. */
  lemma {:induction false} SortPermutes<K, V>(d: seq<(K, V)>, score: V -> int)
    ensures multiset(Sort(d, score)) == multiset(d)
    decreases |d|
  {
    if |d| > 0 {
      var init := d[..|d| - 1];
      SortPermutes(init, score);
      PlaceMultiset(Sort(init, score), d[|d| - 1], score);
      assert d == init + [d[|d| - 1]];
    }
  }

  /** `sort_dict` orders entries by non-increasing field. */
  lemma {:induction false} SortOrdered<K, V>(d: seq<(K, V)>, score: V -> int)
    ensures NonIncreasing(Sort(d, score), score)
    decreases |d|
  {
    if |d| > 0 {
      SortOrdered(d[..|d| - 1], score);
      PlaceOrdered(Sort(d[..|d| - 1], score), d[|d| - 1], score);
    }
  }

  /** `sort_dict` is stable: the entries with any one field value come out in their
      input order. */
  lemma {:induction false} SortStable<K, V>(d: seq<(K, V)>, score: V -> int, s: int)
    ensures WithScore(Sort(d, score), score, s) == WithScore(d, score, s)
    decreases |d|
  {
    if |d| > 0 {
      var init := d[..|d| - 1];
      SortStable(init, score, s);
      SortOrdered(init, score);
      PlaceWithScore(Sort(init, score), d[|d| - 1], score, s);
    }
  }

  /** The sorted dictionary holds exactly the input's entries. */
  lemma SortKeepsEntries<K, V>(d: seq<(K, V)>, score: V -> int)
    ensures forall e :: e in Sort(d, score) <==> e in d
    ensures |Sort(d, score)| == |d|
  {
    SortPermutes(d, score);
    assert forall e :: e in Sort(d, score) <==> e in multiset(Sort(d, score));
    assert |multiset(Sort(d, score))| == |multiset(d)|;
  }

  /** An entry is in the sorted dictionary exactly when it is in the input. */
  lemma SortedHas<K, V>(d: seq<(K, V)>, score: V -> int, e: (K, V))
    ensures e in Sort(d, score) <==> e in d
  {
    SortPermutes(d, score);
    assert e in Sort(d, score) <==> e in multiset(Sort(d, score));
    assert e in d <==> e in multiset(d);
  }

  /** Each sorted entry sits somewhere in the input. */
  lemma SortedFrom<K, V>(d: seq<(K, V)>, score: V -> int, i: int)
    requires 0 <= i < |Sort(d, score)|
    ensures exists j :: 0 <= j < |d| && d[j] == Sort(d, score)[i]
  {
    SortPermutes(d, score);
    var e := Sort(d, score)[i];
    assert e in multiset(Sort(d, score));
    assert e in multiset(d);
    var j :| 0 <= j < |d| && d[j] == e;
  }

  /** Distinct keys stay distinct, so the result is again a dictionary. */
  lemma {:induction false} SortDistinct<K, V>(d: seq<(K, V)>, score: V -> int)
    requires DistinctKeys(d)
    ensures DistinctKeys(Sort(d, score))
    decreases |d|
  {
    if |d| > 0 {
      var init := d[..|d| - 1];
      var e := d[|d| - 1];
      SortDistinct(init, score);
      var sorted := Sort(init, score);
      forall x | x in sorted
        ensures x.0 != e.0
      {
        SortedHas(init, score, x);
        var j :| 0 <= j < |init| && init[j] == x;
        assert d[j] == x && d[|d| - 1] == e;
      }
      InsertDistinct(sorted, InsertPos(sorted, score, score(e.1)), e);
    }
  }

  /** Inserting an entry with a new key keeps the keys distinct. */
  lemma InsertDistinct<K, V>(sorted: seq<(K, V)>, i: int, e: (K, V))
    requires 0 <= i <= |sorted| && DistinctKeys(sorted)
    requires forall x :: x in sorted ==> x.0 != e.0
    ensures DistinctKeys(sorted[..i] + [e] + sorted[i..])
  {
    var r := sorted[..i] + [e] + sorted[i..];
    forall a, b | 0 <= a < b < |r|
      ensures r[a].0 != r[b].0
    {
      if a == i || b == i {
        var other := if a == i then r[b] else r[a];
        assert other in sorted;
      } else {
        var a' := if a < i then a else a - 1;
        var b' := if b < i then b else b - 1;
        assert r[a] == sorted[a'] && r[b] == sorted[b'];
      }
    }
  }

  function Total(n: int): int {
    n
  }

  /** Totals 5, 9 and 3 come out as 9, 5, 3. */
  lemma SortExample()
    ensures Sort([("a", 5), ("b", 9), ("c", 3)], Total) == [("b", 9), ("a", 5), ("c", 3)]
  {
    var d: seq<(string, int)> := [("a", 5), ("b", 9), ("c", 3)];
    var none: seq<(string, int)> := [];
    assert d[..2] == [("a", 5), ("b", 9)];
    assert d[..2][..1] == [("a", 5)];
    assert d[..2][..1][..0] == none;
    assert Sort([("a", 5)], Total) == [("a", 5)];
    assert Sort(d[..2], Total) == [("b", 9), ("a", 5)];
  }
}
