/** Insertion-ordered dictionaries (Python's `dict` / `OrderedDict`) as sequences of
    key-value pairs with distinct keys. Assigning to an existing key replaces its
    value in place; a new key goes to the end. */
module OrderedMaps {
  import opened Wrappers

  function Keys<K, V>(m: seq<(K, V)>): (r: seq<K>)
    ensures |r| == |m| && forall i :: 0 <= i < |m| ==> r[i] == m[i].0
  {
    seq(|m|, i requires 0 <= i < |m| => m[i].0)
  }

  predicate DistinctKeys<K(==), V>(m: seq<(K, V)>) {
    forall i, j :: 0 <= i < j < |m| ==> m[i].0 != m[j].0
  }

  /** The position of key `k`, or -1. */
  function IndexOf<K(==), V>(m: seq<(K, V)>, k: K): (r: int)
    ensures -1 <= r < |m|
    ensures r == -1 <==> k !in Keys(m)
    ensures r >= 0 ==> m[r].0 == k && forall j :: 0 <= j < r ==> m[j].0 != k
    decreases |m|
  {
    if |m| == 0 then -1
    else if m[0].0 == k then 0
    else
      var r := IndexOf(m[1..], k);
      IndexInTail(m, k, r);
      if r < 0 then -1 else r + 1
  }

  /** A key missed at the head is found in the tail one place further on. */
  lemma IndexInTail<K, V>(m: seq<(K, V)>, k: K, r: int)
    requires |m| > 0 && m[0].0 != k && -1 <= r < |m| - 1
    requires r == -1 <==> k !in Keys(m[1..])
    requires r >= 0 ==> m[1..][r].0 == k && forall j :: 0 <= j < r ==> m[1..][j].0 != k
    ensures r == -1 <==> k !in Keys(m)
    ensures r >= 0 ==> m[r + 1].0 == k && forall j :: 0 <= j < r + 1 ==> m[j].0 != k
  {
    assert Keys(m) == [m[0].0] + Keys(m[1..]);
    if r >= 0 {
      forall j | 0 < j < r + 1 ensures m[j].0 != k {
        assert m[j] == m[1..][j - 1];
      }
    }
  }

  /** `d.get(k)`. */
  function Get<K(==), V>(m: seq<(K, V)>, k: K): (r: Option<V>)
    ensures r.Some? <==> k in Keys(m)
    ensures r.Some? ==> exists i :: 0 <= i < |m| && m[i] == (k, r.value)
  {
    var i := IndexOf(m, k);
    if i < 0 then None else Some(m[i].1)
  }

  /** With distinct keys, the entry at a position is what `Get` finds for its key. */
  lemma GetAt<K, V>(m: seq<(K, V)>, i: int)
    requires DistinctKeys(m) && 0 <= i < |m|
    ensures Get(m, m[i].0) == Some(m[i].1)
  {
    assert m[i].0 in Keys(m);
  }

  /** `d[k] = v`. */
  function Put<K(==,!new), V>(m: seq<(K, V)>, k: K, v: V): (r: seq<(K, V)>)
    ensures Keys(r) == if k in Keys(m) then Keys(m) else Keys(m) + [k]
    ensures Get(r, k) == Some(v)
    ensures forall k' :: k' != k ==> Get(r, k') == Get(m, k')
    ensures DistinctKeys(m) ==> DistinctKeys(r)
  {
    var i := IndexOf(m, k);
    if i < 0 then
      var r := m + [(k, v)];
      assert Keys(r) == Keys(m) + [k];
      assert forall k' :: k' != k ==> IndexOf(r, k') == IndexOf(m, k') by {
        forall k' | k' != k
          ensures IndexOf(r, k') == IndexOf(m, k')
        {
          IndexOfAppend(m, k, v, k');
        }
      }
      r
    else
      var r := m[i := (k, v)];
      assert Keys(r) == Keys(m);
      assert forall k' :: k' != k ==> IndexOf(r, k') == IndexOf(m, k') by {
        forall k' | k' != k
          ensures IndexOf(r, k') == IndexOf(m, k')
        {
          IndexOfUpdate(m, i, k, v, k');
        }
      }
      r
  }

  lemma {:induction false} IndexOfAppend<K, V>(m: seq<(K, V)>, k: K, v: V, k': K)
    requires k' != k
    ensures IndexOf(m + [(k, v)], k') == IndexOf(m, k')
    decreases |m|
  {
    if |m| > 0 && m[0].0 != k' {
      assert (m + [(k, v)])[1..] == m[1..] + [(k, v)];
      IndexOfAppend(m[1..], k, v, k');
    }
  }

  lemma {:induction false} IndexOfUpdate<K, V>(m: seq<(K, V)>, i: int, k: K, v: V, k': K)
    requires 0 <= i < |m| && m[i].0 == k && k' != k
    ensures IndexOf(m[i := (k, v)], k') == IndexOf(m, k')
    decreases |m|
  {
    if m[0].0 != k' && i > 0 {
      assert m[i := (k, v)][1..] == m[1..][i - 1 := (k, v)];
      IndexOfUpdate(m[1..], i - 1, k, v, k');
    }
  }
}
