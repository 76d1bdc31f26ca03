/** `condor_exit_code_summary`: how many admitted records ended with each exit code, in
    the order the codes are first seen, with each code's share of all records that
    have one and its label from the exit-code table. Records without an exit code are
    not counted. */
module ExitSummary {
  import opened Wrappers
  import opened Config
  import opened OrderedMaps
  import opened Grouping
  import opened Normalize

  /** One line of the summary: `'%4s  %8d %6.2f%%  %s' % (k, v, v/tot*100, label)`. */
  datatype ExitLine = ExitLine(code: int, count: int, percent: real, name: Option<string>)

  /** The exit codes of the records that have one, in order. */
  function Codes(recs: seq<(string, Munged)>): (r: seq<int>)
    ensures |r| <= |recs|
    ensures forall c :: c in r <==> exists i :: 0 <= i < |recs| && recs[i].1.attrs.exitCode == Some(c)
    decreases |recs|
  {
    if |recs| == 0 then []
    else
      var init := recs[..|recs| - 1];
      var code := recs[|recs| - 1].1.attrs.exitCode;
      assert forall i :: 0 <= i < |init| ==> init[i] == recs[i];
      Codes(init) + (if code.Some? then [code.value] else [])
  }

  function Same(k: int): int {
    k
  }

  function Zero(k: int): int {
    0
  }

  function Bump(n: int, k: int): int {
    n + 1
  }

  /** `if code not in x: x[code] = 0` then `x[code] += 1`. */
  function Counted(recs: seq<(string, Munged)>): (r: seq<(int, int)>)
    ensures DistinctKeys(r)
  {
    GroupBy(Codes(recs), Same, Zero, Bump)
  }

  /** The number of records that ended with exit code `k`. */
  function CountCode(recs: seq<(string, Munged)>, k: int): nat
    decreases |recs|
  {
    if |recs| == 0 then 0
    else CountCode(recs[..|recs| - 1], k) + (if recs[|recs| - 1].1.attrs.exitCode == Some(k) then 1 else 0)
  }

  lemma {:induction false} FoldCount(ys: seq<int>, e: int)
    ensures FoldLeft(Zero(e), ys, Bump) == |ys|
    decreases |ys|
  {
    if |ys| > 0 {
      FoldCount(ys[..|ys| - 1], e);
    }
  }

  lemma {:induction false} OnlyCode(recs: seq<(string, Munged)>, k: int)
    ensures |Only(Codes(recs), Same, k)| == CountCode(recs, k)
    decreases |recs|
  {
    if |recs| > 0 {
      var init := recs[..|recs| - 1];
      OnlyCode(init, k);
      var code := recs[|recs| - 1].1.attrs.exitCode;
      if code.Some? {
        var cs := Codes(init) + [code.value];
        assert Codes(recs) == cs;
        assert cs[..|cs| - 1] == Codes(init) && cs[|cs| - 1] == code.value;
      } else {
        assert Codes(recs) == Codes(init);
      }
    }
  }

  /** A code is listed exactly when some record ended with it, and its count is the
      number of records that did. */
  lemma CodeCounts(recs: seq<(string, Munged)>, k: int)
    ensures k in Keys(Counted(recs)) <==> CountCode(recs, k) > 0
    ensures k in Keys(Counted(recs)) ==> Get(Counted(recs), k) == Some(CountCode(recs, k))
  {
    var xs := Codes(recs);
    OnlyCode(recs, k);
    OnlyEmpty(xs, Same, k);
    if HasKey(xs, Same, k) {
      GroupByIsFold(xs, Same, Zero, Bump, k);
      var ys := Only(xs, Same, k);
      FoldCount(ys, ys[0]);
    }
  }

  function Identity(n: int): int {
    n
  }

  /** `tot = sum(x.values())` is the number of records with an exit code. */
  lemma CountsTotal(recs: seq<(string, Munged)>)
    ensures SumOver(Counted(recs), Identity) == |Codes(recs)|
  {
    GroupSum(Codes(recs), Same, Zero, Bump, Identity, One);
    WeightOfOnes(Codes(recs));
  }

  // ---------------------------------------------------------------------------
  // the lines

  function Lines(counts: seq<(int, int)>, tot: int): (r: seq<ExitLine>)
    requires tot > 0
    ensures |r| == |counts|
    ensures forall i :: 0 <= i < |r| ==> r[i].code == counts[i].0 && r[i].count == counts[i].1
    ensures forall i :: 0 <= i < |r| ==> r[i].name == ExitLabel(counts[i].0)
  {
    seq(|counts|, i requires 0 <= i < |counts| =>
      ExitLine(counts[i].0, counts[i].1, counts[i].1 as real / tot as real * 100.0, ExitLabel(counts[i].0)))
  }

  /** `p` percent of `t` is `y`. */
  predicate Scaled(p: real, t: real, y: real) {
    p * t == y * 100.0
  }

  /** Each line's percentage is its count's share of `t`, in percent. */
  predicate Shares(ls: seq<ExitLine>, counts: seq<(int, int)>, t: real) {
    |ls| == |counts| && forall i :: 0 <= i < |ls| ==> Scaled(ls[i].percent, t, counts[i].1 as real)
  }

  /** Each line's percentage is its count's share of the total. */
  lemma LinePercents(counts: seq<(int, int)>, tot: int)
    requires tot > 0
    ensures Shares(Lines(counts, tot), counts, tot as real)
  {
    forall i | 0 <= i < |counts|
      ensures Scaled(Lines(counts, tot)[i].percent, tot as real, counts[i].1 as real)
    {
      Share(counts[i].1 as real, tot as real);
    }
  }

  lemma Share(c: real, t: real)
    requires t > 0.0
    ensures c / t * 100.0 * t == c * 100.0
  {
  }

  /** `condor_exit_code_summary(args)` as its lines: no lines (and no division) when no
      record has an exit code. */
  function Summarize(recs: seq<(string, Munged)>): (r: seq<ExitLine>)
    ensures |r| == |Counted(recs)|
  {
    var counts := Counted(recs);
    if |counts| == 0 then []
    else
      TotalPositive(recs);
      Lines(counts, SumOver(counts, Identity))
  }

  lemma TotalPositive(recs: seq<(string, Munged)>)
    requires |Counted(recs)| > 0
    ensures SumOver(Counted(recs), Identity) > 0
  {
    var counts := Counted(recs);
    forall j | 0 <= j < |counts|
      ensures counts[j].1 > 0
    {
      assert counts[j].0 in Keys(counts);
      CodeCounts(recs, counts[j].0);
      GetAt(counts, j);
    }
    PositiveParts(counts, 0);
  }

  lemma {:induction false} PositiveParts(counts: seq<(int, int)>, i: int)
    requires 0 <= i < |counts| && forall j :: 0 <= j < |counts| ==> counts[j].1 > 0
    ensures SumOver(counts, Identity) >= counts[i].1
    decreases |counts|
  {
    if i < |counts| - 1 {
      PositiveParts(counts[..|counts| - 1], i);
    } else if |counts| > 1 {
      PositiveParts(counts[..|counts| - 1], 0);
    }
  }

  function Percents(r: seq<ExitLine>): real
    decreases |r|
  {
    if |r| == 0 then 0.0 else Percents(r[..|r| - 1]) + r[|r| - 1].percent
  }

  lemma PercentsOfLines(counts: seq<(int, int)>, tot: int)
    requires tot > 0
    ensures Scaled(Percents(Lines(counts, tot)), tot as real, SumOver(counts, Identity) as real)
  {
    LinePercents(counts, tot);
    PercentsOfShares(Lines(counts, tot), counts, tot as real);
  }

  /** Lines whose percentages are their counts' shares of `t` add up to the counts'
      share. */
  lemma {:induction false} PercentsOfShares(ls: seq<ExitLine>, counts: seq<(int, int)>, t: real)
    requires Shares(ls, counts, t)
    ensures Scaled(Percents(ls), t, SumOver(counts, Identity) as real)
    decreases |ls|
  {
    if |ls| > 0 {
      var last := |ls| - 1;
      var init := ls[..last];
      assert Shares(init, counts[..last], t) by {
        forall i | 0 <= i < last ensures Scaled(init[i].percent, t, counts[..last][i].1 as real) {
          assert init[i] == ls[i] && counts[..last][i] == counts[i];
        }
      }
      PercentsOfShares(init, counts[..last], t);
      AddScaled(Percents(ls), Percents(init), ls[last].percent, t,
        SumOver(counts, Identity) as real, SumOver(counts[..last], Identity) as real, counts[last].1 as real);
    }
  }

  lemma AddScaled(p: real, a: real, b: real, t: real, q: real, s: real, c: real)
    requires p == a + b && q == s + c
    requires Scaled(a, t, s) && Scaled(b, t, c)
    ensures Scaled(p, t, q)
  {
  }

  lemma HundredPercent(p: real, t: real, s: real)
    requires t > 0.0 && s == t && Scaled(p, t, s)
    ensures p == 100.0
  {
    assert (p - 100.0) * t == 0.0;
  }

  lemma PercentsOfCounts(counts: seq<(int, int)>)
    requires SumOver(counts, Identity) > 0
    ensures Percents(Lines(counts, SumOver(counts, Identity))) == 100.0
  {
    var tot := SumOver(counts, Identity);
    PercentsOfLines(counts, tot);
    HundredPercent(Percents(Lines(counts, tot)), tot as real, SumOver(counts, Identity) as real);
  }

  /** The percentages of a non-empty summary add up to one hundred. */
  lemma PercentsTotal(recs: seq<(string, Munged)>)
    requires |Summarize(recs)| > 0
    ensures Percents(Summarize(recs)) == 100.0
  {
    var counts := Counted(recs);
    TotalPositive(recs);
    var tot := SumOver(counts, Identity);
    PercentsOfCounts(counts);
    assert Summarize(recs) == Lines(counts, tot);
  }
}
