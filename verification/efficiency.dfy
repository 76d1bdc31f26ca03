/** `condor_efficiency_summary`: the report built from the pass-wide tallies. It is empty
    when no completed or running job started; otherwise it gives the good and bad
    attempt counts, the mean number of starts, the wall and CPU totals, and the three
    percentages that have a non-zero denominator. */
module EfficiencySummary {
  import opened Wrappers
  import opened Config
  import opened Normalize
  import opened Tally
  import opened Grouping

  /** The report's figures; `None` is a line that is left out. */
  datatype Report =
    | NoReport
    | Report(goodAttempts: int, badAttempts: int, meanAttempts: real,
             totalWall: real, totalCpu: real, badWall: real, badCpu: real,
             goodWall: real, goodCpu: real,
             utilization: Option<real>, goodFraction: Option<real>, totalEfficiency: Option<real>)

  /** What the code needs of the tallies: `x['totalwall']` and `x['totalcpu']` exist
      whenever `attempts` is non-empty, since they are read without a default. */
  predicate ReportReady(x: Tallies) {
    |x.attempts| > 0 ==> x.totalWall.Some? && x.totalCpu.Some?
  }

  /** `condor_efficiency_summary()` as its figures. */
  function Summarize(x: Tallies): (r: Report)
    requires ReportReady(x)
    ensures r.NoReport? <==> |x.attempts| == 0
    ensures r.Report? ==>
      && r.goodAttempts == x.sums.goodAttempts && r.badAttempts == x.sums.badAttempts
      && r.meanAttempts * |x.attempts| as real == SumInts(x.attempts) as real
      && r.totalWall == x.totalWall.value && r.totalCpu == x.totalCpu.value
      && r.goodWall == x.sums.goodWall && r.badWall == x.sums.badWall
      && r.goodCpu == x.sums.goodCpu && r.badCpu == x.sums.badCpu
    ensures r.Report? ==>
      && (r.utilization.Some? <==> r.goodWall > 0.0)
      && (r.utilization.Some? ==> r.utilization.value * r.goodWall == 100.0 * r.goodCpu)
      && (r.goodFraction.Some? <==> r.totalWall > 0.0)
      && (r.goodFraction.Some? ==> r.goodFraction.value * r.totalWall == 100.0 * r.goodWall)
      && (r.totalEfficiency.Some? <==> r.totalWall > 0.0)
      && (r.totalEfficiency.Some? ==> r.totalEfficiency.value * r.totalWall == 100.0 * r.goodCpu)
  {
    if |x.attempts| == 0 then NoReport
    else
      var s := x.sums;
      var tw := x.totalWall.value;
      Report(s.goodAttempts, s.badAttempts, SumInts(x.attempts) as real / |x.attempts| as real,
        tw, x.totalCpu.value, s.badWall, s.badCpu, s.goodWall, s.goodCpu,
        if s.goodWall > 0.0 then Some(100.0 * s.goodCpu / s.goodWall) else None,
        if tw > 0.0 then Some(100.0 * s.goodWall / tw) else None,
        if tw > 0.0 then Some(100.0 * s.goodCpu / tw) else None)
  }

  /** The tallies of a munging pass can always be reported on: a record that added an
      attempt also created the totals. */
  lemma {:induction false} TallyReportReady(ms: seq<Munged>)
    requires AllReady(ms)
    ensures ReportReady(TallyAll(ms))
    ensures |TallyAll(ms).attempts| <= |ms|
    decreases |ms|
  {
    if |ms| > 0 {
      TallyReportReady(ms[..|ms| - 1]);
    }
  }

  /** Every recorded attempt count is a positive start count. */
  lemma {:induction false} AttemptsPositive(ms: seq<Munged>)
    requires AllReady(ms)
    ensures forall i :: 0 <= i < |TallyAll(ms).attempts| ==> TallyAll(ms).attempts[i] >= 1
    decreases |ms|
  {
    if |ms| > 0 {
      var init := ms[..|ms| - 1];
      var m := ms[|ms| - 1];
      assert AllReady(init) && TallyReady(m);
      AttemptsPositive(init);
      var x := TallyAll(init);
      assert TallyAll(ms) == Step(x, m);
      AppendPositive(x.attempts, AttemptEntry(m));
    }
  }

  lemma AppendPositive(a: seq<int>, b: seq<int>)
    requires forall i :: 0 <= i < |a| ==> a[i] >= 1
    requires forall i :: 0 <= i < |b| ==> b[i] >= 1
    ensures forall i :: 0 <= i < |a + b| ==> (a + b)[i] >= 1
  {
  }

  /** Positive start counts have a mean of at least one. */
  lemma MeanOfPositive(x: Tallies)
    requires ReportReady(x)
    requires forall i :: 0 <= i < |x.attempts| ==> x.attempts[i] >= 1
    ensures Summarize(x).Report? ==> Summarize(x).meanAttempts >= 1.0
  {
    SumIntsAtLeast(x.attempts);
    if |x.attempts| > 0 {
      AtLeastOne(Summarize(x).meanAttempts, |x.attempts| as real, SumInts(x.attempts) as real);
    }
  }

  /** The mean number of starts of a pass is at least one. */
  lemma MeanAttemptsAtLeastOne(ms: seq<Munged>)
    requires AllReady(ms)
    ensures ReportReady(TallyAll(ms))
      && (Summarize(TallyAll(ms)).Report? ==> Summarize(TallyAll(ms)).meanAttempts >= 1.0)
  {
    TallyReportReady(ms);
    AttemptsPositive(ms);
    MeanOfPositive(TallyAll(ms));
  }

  lemma AtLeastOne(m: real, n: real, s: real)
    requires n > 0.0 && m * n == s && s >= n
    ensures m >= 1.0
  {
    assert (m - 1.0) * n >= 0.0;
  }

  /** Tallies whose wall time is all good report a good fraction of one hundred. */
  lemma FullFraction(x: Tallies)
    requires ReportReady(x) && x.sums.badWall == 0.0
    requires x.totalWall.Some? ==> x.totalWall.value == x.sums.goodWall + x.sums.badWall
    ensures Summarize(x).Report? && Summarize(x).goodFraction.Some? ==>
      Summarize(x).goodFraction.value == 100.0
  {
    if |x.attempts| > 0 && x.totalWall.value > 0.0 {
      var tw := x.totalWall.value;
      assert Summarize(x).goodFraction.value == 100.0 * tw / tw;
      WholeShare(tw);
    }
  }

  /** With no bad wall time, all of the wall time of a pass is good. */
  lemma NoBadWallAllGood(ms: seq<Munged>)
    requires AllReady(ms)
    requires TallyAll(ms).sums.badWall == 0.0
    ensures ReportReady(TallyAll(ms))
    ensures Summarize(TallyAll(ms)).Report? && Summarize(TallyAll(ms)).goodFraction.Some? ==>
      Summarize(TallyAll(ms)).goodFraction.value == 100.0
  {
    TallyReportReady(ms);
    FullFraction(TallyAll(ms));
  }

  /** The whole is one hundred percent of itself. */
  lemma WholeShare(t: real)
    requires t > 0.0
    ensures 100.0 * t / t == 100.0
  {
  }
}
