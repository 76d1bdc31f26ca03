/** `condor_tally`: the pass-wide good and bad wall time, CPU time and attempt counts,
    accumulated record by record while the snapshot is munged. A completed run is
    good; every earlier start of a completed or running job, and every start of a job
    in another live state, is bad. */
module Tally {
  import opened Wrappers
  import opened Config
  import opened Jobs
  import opened Normalize

  /** The six running sums, wall and CPU in seconds. */
  datatype Sums = Sums(goodWall: real, badWall: real, goodCpu: real, badCpu: real,
                       goodAttempts: int, badAttempts: int)

  const NoSums: Sums := Sums(0.0, 0.0, 0.0, 0.0, 0, 0)

  function Plus(x: Sums, y: Sums): Sums {
    Sums(x.goodWall + y.goodWall, x.badWall + y.badWall, x.goodCpu + y.goodCpu,
         x.badCpu + y.badCpu, x.goodAttempts + y.goodAttempts, x.badAttempts + y.badAttempts)
  }

  /** `condor_data_tallies`: the sums, the start counts of completed and running jobs,
      and the totals, which exist once a record has been tallied. */
  datatype Tallies = Tallies(sums: Sums, attempts: seq<int>, totalWall: Option<real>, totalCpu: Option<real>)

  const Initial: Tallies := Tallies(NoSums, [], None, None)

  predicate CompletedOrRunning(m: Munged)
    requires ValidStatus(m.attrs.jobStatus)
  {
    IsStatus(m.attrs, Completed) || IsStatus(m.attrs, Running)
  }

  /** What the code needs of a munged record to tally it without raising: a known state,
      a slot time, and wall hours wherever it multiplies them. */
  predicate TallyReady(m: Munged) {
    && ValidStatus(m.attrs.jobStatus)
    && m.attrs.cumulativeSlotTime.Some?
    && (IsStatus(m.attrs, Completed) ==> m.wallCenti.Some?)
    && (CompletedOrRunning(m) && m.attrs.numJobStarts > 1 ==> m.wallCenti.Some?)
  }

  function WallSeconds(m: Munged): real
    requires m.wallCenti.Some?
  {
    m.wallCenti.value as real * 36.0
  }

  /** One record's change to the sums. A completed job's last run is good: its wall
      hours, its CPU and one attempt. For a completed job with several starts, the
      earlier starts are bad, so good and bad wall add up to its slot time, good and bad
      CPU to its cumulative CPU, and good and bad attempts to its starts. A running
      job charges only its earlier starts, to the bad side; a job in another live
      state gives all of its starts, slot time and CPU to the bad side; a removed job
      gives nothing. */
  function Contribution(m: Munged): (c: Sums)
    requires TallyReady(m)
    ensures IsStatus(m.attrs, Completed) ==>
      c.goodWall == WallSeconds(m) && c.goodCpu == m.attrs.remoteUserCpu && c.goodAttempts == 1
    ensures IsStatus(m.attrs, Completed) && m.attrs.numJobStarts > 1 ==>
      && c.goodWall + c.badWall == m.attrs.cumulativeSlotTime.value
      && c.goodCpu + c.badCpu == m.attrs.cumulativeRemoteUserCpu
      && c.goodAttempts + c.badAttempts == m.attrs.numJobStarts
    ensures IsStatus(m.attrs, Running) && m.attrs.numJobStarts <= 1 ==> c == NoSums
    ensures IsStatus(m.attrs, Completed) && m.attrs.numJobStarts <= 1 ==>
      c == Sums(WallSeconds(m), 0.0, m.attrs.remoteUserCpu, 0.0, 1, 0)
    ensures IsStatus(m.attrs, Running) && m.attrs.numJobStarts > 1 ==>
      && c.goodWall == 0.0 && c.goodCpu == 0.0 && c.goodAttempts == 0
      && c.badWall + WallSeconds(m) == m.attrs.cumulativeSlotTime.value
      && c.badCpu + m.attrs.remoteUserCpu == m.attrs.cumulativeRemoteUserCpu
      && c.badAttempts + 1 == m.attrs.numJobStarts
    ensures !CompletedOrRunning(m) && !IsStatus(m.attrs, Removed) && m.attrs.numJobStarts > 0 ==>
      c == Sums(0.0, m.attrs.cumulativeSlotTime.value, 0.0, m.attrs.cumulativeRemoteUserCpu,
                0, m.attrs.numJobStarts)
    ensures IsStatus(m.attrs, Removed) || m.attrs.numJobStarts <= 0 ==>
      c.badWall == 0.0 && c.badCpu == 0.0 && c.badAttempts == 0
    ensures !IsStatus(m.attrs, Completed) ==> c.goodWall == 0.0 && c.goodCpu == 0.0 && c.goodAttempts == 0
  {
    var a := m.attrs;
    if IsStatus(a, Completed) then
      if a.numJobStarts > 1 then
        Sums(WallSeconds(m), a.cumulativeSlotTime.value - WallSeconds(m), a.remoteUserCpu,
             a.cumulativeRemoteUserCpu - a.remoteUserCpu, 1, a.numJobStarts - 1)
      else Sums(WallSeconds(m), 0.0, a.remoteUserCpu, 0.0, 1, 0)
    else if IsStatus(a, Running) then
      if a.numJobStarts > 1 then
        Sums(0.0, a.cumulativeSlotTime.value - WallSeconds(m), 0.0,
             a.cumulativeRemoteUserCpu - a.remoteUserCpu, 0, a.numJobStarts - 1)
      else NoSums
    else if a.numJobStarts > 0 && !IsStatus(a, Removed) then
      Sums(0.0, a.cumulativeSlotTime.value, 0.0, a.cumulativeRemoteUserCpu, 0, a.numJobStarts)
    else NoSums
  }

  /** The start count a record appends to `attempts`: only completed and running jobs
      that have started. */
  function AttemptEntry(m: Munged): (r: seq<int>)
    requires TallyReady(m)
    ensures |r| <= 1
    ensures |r| == 1 <==> CompletedOrRunning(m) && m.attrs.numJobStarts > 0
    ensures |r| == 1 ==> r[0] == m.attrs.numJobStarts
  {
    if CompletedOrRunning(m) && m.attrs.numJobStarts > 0 then [m.attrs.numJobStarts] else []
  }

  /** `condor_tally(job)`: adds the record's contribution and refreshes the totals. */
  function Step(x: Tallies, m: Munged): (r: Tallies)
    requires TallyReady(m)
    ensures r.sums == Plus(x.sums, Contribution(m))
    ensures r.attempts == x.attempts + AttemptEntry(m)
    ensures r.totalWall == Some(r.sums.goodWall + r.sums.badWall)
    ensures r.totalCpu == Some(r.sums.goodCpu + r.sums.badCpu)
  {
    var s := Plus(x.sums, Contribution(m));
    Tallies(s, x.attempts + AttemptEntry(m), Some(s.goodWall + s.badWall), Some(s.goodCpu + s.badCpu))
  }

  predicate AllReady(ms: seq<Munged>) {
    forall i :: 0 <= i < |ms| ==> TallyReady(ms[i])
  }

  /** The tallies after munging the records in order. */
  function TallyAll(ms: seq<Munged>): (r: Tallies)
    requires AllReady(ms)
    ensures |ms| == 0 <==> r.totalWall.None?
    ensures r.totalWall.Some? ==> r.totalWall.value == r.sums.goodWall + r.sums.badWall
    ensures r.totalCpu.Some? <==> r.totalWall.Some?
    ensures r.totalCpu.Some? ==> r.totalCpu.value == r.sums.goodCpu + r.sums.badCpu
    decreases |ms|
  {
    if |ms| == 0 then Initial else Step(TallyAll(ms[..|ms| - 1]), ms[|ms| - 1])
  }

  // ---------------------------------------------------------------------------
  // sums over a sequence, in any order

  /** The sum of `f` over `xs`, left to right. */
  function SumOf<T>(xs: seq<T>, f: T -> Sums): Sums
    decreases |xs|
  {
    if |xs| == 0 then NoSums else Plus(SumOf(xs[..|xs| - 1], f), f(xs[|xs| - 1]))
  }

  /** The concatenation of `g` over `xs`, left to right. */
  function EntriesOf<T>(xs: seq<T>, g: T -> seq<int>): seq<int>
    decreases |xs|
  {
    if |xs| == 0 then [] else EntriesOf(xs[..|xs| - 1], g) + g(xs[|xs| - 1])
  }

  lemma {:induction false} SumOfSplit<T>(a: seq<T>, b: seq<T>, f: T -> Sums)
    ensures SumOf(a + b, f) == Plus(SumOf(a, f), SumOf(b, f))
    decreases |b|
  {
    if |b| == 0 {
      assert a + b == a;
    } else {
      assert (a + b)[..|a + b| - 1] == a + b[..|b| - 1];
      SumOfSplit(a, b[..|b| - 1], f);
    }
  }

  lemma {:induction false} EntriesOfSplit<T>(a: seq<T>, b: seq<T>, g: T -> seq<int>)
    ensures EntriesOf(a + b, g) == EntriesOf(a, g) + EntriesOf(b, g)
    decreases |b|
  {
    if |b| == 0 {
      assert a + b == a;
    } else {
      assert (a + b)[..|a + b| - 1] == a + b[..|b| - 1];
      EntriesOfSplit(a, b[..|b| - 1], g);
    }
  }

  lemma SumOfOne<T>(x: T, f: T -> Sums)
    ensures SumOf([x], f) == f(x)
  {
    assert [x][..0] == [];
  }

  lemma MultisetCancel<T>(a: seq<T>, x: T, b1: seq<T>, b2: seq<T>)
    requires multiset(a + [x]) == multiset(b1 + [x] + b2)
    ensures multiset(a) == multiset(b1 + b2)
  {
    assert multiset(a + [x]) == multiset(a) + multiset{x};
    assert multiset(b1 + [x] + b2) == multiset(b1 + b2) + multiset{x};
    assert multiset(a) == multiset(a + [x]) - multiset{x};
    assert multiset(b1 + b2) == multiset(b1 + [x] + b2) - multiset{x};
  }

  lemma SumOfMiddle<T>(b1: seq<T>, x: T, b2: seq<T>, f: T -> Sums)
    ensures SumOf(b1 + [x] + b2, f) == Plus(SumOf(b1 + b2, f), f(x))
  {
    SumOfSplit(b1, b2, f);
    SumOfSplit(b1, [x], f);
    SumOfSplit(b1 + [x], b2, f);
    SumOfOne(x, f);
  }

  /** A sum over a sequence depends only on its elements, not their order. */
  lemma {:induction false} SumOfOrderFree<T>(a: seq<T>, b: seq<T>, f: T -> Sums)
    requires multiset(a) == multiset(b)
    ensures SumOf(a, f) == SumOf(b, f)
    decreases |a|
  {
    if |a| == 0 {
      assert |b| == |multiset(b)| == 0;
    } else {
      var a' := a[..|a| - 1];
      var x := a[|a| - 1];
      assert a == a' + [x];
      assert x in multiset(b);
      var k :| 0 <= k < |b| && b[k] == x;
      var b1 := b[..k];
      var b2 := b[k + 1..];
      assert b == b1 + [x] + b2;
      MultisetCancel(a', x, b1, b2);
      SumOfOrderFree(a', b1 + b2, f);
      SumOfMiddle(b1, x, b2, f);
    }
  }

  // ---------------------------------------------------------------------------
  // the tallies as sums

  /** A record's contribution, and nothing for a record the code could not tally. */
  function Charge(m: Munged): Sums {
    if TallyReady(m) then Contribution(m) else NoSums
  }

  function Entry(m: Munged): seq<int> {
    if TallyReady(m) then AttemptEntry(m) else []
  }

  /** The record-by-record tallies are the sums of the records' contributions, and the
      start counts their entries in order. */
  lemma {:induction false} TallySums(ms: seq<Munged>)
    requires AllReady(ms)
    ensures TallyAll(ms).sums == SumOf(ms, Charge)
    ensures TallyAll(ms).attempts == EntriesOf(ms, Entry)
    decreases |ms|
  {
    if |ms| > 0 {
      var init := ms[..|ms| - 1];
      assert AllReady(init);
      TallySums(init);
      StepSums(TallyAll(init), ms[|ms| - 1]);
    }
  }

  lemma StepSums(t: Tallies, m: Munged)
    requires TallyReady(m)
    ensures Step(t, m).sums == Plus(t.sums, Charge(m))
    ensures Step(t, m).attempts == t.attempts + Entry(m)
  {
  }

  lemma ReadyConcat(a: seq<Munged>, b: seq<Munged>)
    requires AllReady(a) && AllReady(b)
    ensures AllReady(a + b)
  {
    forall i | 0 <= i < |a + b|
      ensures TallyReady((a + b)[i])
    {
      if i >= |a| { assert (a + b)[i] == b[i - |a|]; }
    }
  }

  /** Tallying two runs of records one after the other adds their sums and
      concatenates their start counts. */
  lemma TallySplit(a: seq<Munged>, b: seq<Munged>)
    requires AllReady(a) && AllReady(b)
    ensures AllReady(a + b)
    ensures TallyAll(a + b).sums == Plus(TallyAll(a).sums, TallyAll(b).sums)
    ensures TallyAll(a + b).attempts == TallyAll(a).attempts + TallyAll(b).attempts
  {
    ReadyConcat(a, b);
    TallySums(a);
    TallySums(b);
    TallySums(a + b);
    SumOfSplit(a, b, Charge);
    EntriesOfSplit(a, b, Entry);
  }

  /** The sums do not depend on the order the records come in. */
  lemma TallyOrderFree(a: seq<Munged>, b: seq<Munged>)
    requires AllReady(a) && multiset(a) == multiset(b)
    ensures AllReady(b)
    ensures TallyAll(a).sums == TallyAll(b).sums
  {
    assert AllReady(b) by {
      forall i | 0 <= i < |b|
        ensures TallyReady(b[i])
      {
        assert b[i] in multiset(a);
      }
    }
    TallySums(a);
    TallySums(b);
    SumOfOrderFree(a, b, Charge);
  }

  lemma TallyOne(m: Munged)
    requires TallyReady(m)
    ensures AllReady([m])
    ensures TallyAll([m]).sums == Contribution(m)
    ensures TallyAll([m]).attempts == AttemptEntry(m)
  {
    var ms := [m];
    assert ms[..|ms| - 1] == [] && ms[|ms| - 1] == m;
    assert AllReady(ms);
    assert TallyAll(ms) == Step(Initial, m);
    PlusNothing(Contribution(m));
  }

  lemma PlusNothing(c: Sums)
    ensures Plus(NoSums, c) == c
  {
  }

  /** A completed single-start record of one wall hour and 1800 CPU seconds and a held
      record with two starts, 7200 slot seconds and 3600 CPU seconds: the first is all
      good, the second all bad, and the totals are 10800 wall and 5400 CPU seconds. */
  lemma TallyExample(done: Munged, held: Munged)
    requires ValidStatus(done.attrs.jobStatus) && IsStatus(done.attrs, Completed)
    requires done.attrs.numJobStarts == 1 && done.wallCenti == Some(100)
    requires done.attrs.remoteUserCpu == 1800.0 && done.attrs.cumulativeSlotTime.Some?
    requires ValidStatus(held.attrs.jobStatus) && IsStatus(held.attrs, Held)
    requires held.attrs.numJobStarts == 2 && held.attrs.cumulativeSlotTime == Some(7200.0)
    requires held.attrs.cumulativeRemoteUserCpu == 3600.0
    ensures AllReady([done, held])
    ensures var t := TallyAll([done, held]);
      && t.sums == Sums(3600.0, 7200.0, 1800.0, 3600.0, 1, 2)
      && t.attempts == [1]
      && t.totalWall == Some(10800.0) && t.totalCpu == Some(5400.0)
  {
    DoneContribution(done);
    HeldContribution(held);
    var ms := [done, held];
    assert ms[..1] == [done] && ms[..1][..0] == [] && ms[1] == held;
    SumOfOne(done, Charge);
    assert SumOf(ms, Charge) == Plus(Charge(done), Charge(held));
    assert EntriesOf(ms, Entry) == EntriesOf([done], Entry) + Entry(held);
    assert EntriesOf([done], Entry) == Entry(done);
    assert SumOf(ms, Charge) == Sums(3600.0, 7200.0, 1800.0, 3600.0, 1, 2);
    assert EntriesOf(ms, Entry) == [1];
    assert AllReady(ms);
    TallySums(ms);
  }

  lemma DoneContribution(done: Munged)
    requires ValidStatus(done.attrs.jobStatus) && IsStatus(done.attrs, Completed)
    requires done.attrs.numJobStarts == 1 && done.wallCenti == Some(100)
    requires done.attrs.remoteUserCpu == 1800.0 && done.attrs.cumulativeSlotTime.Some?
    ensures TallyReady(done)
    ensures Charge(done) == Sums(3600.0, 0.0, 1800.0, 0.0, 1, 0)
    ensures Entry(done) == [1]
  {
  }

  lemma HeldContribution(held: Munged)
    requires ValidStatus(held.attrs.jobStatus) && IsStatus(held.attrs, Held)
    requires held.attrs.numJobStarts == 2 && held.attrs.cumulativeSlotTime == Some(7200.0)
    requires held.attrs.cumulativeRemoteUserCpu == 3600.0
    ensures TallyReady(held)
    ensures Charge(held) == Sums(0.0, 7200.0, 0.0, 3600.0, 0, 2)
    ensures Entry(held) == []
  {
    assert !CompletedOrRunning(held) && !IsStatus(held.attrs, Removed);
  }

  // ---------------------------------------------------------------------------
  // the munge pass with its tallies

  /** A record the pass munged is one the tally can charge. */
  lemma MungedTallyReady(key: string, j: Job, files: map<string, string>, now: int, parseExit: bool)
    requires MungeFresh(key, j, files, now, parseExit).Success?
    ensures TallyReady(MungeFresh(key, j, files, now, parseExit).value)
  {
  }

  function Records(out: seq<(string, Munged)>): (r: seq<Munged>)
    ensures |r| == |out| && forall i :: 0 <= i < |out| ==> r[i] == out[i].1
  {
    seq(|out|, i requires 0 <= i < |out| => out[i].1)
  }

  /** `condor_munge(args)`: the munged snapshot and the tallies of all of its records,
      or the error that stopped the pass. */
  function MungePass(data: Snapshot, files: map<string, string>, now: int, parseExit: bool):
    (r: Result<(seq<(string, Munged)>, Tallies), string>)
    ensures r.Failure? <==> SomeFailure(data, files, now, parseExit)
    ensures r.Failure? ==> FailsFirstWith(data, files, now, parseExit, r.error)
    ensures r.Success? ==> (MungedAs(data, r.value.0, files, now, parseExit)
      && AllReady(Records(r.value.0)) && r.value.1 == TallyAll(Records(r.value.0)))
  {
    match MungeAll(data, files, now, parseExit)
    case Failure(e) => Failure(e)
    case Success(out) =>
      assert AllReady(Records(out)) by {
        forall i | 0 <= i < |out|
          ensures TallyReady(Records(out)[i])
        {
          MungedAsFresh(data, out, files, now, parseExit, i);
          MungedTallyReady(data[i].0, data[i].1, files, now, parseExit);
        }
      }
      Success((out, TallyAll(Records(out))))
  }
}
