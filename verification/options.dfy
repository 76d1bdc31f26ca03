/** The command line of the self-contained probe script: the checks made on the options
    before anything is queried, the scheduler commands `condor_query` issues, and the
    action the main loop takes for each admitted record (hold, vacate, report a host,
    tail the logs, or add a table row). */
module Options {
  import opened Wrappers
  import opened Text
  import opened Config
  import opened Values
  import opened Normalize
  import opened Filter
  import Tools
  import Jobs

  /** `-plot`: absent (`False`), given bare (`True`, draw on screen), or given a path. */
  datatype Plot = NoPlot | PlotScreen | PlotFile(path: string)

  /** The parsed options. The record filter's own options live in `filter`; its
      `plotting` flag is taken from `plot` (see `FilterOf`). `input` is `-input`, whose
      default `False` is `None`. */
  datatype CliArgs = CliArgs(
    filter: FilterArgs,
    hours: real, tail: Option<int>, vacate: real,
    cvmfs: bool, xrootd: bool, hold: bool, json: bool,
    input: Option<string>, parseExit: bool, printExit: bool, plot: Plot,
    summary: bool, siteSummary: bool, timeline: bool)

  /** What the process environment contributes: the host name and whether `DISPLAY`
      is set. */
  datatype Env = Env(hostname: string, hasDisplay: bool)

  /** The only host that may query the scheduler directly. */
  const SubmitHost: string := "scosg16.jlab.org"

  const StateMessage: string := "Only one of -held/idle/running/completed is allowed."
  const ActionMessage: string := "Only one of -cvmfs/vacate/tail/json is allowed."
  const WindowMessage: string := "-completed requires -hours is greater than zero or -input."
  const HostMessage: string := "You must be on scosg16 unless using the -input option."
  const DisplayMessage: string := "-plot requires graphics, but $DISPLAY is not set."

  /** `args.input` used as a condition: an empty path is false as well. */
  predicate HasInput(a: CliArgs) {
    a.input.Some? && |a.input.value| > 0
  }

  /** `args.plot` used as a condition. */
  predicate PlotRequested(p: Plot) {
    p.PlotScreen? || (p.PlotFile? && |p.path| > 0)
  }

  /** The filter options with `plotting` set to `args.plot is not False`. */
  function FilterOf(a: CliArgs): FilterArgs {
    a.filter.(plotting := !a.plot.NoPlot?)
  }

  /** Python's `True + False + ...`: the number of flags that are set. */
  function CountSet(flags: seq<bool>): (r: nat)
    ensures r <= |flags|
    decreases |flags|
  {
    if |flags| == 0 then 0 else CountSet(flags[..|flags| - 1]) + (if flags[|flags| - 1] then 1 else 0)
  }

  /** No two of the flags are set together. */
  predicate Exclusive(flags: seq<bool>) {
    forall i, j :: 0 <= i < j < |flags| && flags[i] ==> !flags[j]
  }

  lemma {:induction false} CountZero(flags: seq<bool>)
    ensures CountSet(flags) == 0 <==> forall i :: 0 <= i < |flags| ==> !flags[i]
    decreases |flags|
  {
    if |flags| > 0 {
      var init := flags[..|flags| - 1];
      CountZero(init);
      assert forall i :: 0 <= i < |init| ==> init[i] == flags[i];
    }
  }

  /** Counting the set flags and rejecting a sum above one is the same as asking that
      no two are set together. */
  lemma {:induction false} CountAtMostOne(flags: seq<bool>)
    ensures CountSet(flags) <= 1 <==> Exclusive(flags)
    decreases |flags|
  {
    if |flags| > 0 {
      var init := flags[..|flags| - 1];
      var last := flags[|flags| - 1];
      CountAtMostOne(init);
      CountZero(init);
      assert forall i :: 0 <= i < |init| ==> init[i] == flags[i];
      if CountSet(flags) <= 1 {
        forall i, j | 0 <= i < j < |flags| && flags[i]
          ensures !flags[j]
        {
          if j == |flags| - 1 {
            assert init[i];
          } else {
            assert init[i] && Exclusive(init);
          }
        }
      }
      if Exclusive(flags) {
        assert Exclusive(init);
        assert last ==> forall i :: 0 <= i < |init| ==> !init[i];
      }
    }
  }

  function StateFlags(a: CliArgs): seq<bool> {
    [a.filter.held, a.filter.idle, a.filter.running, a.filter.completed]
  }

  function ActionFlags(a: CliArgs): seq<bool> {
    [a.vacate >= 0.0, a.tail.Some?, a.cvmfs, a.json]
  }

  /** What the checks end in: the exit-code listing, a usage error, or the options the
      run goes on with. */
  datatype Outcome = ListExitCodes | UsageError(message: string) | Proceed(args: CliArgs)

  /** The option checks of the main block, in their order; `-exit` switches
      `-parseexit` on. The end date is parsed elsewhere. */
  function Validate(a: CliArgs, env: Env): (r: Outcome)
    ensures r.ListExitCodes? <==> a.printExit
    ensures r.Proceed? <==>
      && !a.printExit
      && Exclusive(StateFlags(a))
      && Exclusive(ActionFlags(a))
      && (a.filter.completed ==> a.hours > 0.0 || HasInput(a))
      && (env.hostname == SubmitHost || HasInput(a))
      && (PlotRequested(a.plot) ==> env.hasDisplay)
    ensures r.Proceed? ==> r.args == a.(parseExit := a.parseExit || |a.filter.exit| > 0)
    ensures r.UsageError? && !Exclusive(StateFlags(a)) ==> r.message == StateMessage
    ensures r.UsageError? && Exclusive(StateFlags(a)) && !Exclusive(ActionFlags(a)) ==> r.message == ActionMessage
  {
    CountAtMostOne(StateFlags(a));
    CountAtMostOne(ActionFlags(a));
    if a.printExit then ListExitCodes
    else if CountSet(StateFlags(a)) > 1 then UsageError(StateMessage)
    else if CountSet(ActionFlags(a)) > 1 then UsageError(ActionMessage)
    else if a.filter.completed && a.hours <= 0.0 && !HasInput(a) then UsageError(WindowMessage)
    else if env.hostname != SubmitHost && !HasInput(a) then UsageError(HostMessage)
    else
      var b := if |a.filter.exit| > 0 && !a.parseExit then a.(parseExit := true) else a;
      if PlotRequested(b.plot) && !env.hasDisplay then UsageError(DisplayMessage)
      else Proceed(b)
  }

  /** Options that passed the checks set at most one state flag and at most one of
      the exclusive actions, and `-exit` always comes with `-parseexit`. */
  lemma ValidatedOptions(a: CliArgs, env: Env)
    ensures Validate(a, env).Proceed? ==>
      var b := Validate(a, env).args;
      && CountSet(StateFlags(b)) <= 1 && CountSet(ActionFlags(b)) <= 1
      && (|b.filter.exit| > 0 ==> b.parseExit)
      && (b.filter.completed ==> b.hours > 0.0 || HasInput(b))
  {
    if Validate(a, env).Proceed? {
      var b := Validate(a, env).args;
      assert StateFlags(b) == StateFlags(a) && ActionFlags(b) == ActionFlags(a);
      CountAtMostOne(StateFlags(a));
      CountAtMostOne(ActionFlags(a));
    }
  }

  /** `-held -running` together is refused. */
  lemma HeldAndRunningRefused(a: CliArgs, env: Env)
    requires !a.printExit && a.filter.held && a.filter.running
    ensures Validate(a, env) == UsageError(StateMessage)
  {
    assert StateFlags(a)[0] && StateFlags(a)[2];
  }

  // ---------------------------------------------------------------------------
  // condor_query

  /** `str(x).startswith('-')` on a printed integer is its sign. */
  lemma NegativeText(n: int)
    ensures StartsWith(IntToString(n), "-") <==> n < 0
  {
    if n >= 0 {
      var s := NatToString(n);
      assert AllDigits(s) && s[0] != '-';
    }
  }

  /** The query constraints: the printed cluster criteria that do not start with a
      dash, in their order. */
  function Constraints(condor: seq<Value>): (r: seq<string>)
    ensures |r| <= |condor|
    ensures forall s :: s in r <==>
      exists i :: 0 <= i < |condor| && !StartsWith(Show(condor[i]), "-") && s == Show(condor[i])
    decreases |condor|
  {
    if |condor| == 0 then []
    else
      var init := condor[..|condor| - 1];
      var x := condor[|condor| - 1];
      assert forall i :: 0 <= i < |init| ==> init[i] == condor[i];
      Constraints(init) + (if StartsWith(Show(x), "-") then [] else [Show(x)])
  }

  /** For integer criteria, as `-condor` gives them, the constraints are the
      non-negative ids and a veto is never passed to the scheduler. */
  lemma ConstraintsOfIds(condor: seq<Value>, s: string)
    requires forall i :: 0 <= i < |condor| ==> condor[i].VInt?
    ensures s in Constraints(condor) <==>
      exists i :: 0 <= i < |condor| && condor[i].i >= 0 && s == IntToString(condor[i].i)
  {
    forall i | 0 <= i < |condor|
      ensures StartsWith(Show(condor[i]), "-") <==> condor[i].i < 0
    {
      NegativeText(condor[i].i);
    }
  }

  /** The state options: `-hold` for `-held`, then `-run` for `-running`. */
  function QueryOpts(f: FilterArgs): (r: seq<string>)
    ensures "-hold" in r <==> f.held
    ensures "-run" in r <==> f.running
    ensures |r| == (if f.held then 1 else 0) + (if f.running then 1 else 0)
  {
    (if f.held then ["-hold"] else []) + (if f.running then ["-run"] else [])
  }

  /** Checked options pass at most one state option. */
  lemma ValidatedOpts(a: CliArgs, env: Env)
    ensures Validate(a, env).Proceed? ==> |QueryOpts(Validate(a, env).args.filter)| <= 1
  {
    if Validate(a, env).Proceed? {
      var b := Validate(a, env).args;
      assert StateFlags(a)[0] == b.filter.held && StateFlags(a)[2] == b.filter.running;
    }
  }

  /** The history constraint on the completion date, for the window start `since`. */
  function SinceClause(since: int): string {
    "CompletionDate!=0&&CompletionDate<" + IntToString(since)
  }

  /** The `condor_q` command: the constraints, the state options, and JSON output. */
  function QueueCommand(a: CliArgs): (r: seq<string>)
    ensures |r| >= 2 + |Constraints(a.filter.condor)|
    ensures r[0] == "condor_q" && r[1] == "gemc"
    ensures r[2..2 + |Constraints(a.filter.condor)|] == Constraints(a.filter.condor)
    ensures r[2 + |Constraints(a.filter.condor)|..] == QueryOpts(a.filter) + ["-nobatch", "-json"]
  {
    var c := Constraints(a.filter.condor);
    var q := ["condor_q", "gemc"] + c + QueryOpts(a.filter) + ["-nobatch", "-json"];
    assert q[2..2 + |c|] == c;
    assert q[2 + |c|..] == QueryOpts(a.filter) + ["-nobatch", "-json"];
    q
  }

  /** The `condor_history` command: the constraints, JSON output, and the completion
      window. */
  function HistoryCommand(a: CliArgs, since: int): (r: seq<string>)
    ensures |r| >= 2 + |Constraints(a.filter.condor)|
    ensures r[0] == "condor_history" && r[1] == "gemc"
    ensures r[2..2 + |Constraints(a.filter.condor)|] == Constraints(a.filter.condor)
    ensures r[2 + |Constraints(a.filter.condor)|..] == ["-json", "-since", SinceClause(since)]
  {
    var c := Constraints(a.filter.condor);
    var h := ["condor_history", "gemc"] + c + ["-json", "-since", SinceClause(since)];
    assert h[2..2 + |c|] == c;
    assert h[2 + |c|..] == ["-json", "-since", SinceClause(since)];
    h
  }

  /** `condor_q` is skipped only for `-completed` without a plot. */
  predicate AsksQueue(a: CliArgs) {
    !a.filter.completed || !a.plot.NoPlot?
  }

  /** `condor_query(args)` as the commands it runs: `condor_q` unless `-completed`
      without a plot, then `condor_history` when the look-back is positive. `since` is
      the start of the look-back window in epoch seconds. */
  function QueryCommands(a: CliArgs, since: int): (r: seq<seq<string>>)
    ensures |r| == (if AsksQueue(a) then 1 else 0) + (if a.hours > 0.0 then 1 else 0)
    ensures (exists i :: 0 <= i < |r| && r[i] == QueueCommand(a)) <==> AsksQueue(a)
    ensures (exists i :: 0 <= i < |r| && r[i] == HistoryCommand(a, since)) <==> a.hours > 0.0
    ensures forall i :: 0 <= i < |r| ==> r[i] == QueueCommand(a) || r[i] == HistoryCommand(a, since)
    ensures AsksQueue(a) ==> r[0] == QueueCommand(a)
  {
    var q := QueueCommand(a);
    var h := HistoryCommand(a, since);
    var r := (if AsksQueue(a) then [q] else []) + (if a.hours > 0.0 then [h] else []);
    assert q != h by {
      assert q[0] != h[0];
    }
    assert forall i :: 0 <= i < |r| ==> (r[i] == q && AsksQueue(a)) || (r[i] == h && a.hours > 0.0);
    assert AsksQueue(a) ==> r[0] == q;
    assert a.hours > 0.0 ==> r[|r| - 1] == h;
    r
  }

  // ---------------------------------------------------------------------------
  // The main loop

  /** What the main loop does with one admitted record. */
  datatype Action = HoldJob | VacateJob | ReportHost | TailLog(lines: int) | AddRow

  /** The vacate rule: a positive threshold, a known wall time strictly above it, and
      a running job. `wallCenti` is the wall time in hundredths of an hour. */
  predicate VacateDue(a: CliArgs, m: Munged) {
    && a.vacate > 0.0
    && m.wallCenti.Some? && m.wallCenti.value as real / 100.0 > a.vacate
    && StatusOf(m.attrs.jobStatus) == Some(Running)
  }

  /** The CVMFS report reads the job's standard output. */
  predicate ActionsReady(a: CliArgs, files: map<string, string>, m: Munged) {
    a.cvmfs ==> Tools.Openable(files, m.stdout)
  }

  /** The actions for one admitted record: a hold under `-hold`, and then the first
      branch that applies of vacate, CVMFS report, XRootD report, tail and table row. */
  function JobActions(a: CliArgs, files: map<string, string>, m: Munged): (r: seq<Action>)
    requires ActionsReady(a, files, m)
    ensures |r| <= 2
    ensures HoldJob in r <==> a.hold
    ensures a.hold ==> r[0] == HoldJob
    ensures VacateJob in r <==> VacateDue(a, m)
    ensures ReportHost in r ==> a.vacate <= 0.0 && m.attrs.lastRemoteHost.Some?
    ensures a.vacate <= 0.0 && a.cvmfs ==>
      (ReportHost in r <==> m.attrs.lastRemoteHost.Some? && !Tools.CheckCvmfs(files, m.stdout))
    ensures a.vacate <= 0.0 && !a.cvmfs && a.xrootd ==>
      (ReportHost in r <==> m.attrs.lastRemoteHost.Some? && m.attrs.exitCode == Some(212))
    ensures AddRow in r <==> a.vacate <= 0.0 && !a.cvmfs && !a.xrootd && a.tail.None?
    ensures forall n :: TailLog(n) in r <==> a.vacate <= 0.0 && !a.cvmfs && !a.xrootd && a.tail == Some(n)
  {
    LetterOfIff(m.attrs.jobStatus, Running);
    var hold := if a.hold then [HoldJob] else [];
    var rest :=
      if a.vacate > 0.0 then
        (if m.wallCenti.Some? && m.wallCenti.value as real / 100.0 > a.vacate
            && LetterOf(m.attrs.jobStatus) == Some("R") then [VacateJob] else [])
      else if a.cvmfs then
        (if !Tools.CheckCvmfs(files, m.stdout) && m.attrs.lastRemoteHost.Some? then [ReportHost] else [])
      else if a.xrootd then
        (if !Tools.CheckXrootd(m.attrs.exitCode) && m.attrs.lastRemoteHost.Some? then [ReportHost] else [])
      else if a.tail.Some? then [TailLog(a.tail.value)]
      else [AddRow];
    hold + rest
  }

  predicate AllActionsReady(a: CliArgs, files: map<string, string>, jobs: seq<(string, Munged)>) {
    forall i :: 0 <= i < |jobs| ==> ActionsReady(a, files, jobs[i].1)
  }

  /** Every record the munge pass hands on is ready for its actions: its output log,
      derived from the log path, never ends in `.gz`. */
  lemma MungedActionsReady(a: CliArgs, data: Jobs.Snapshot, files: map<string, string>, now: int, parseExit: bool)
    requires MungeAll(data, files, now, parseExit).Success?
    ensures AllActionsReady(a, files, MungeAll(data, files, now, parseExit).value)
  {
    var out := MungeAll(data, files, now, parseExit).value;
    forall i | 0 <= i < |out|
      ensures ActionsReady(a, files, out[i].1)
    {
      MungedAsFresh(data, out, files, now, parseExit, i);
      var j := data[i].1;
      if LogFieldsOf(j.attrs).Some? {
        DerivedLogsOpenable(files, j.attrs.userLog.path);
      }
    }
  }

  /** Each action tagged with the key of its record. */
  function Keyed<A(!new)>(k: string, acts: seq<A>): (r: seq<(string, A)>)
    ensures |r| == |acts|
    ensures forall j, act :: (j, act) in r <==> j == k && act in acts
  {
    var r := seq(|acts|, (n: int) requires 0 <= n < |acts| => (k, acts[n]));
    assert forall act :: act in acts ==> (k, act) in r by {
      forall act | act in acts ensures (k, act) in r {
        var n :| 0 <= n < |acts| && acts[n] == act;
        assert r[n] == (k, act);
      }
    }
    r
  }

  /** The actions of the loop over a sequence of records, each tagged with its key. */
  function LoopActions(a: CliArgs, files: map<string, string>, jobs: seq<(string, Munged)>): (r: seq<(string, Action)>)
    requires AllActionsReady(a, files, jobs)
    ensures forall k, act :: (k, act) in r <==>
      exists i :: 0 <= i < |jobs| && jobs[i].0 == k && act in JobActions(a, files, jobs[i].1)
    decreases |jobs|
  {
    if |jobs| == 0 then []
    else
      var init := jobs[..|jobs| - 1];
      var last := jobs[|jobs| - 1];
      assert forall i :: 0 <= i < |init| ==> init[i] == jobs[i];
      var mine := Keyed(last.0, JobActions(a, files, last.1));
      var r := LoopActions(a, files, init) + mine;
      forall k: string, act: Action
        ensures (k, act) in r <==> exists i :: 0 <= i < |jobs| && jobs[i].0 == k && act in JobActions(a, files, jobs[i].1)
      {
        ExistsSnoc(jobs, init, (x: (string, Munged)) => x.0 == k && ActionsReady(a, files, x.1) && act in JobActions(a, files, x.1));
      }
      r
  }

  /** Some element of `s` satisfies `p` exactly when one of all but the last does, or
      the last does. */
  lemma ExistsSnoc<T>(s: seq<T>, init: seq<T>, p: T -> bool)
    requires |s| > 0 && init == s[..|s| - 1]
    ensures (exists i :: 0 <= i < |s| && p(s[i])) <==> (exists i :: 0 <= i < |init| && p(init[i])) || p(s[|s| - 1])
  {
    if exists i :: 0 <= i < |s| && p(s[i]) {
      var i :| 0 <= i < |s| && p(s[i]);
      if i < |init| {
        assert init[i] == s[i];
      }
    }
    if exists i :: 0 <= i < |init| && p(init[i]) {
      var i :| 0 <= i < |init| && p(init[i]);
      assert init[i] == s[i];
    }
  }

  /** The main loop over the snapshot: the actions for the records `condor_yield`
      admits, in snapshot order, and whether the loop then raised on a record without
      a log-derived condor id. */
  datatype LoopRun = LoopRun(actions: seq<(string, Action)>, raised: bool)

  function MainLoop(a: CliArgs, files: map<string, string>, data: seq<(string, Munged)>): (r: LoopRun)
    requires AllActionsReady(a, files, data)
    ensures r.raised <==> Yield(FilterOf(a), data).Failure?
    ensures !r.raised ==> forall k, act :: (k, act) in r.actions <==>
      exists m :: (k, m) in Yield(FilterOf(a), data).value && act in JobActions(a, files, m)
  {
    var admitted := Admitted(FilterOf(a), Reached(data));
    ReachedReady(a, files, data);
    forall k: string, act: Action
      ensures AllHaveCondor(data) ==> ((k, act) in LoopActions(a, files, admitted) <==>
        exists m :: (k, m) in admitted && act in JobActions(a, files, m))
    {
      LoopHas(a, files, admitted, k, act);
    }
    LoopRun(LoopActions(a, files, admitted), !AllHaveCondor(data))
  }

  /** The records the loop reaches and admits are ready for their actions. */
  lemma ReachedReady(a: CliArgs, files: map<string, string>, data: seq<(string, Munged)>)
    requires AllActionsReady(a, files, data)
    ensures AllActionsReady(a, files, Admitted(FilterOf(a), Reached(data)))
  {
    var admitted := Admitted(FilterOf(a), Reached(data));
    forall i | 0 <= i < |admitted| ensures ActionsReady(a, files, admitted[i].1) {
      assert admitted[i] in Reached(data);
      var j :| 0 <= j < |Reached(data)| && Reached(data)[j] == admitted[i];
      assert Reached(data)[j] == data[j];
    }
  }

  /** A key carries an action in the loop exactly when a record under that key
      calls for it. */
  lemma LoopHas(a: CliArgs, files: map<string, string>, jobs: seq<(string, Munged)>, k: string, act: Action)
    requires AllActionsReady(a, files, jobs)
    ensures (k, act) in LoopActions(a, files, jobs) <==>
      exists m :: (k, m) in jobs && act in JobActions(a, files, m)
  {
    if (k, act) in LoopActions(a, files, jobs) {
      LoopHasRecord(a, files, jobs, k, act);
    }
    if exists m :: (k, m) in jobs && act in JobActions(a, files, m) {
      var m :| (k, m) in jobs && act in JobActions(a, files, m);
      RecordHasLoop(a, files, jobs, k, m, act);
    }
  }

  lemma LoopHasRecord(a: CliArgs, files: map<string, string>, jobs: seq<(string, Munged)>, k: string, act: Action)
    requires AllActionsReady(a, files, jobs) && (k, act) in LoopActions(a, files, jobs)
    ensures exists m :: (k, m) in jobs && act in JobActions(a, files, m)
  {
    var i :| 0 <= i < |jobs| && jobs[i].0 == k && act in JobActions(a, files, jobs[i].1);
    assert (k, jobs[i].1) == jobs[i];
  }

  lemma RecordHasLoop(a: CliArgs, files: map<string, string>, jobs: seq<(string, Munged)>, k: string, m: Munged, act: Action)
    requires AllActionsReady(a, files, jobs) && (k, m) in jobs && act in JobActions(a, files, m)
    ensures (k, act) in LoopActions(a, files, jobs)
  {
    var i :| 0 <= i < |jobs| && jobs[i] == (k, m);
    assert jobs[i].0 == k && jobs[i].1 == m;
  }

  /** `-hold` holds every admitted record the loop reaches, and no record is held
      without it. */
  lemma HoldsAdmitted(a: CliArgs, files: map<string, string>, data: seq<(string, Munged)>, k: string)
    requires AllActionsReady(a, files, data)
    ensures (k, HoldJob) in MainLoop(a, files, data).actions <==>
      a.hold && exists m :: (k, m) in Reached(data) && m.condor.Some? && Admit(FilterOf(a), m)
  {
    ReachedReady(a, files, data);
    LoopHas(a, files, Admitted(FilterOf(a), Reached(data)), k, HoldJob);
  }

  /** A record is vacated exactly when the loop reaches and admits it and the vacate
      rule holds for it. */
  lemma VacatesDue(a: CliArgs, files: map<string, string>, data: seq<(string, Munged)>, k: string)
    requires AllActionsReady(a, files, data)
    ensures (k, VacateJob) in MainLoop(a, files, data).actions <==>
      exists m :: (k, m) in Reached(data) && m.condor.Some? && Admit(FilterOf(a), m) && VacateDue(a, m)
  {
    ReachedReady(a, files, data);
    LoopHas(a, files, Admitted(FilterOf(a), Reached(data)), k, VacateJob);
  }

  // ---------------------------------------------------------------------------
  // What is printed

  /** The run after the data is loaded: a timeline, a JSON dump or a plot ends it
      before the main loop, checked in that order. */
  datatype Stage = PublishTimeline | DumpJson | DrawPlot | RunLoop

  function StageOf(a: CliArgs): (r: Stage)
    ensures r == RunLoop <==> !a.timeline && !a.json && a.plot.NoPlot?
    ensures a.timeline ==> r == PublishTimeline
    ensures !a.timeline && a.json ==> r == DumpJson
  {
    if a.timeline then PublishTimeline
    else if a.json then DumpJson
    else if !a.plot.NoPlot? then DrawPlot
    else RunLoop
  }

  /** The number of table rows the loop added. */
  function RowCount(acts: seq<(string, Action)>): (n: nat)
    ensures n <= |acts|
    ensures n == 0 <==> forall i :: 0 <= i < |acts| ==> acts[i].1 != AddRow
    decreases |acts|
  {
    if |acts| == 0 then 0
    else
      var init := acts[..|acts| - 1];
      assert forall i :: 0 <= i < |init| ==> init[i] == acts[i];
      RowCount(init) + (if acts[|acts| - 1].1 == AddRow then 1 else 0)
  }

  /** The reports printed after the loop. */
  datatype Section = JobTable | ClusterTable | SiteTable | ExitCodeReport | EfficiencyReport

  /** The tables and summaries printed after the loop, given the number of rows
      the job table received: none under `-tail` or `-cvmfs` or with no row; otherwise
      one table (the cluster summary, the site summary, or the job table), the
      exit-code summary for held or idle jobs when exit codes were parsed, and the
      efficiency summary. */
  function Sections(a: CliArgs, rows: nat): (r: seq<Section>)
    ensures |r| == 0 <==> a.tail.Some? || a.cvmfs || rows == 0
    ensures |r| > 0 ==> r[|r| - 1] == EfficiencyReport
    ensures |r| > 0 ==> r[0] == (if a.summary then ClusterTable else if a.siteSummary then SiteTable else JobTable)
    ensures ExitCodeReport in r <==> |r| > 0 && (a.filter.held || a.filter.idle) && a.parseExit
  {
    if a.tail.Some? || a.cvmfs || rows == 0 then []
    else
      var table := if a.summary then ClusterTable else if a.siteSummary then SiteTable else JobTable;
      [table] + (if (a.filter.held || a.filter.idle) && a.parseExit then [ExitCodeReport] else []) + [EfficiencyReport]
  }

  /** The reports printed after the loop: none when the loop raised. */
  function Report(a: CliArgs, files: map<string, string>, data: seq<(string, Munged)>): (r: seq<Section>)
    requires AllActionsReady(a, files, data)
    ensures |r| > 0 ==> AllHaveCondor(data)
  {
    var run := MainLoop(a, files, data);
    if run.raised then [] else Sections(a, RowCount(run.actions))
  }

  /** A report is printed only when some admitted record reached the table branch. */
  lemma ReportNeedsRow(a: CliArgs, files: map<string, string>, data: seq<(string, Munged)>)
    requires AllActionsReady(a, files, data)
    ensures |Report(a, files, data)| > 0 ==> exists k :: (k, AddRow) in MainLoop(a, files, data).actions
  {
    var acts := MainLoop(a, files, data).actions;
    if |Report(a, files, data)| > 0 {
      var i :| 0 <= i < |acts| && acts[i].1 == AddRow;
      assert (acts[i].0, AddRow) == acts[i];
    }
  }

  /** With a positive vacate threshold every admitted record takes the vacate branch,
      so no table or summary is printed. */
  lemma VacateSuppressesReport(a: CliArgs, files: map<string, string>, data: seq<(string, Munged)>)
    requires AllActionsReady(a, files, data) && a.vacate > 0.0
    ensures Report(a, files, data) == []
  {
    var acts := MainLoop(a, files, data).actions;
    var admitted := Admitted(FilterOf(a), Reached(data));
    ReachedReady(a, files, data);
    forall i | 0 <= i < |acts|
      ensures acts[i].1 != AddRow
    {
      LoopHas(a, files, admitted, acts[i].0, acts[i].1);
      assert (acts[i].0, acts[i].1) == acts[i];
    }
  }
}
