/** `condor_match` and `condor_yield`: the command-line filter a munged record must
    pass to be reported. It is an AND of one matcher per field (exact matching for
    the cluster id, gemc id, user, generator and exit code; substring matching for
    the site and the host), the state flags when no plot is requested, and the end of
    the look-back window for completed jobs. */
module Filter {
  import opened Wrappers
  import opened Text
  import opened Config
  import opened Values
  import opened Matcher
  import opened Normalize

  /** The command-line options the filter reads. `plotting` is `args.plot is not
      False`; `end` is the end of the look-back window in epoch seconds. */
  datatype FilterArgs = FilterArgs(
    condor: seq<Value>, site: seq<Value>, gemc: seq<Value>, user: seq<Value>,
    exit: seq<Value>, generator: seq<Value>, host: seq<Value>,
    noexit: bool, plotting: bool,
    idle: bool, completed: bool, running: bool, held: bool,
    end: int)

  /** The bare cluster id of a record: its log-derived condor id up to the first dot. */
  function BareCluster(m: Munged): string
    requires m.condor.Some?
  {
    BeforeFirst(m.condor.value, '.')
  }

  /** `job_states.get(code)`. */
  function LetterOf(code: int): Option<string> {
    if code in JobStates then Some(JobStates[code]) else None
  }

  /** The letter the table gives a code names the state the code decodes to. */
  lemma LetterOfIff(code: int, s: Status)
    ensures LetterOf(code) == Some(Letter(s)) <==> StatusOf(code) == Some(s)
  {
    if StatusOf(code).Some? && LetterOf(code) == Some(Letter(s)) {
      LetterInjective(StatusOf(code).value, s);
    }
  }

  /** A state flag that is set demands that state; `job_states.get` decodes the code,
      so an unknown code satisfies no flag. */
  predicate StateFlagsPass(args: FilterArgs, code: int) {
    && (args.idle ==> StatusOf(code) == Some(Idle))
    && (args.completed ==> StatusOf(code) == Some(Completed))
    && (args.running ==> StatusOf(code) == Some(Running))
    && (args.held ==> StatusOf(code) == Some(Held))
  }

  /** The completion check: a completion date after the end of the window rejects; a
      missing date makes `int()` raise, and the raise is swallowed. */
  predicate BeforeEnd(args: FilterArgs, completionDate: Option<int>) {
    completionDate.None? || completionDate.value <= args.end
  }

  /** `condor_match(job, args)`. The record must have a log-derived condor id, since
      the code splits it unconditionally. */
  function Admit(args: FilterArgs, m: Munged): (r: bool)
    requires m.condor.Some?
    ensures r <==>
      && Accepts(args.condor, VStr(BareCluster(m)))
      && Accepts(args.gemc, OfString(m.gemc))
      && Accepts(args.user, OfString(m.user))
      && PatternAccepts(args.site, OfString(m.attrs.site))
      && PatternAccepts(args.host, OfString(m.attrs.lastRemoteHost))
      && Accepts(args.generator, VStr(m.generator))
      && (if args.noexit then m.attrs.exitCode.None? else Accepts(args.exit, OfInt(m.attrs.exitCode)))
      && (args.plotting || StateFlagsPass(args, m.attrs.jobStatus))
      && BeforeEnd(args, m.attrs.completionDate)
  {
    MatchesAccepts(args.condor, VStr(BareCluster(m)));
    MatchesAccepts(args.gemc, OfString(m.gemc));
    MatchesAccepts(args.user, OfString(m.user));
    PatternMatchesAccepts(args.site, OfString(m.attrs.site));
    PatternMatchesAccepts(args.host, OfString(m.attrs.lastRemoteHost));
    MatchesAccepts(args.generator, VStr(m.generator));
    MatchesAccepts(args.exit, OfInt(m.attrs.exitCode));
    LetterOfIff(m.attrs.jobStatus, Idle);
    LetterOfIff(m.attrs.jobStatus, Completed);
    LetterOfIff(m.attrs.jobStatus, Running);
    LetterOfIff(m.attrs.jobStatus, Held);
    if !Matches(Build(args.condor), VStr(BareCluster(m))) then false
    else if !Matches(Build(args.gemc), OfString(m.gemc)) then false
    else if !Matches(Build(args.user), OfString(m.user)) then false
    else if !PatternMatches(Build(args.site), OfString(m.attrs.site)) then false
    else if !PatternMatches(Build(args.host), OfString(m.attrs.lastRemoteHost)) then false
    else if !Matches(Build(args.generator), VStr(m.generator)) then false
    else if args.noexit && m.attrs.exitCode.Some? then false
    else if !args.noexit && !Matches(Build(args.exit), OfInt(m.attrs.exitCode)) then false
    else if !args.plotting && args.idle && LetterOf(m.attrs.jobStatus) != Some(Letter(Idle)) then false
    else if !args.plotting && args.completed && LetterOf(m.attrs.jobStatus) != Some(Letter(Completed)) then false
    else if !args.plotting && args.running && LetterOf(m.attrs.jobStatus) != Some(Letter(Running)) then false
    else if !args.plotting && args.held && LetterOf(m.attrs.jobStatus) != Some(Letter(Held)) then false
    else if m.attrs.completionDate.Some? && m.attrs.completionDate.value > args.end then false
    else true
  }

  /** With no criteria and no flags, every record completed by the end of the window is
      admitted. */
  lemma NoCriteriaAdmits(m: Munged, end: int, plotting: bool)
    requires m.condor.Some? && m.attrs.exitCode.None?
    requires m.attrs.completionDate.None? || m.attrs.completionDate.value <= end
    ensures Admit(FilterArgs([], [], [], [], [], [], [], false, plotting, false, false, false, false, end), m)
  {
    var none: seq<Value> := [];
    assert AllVetoes(none) && NoVetoContainsValue(none, OfString(m.attrs.site));
    assert NoVetoContainsValue(none, OfString(m.attrs.lastRemoteHost));
  }

  /** A veto on the user rejects that user's records whatever else is asked. */
  lemma UserVetoRejects(args: FilterArgs, m: Munged, i: int)
    requires m.condor.Some? && m.user.Some?
    requires 0 <= i < |args.user| && Show(args.user[i]) == "-" + m.user.value
    ensures !Admit(args, m)
  {
    VetoWins(args.user, OfString(m.user), i);
    MatchesAccepts(args.user, OfString(m.user));
  }

  /** `-noexit` rejects every record that has an exit code. */
  lemma NoExitRejects(args: FilterArgs, m: Munged)
    requires m.condor.Some? && args.noexit && m.attrs.exitCode.Some?
    ensures !Admit(args, m)
  {
  }

  /** The state flags are ignored while plotting. */
  lemma PlottingIgnoresFlags(args: FilterArgs, m: Munged)
    requires m.condor.Some? && args.plotting
    ensures Admit(args, m) == Admit(args.(idle := false, completed := false, running := false, held := false), m)
  {
  }

  /** A record completed after the end of the window is never admitted. */
  lemma LateCompletionRejects(args: FilterArgs, m: Munged)
    requires m.condor.Some? && m.attrs.completionDate.Some? && m.attrs.completionDate.value > args.end
    ensures !Admit(args, m)
  {
  }

  // ---------------------------------------------------------------------------
  // condor_yield

  predicate AllHaveCondor(data: seq<(string, Munged)>) {
    forall i :: 0 <= i < |data| ==> data[i].1.condor.Some?
  }

  /** The admitted entries of a run of records that all have a condor id, in order. */
  function Admitted(args: FilterArgs, data: seq<(string, Munged)>): (r: seq<(string, Munged)>)
    requires AllHaveCondor(data)
    ensures |r| <= |data|
    ensures forall e :: e in r <==> e in data && Admit(args, e.1)
    decreases |data|
  {
    if |data| == 0 then []
    else
      var init := data[..|data| - 1];
      var last := data[|data| - 1];
      assert AllHaveCondor(init);
      assert data == init + [last];
      Admitted(args, init) + (if Admit(args, last.1) then [last] else [])
  }

  /** The entries `condor_yield` reaches: those before the first record without a
      log-derived condor id, on which `job.get('condor').split` raises. */
  function Reached(data: seq<(string, Munged)>): (r: seq<(string, Munged)>)
    ensures r <= data && AllHaveCondor(r)
    ensures r == data <==> AllHaveCondor(data)
    ensures |r| < |data| ==> data[|r|].1.condor.None?
    decreases |data|
  {
    if |data| == 0 || data[0].1.condor.None? then []
    else
      var rest := Reached(data[1..]);
      assert forall i :: 0 <= i < |rest| ==> ([data[0]] + rest)[i + 1] == rest[i];
      assert AllHaveCondor(data[1..]) ==> AllHaveCondor(data) by {
        if AllHaveCondor(data[1..]) {
          forall i | 0 < i < |data| ensures data[i].1.condor.Some? { assert data[1..][i - 1] == data[i]; }
        }
      }
      assert AllHaveCondor(data) ==> AllHaveCondor(data[1..]) by {
        if AllHaveCondor(data) {
          forall i | 0 <= i < |data| - 1 ensures data[1..][i].1.condor.Some? { assert data[1..][i] == data[i + 1]; }
        }
      }
      [data[0]] + rest
  }

  /** `condor_yield(args)` drawn to the end: the admitted entries in snapshot order, or
      the AttributeError of the first record without a log-derived condor id, after the
      admitted entries before it were yielded. */
  function Yield(args: FilterArgs, data: seq<(string, Munged)>): (r: Result<seq<(string, Munged)>, string>)
    ensures r.Failure? <==> exists i :: 0 <= i < |data| && data[i].1.condor.None?
    ensures r.Success? ==> forall e :: e in r.value <==> e in data && Admit(args, e.1)
  {
    if AllHaveCondor(data) then Success(Admitted(args, data))
    else Failure(NoCondorError)
  }

  const NoCondorError := "AttributeError: 'NoneType' object has no attribute 'split'"

  lemma AllHaveCondorConcat(a: seq<(string, Munged)>, b: seq<(string, Munged)>)
    requires AllHaveCondor(a) && AllHaveCondor(b)
    ensures AllHaveCondor(a + b)
  {
    forall i | 0 <= i < |a + b|
      ensures (a + b)[i].1.condor.Some?
    {
      if i >= |a| { assert (a + b)[i] == b[i - |a|]; }
    }
  }

  /** Admitting from two runs of entries is admitting from each in turn. */
  lemma {:induction false} AdmittedConcat(args: FilterArgs, a: seq<(string, Munged)>, b: seq<(string, Munged)>)
    requires AllHaveCondor(a) && AllHaveCondor(b)
    ensures AllHaveCondor(a + b)
    ensures Admitted(args, a + b) == Admitted(args, a) + Admitted(args, b)
    decreases |b|
  {
    AllHaveCondorConcat(a, b);
    if |b| == 0 {
      assert a + b == a;
    } else {
      var b' := b[..|b| - 1];
      assert AllHaveCondor(b');
      assert (a + b)[..|a + b| - 1] == a + b';
      assert (a + b)[|a + b| - 1] == b[|b| - 1];
      AdmittedConcat(args, a, b');
    }
  }

  /** `e` comes before `f` in `s`. */
  predicate Before<T(==)>(s: seq<T>, e: T, f: T) {
    exists i, j :: 0 <= i < j < |s| && s[i] == e && s[j] == f
  }

  /** The admitted entries keep the order they have in the snapshot. */
  lemma {:induction false} AdmittedKeepsOrder(args: FilterArgs, data: seq<(string, Munged)>, e: (string, Munged), f: (string, Munged))
    requires AllHaveCondor(data)
    requires Before(Admitted(args, data), e, f)
    ensures Before(data, e, f)
    decreases |data|
  {
    var init := data[..|data| - 1];
    var last := data[|data| - 1];
    assert AllHaveCondor(init);
    var ri := Admitted(args, init);
    var tail := if Admit(args, last.1) then [last] else [];
    assert Admitted(args, data) == ri + tail;
    if Before(ri, e, f) {
      AdmittedKeepsOrder(args, init, e, f);
    }
    BeforeSnoc(data, ri, tail, e, f);
  }

  /** A subsequence of the first part of `data`, then possibly its last entry, keeps
      `data`'s order, given the first part does. */
  lemma BeforeSnoc<T>(data: seq<T>, ri: seq<T>, tail: seq<T>, e: T, f: T)
    requires |data| > 0 && (tail == [] || tail == [data[|data| - 1]])
    requires forall x :: x in ri ==> x in data[..|data| - 1]
    requires Before(ri, e, f) ==> Before(data[..|data| - 1], e, f)
    requires Before(ri + tail, e, f)
    ensures Before(data, e, f)
  {
    var init := data[..|data| - 1];
    var r := ri + tail;
    var i, j :| 0 <= i < j < |r| && r[i] == e && r[j] == f;
    if j < |ri| {
      assert ri[i] == e && ri[j] == f;
      var i', j' :| 0 <= i' < j' < |init| && init[i'] == e && init[j'] == f;
      assert data[i'] == e && data[j'] == f;
    } else {
      assert i < |ri| && r[i] == ri[i] && f == data[|data| - 1];
      assert ri[i] in ri;
      var i' :| 0 <= i' < |init| && init[i'] == e;
      assert data[i'] == e;
    }
  }
}
