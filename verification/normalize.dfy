/** `condor_munge`: the fields the reports derive from each scheduler record — the
    submitter, gemc id and condor id parsed from the log path, the trimmed host names,
    the wall hours of the current run, the CPU efficiencies, the generator named in the
    job script and, on request, the exit code from the error log. */
module Normalize {
  import opened Wrappers
  import opened Text
  import opened Config
  import opened Jobs
  import opened LogPath
  import opened Tools

  // ---------------------------------------------------------------------------
  // condor_calc_wallhr

  /** `n / d` rounded to the nearest integer, halves away from zero. */
  function RoundDiv(n: int, d: int): (r: int)
    requires d > 0
    ensures 2 * (r * d - n) <= d && 2 * (n - r * d) <= d
  {
    if n >= 0 then (2 * n + d) / (2 * d) else -((2 * -n + d) / (2 * d))
  }

  predicate IsStatus(a: Attrs, s: Status)
    requires ValidStatus(a.jobStatus)
  {
    StatusOfValid(a.jobStatus) == s
  }

  /** The end of the current run: the completion date when there is one, else now. */
  function RunEnd(a: Attrs, now: int): int {
    if a.completionDate.Some? && a.completionDate.value > 0 then a.completionDate.value else now
  }

  /** `condor_calc_wallhr(job)` in hundredths of an hour: only completed and running jobs
      with a start date have one, and it is the run's length to the nearest hundredth. */
  function WallCenti(a: Attrs, now: int): (r: Option<int>)
    requires ValidStatus(a.jobStatus)
    ensures r.Some? <==> ((IsStatus(a, Completed) || IsStatus(a, Running))
      && a.jobCurrentStartDate.Some? && a.jobCurrentStartDate.value > 0)
    ensures r.Some? ==> var seconds := RunEnd(a, now) - a.jobCurrentStartDate.value;
      2 * (r.value * 36 - seconds) <= 36 && 2 * (seconds - r.value * 36) <= 36
  {
    if (IsStatus(a, Completed) || IsStatus(a, Running))
      && a.jobCurrentStartDate.Some? && a.jobCurrentStartDate.value > 0
    then Some(RoundDiv(RunEnd(a, now) - a.jobCurrentStartDate.value, 36))
    else None
  }

  /** A finished two-hour run is 2.00 wall hours. */
  lemma TwoHourRun(a: Attrs, now: int)
    requires ValidStatus(a.jobStatus) && IsStatus(a, Completed)
    requires a.jobCurrentStartDate == Some(1000) && a.completionDate == Some(8200)
    ensures WallCenti(a, now) == Some(200)
  {
  }

  // ---------------------------------------------------------------------------
  // efficiencies

  /** `eff`: CPU seconds per wall second of a completed job's run, only when its wall
      hours are positive, kept as its '%.2f' text and so read back rounded to
      hundredths. */
  function Eff(a: Attrs, wall: Option<int>): (r: Option<real>)
    requires ValidStatus(a.jobStatus)
    ensures r.Some? <==> IsStatus(a, Completed) && wall.Some? && wall.value > 0
    ensures r.Some? ==> IsCenti(r.value)
    ensures r.Some? ==> var exact := a.remoteUserCpu / (wall.value as real * 36.0);
      exact - 0.005 < r.value <= exact + 0.005
  {
    if IsStatus(a, Completed) && wall.Some? && wall.value > 0
    then Some(Centi(a.remoteUserCpu / (wall.value as real * 36.0)))
    else None
  }

  /** Two wall hours and 3600 CPU seconds give an efficiency of one half. */
  lemma EffExample(a: Attrs)
    requires ValidStatus(a.jobStatus) && IsStatus(a, Completed) && a.remoteUserCpu == 3600.0
    ensures Eff(a, Some(200)) == Some(0.5)
  {
    CentiUnique(0.5, 0.5);
  }

  /** `ceff`: CPU seconds per slot second for completed and running jobs, as '%.2f'
      text and so rounded to hundredths, the integer zero for the others, and nothing
      when the slot time is not positive. */
  function Ceff(a: Attrs): (r: Option<real>)
    requires ValidStatus(a.jobStatus) && a.cumulativeSlotTime.Some?
    ensures r.Some? <==> a.cumulativeSlotTime.value > 0.0
    ensures r.Some? ==> IsCenti(r.value)
    ensures r.Some? && (IsStatus(a, Completed) || IsStatus(a, Running)) ==>
      var exact := a.remoteUserCpu / a.cumulativeSlotTime.value;
      exact - 0.005 < r.value <= exact + 0.005
    ensures r.Some? && !(IsStatus(a, Completed) || IsStatus(a, Running)) ==> r.value == 0.0
  {
    var slot := a.cumulativeSlotTime.value;
    if slot > 0.0 then
      if IsStatus(a, Completed) || IsStatus(a, Running) then Some(Centi(a.remoteUserCpu / slot)) else Some(0.0)
    else None
  }

  // ---------------------------------------------------------------------------
  // host names

  /** `RemoteHost.split('@').pop()`: the machine after the slot name. */
  function TrimHost(h: string): (r: string)
    ensures '@' !in r && EndsWith(h, r)
    ensures '@' !in h ==> r == h
  {
    AfterLast(h, '@')
  }

  /** `LastRemoteHost.split('@').pop().split('.').pop(0)`: the short machine name. */
  function TrimLastHost(h: string): (r: string)
    ensures '@' !in r && '.' !in r
  {
    var m := AfterLast(h, '@');
    var r := BeforeFirst(m, '.');
    assert '@' !in r by {
      forall i | 0 <= i < |r|
        ensures r[i] != '@'
      {
        assert r[i] == m[i];
      }
    }
    r
  }

  /** Trimming a trimmed host name changes nothing. */
  lemma TrimLastHostIdempotent(h: string)
    ensures TrimLastHost(TrimLastHost(h)) == TrimLastHost(h)
  {
  }

  /** The short name of `slot@name.domain` is `name`. */
  lemma TrimLastHostOf(slot: string, name: string, domain: string)
    requires '@' !in name && '.' !in name && '@' !in domain
    ensures TrimLastHost(slot + "@" + name + "." + domain) == name
  {
    var m := name + "." + domain;
    assert '@' !in m by {
      forall i | 0 <= i < |m|
        ensures m[i] != '@'
      {
        if i > |name| { assert m[i] == domain[i - |name| - 1]; }
      }
    }
    assert slot + "@" + name + "." + domain == slot + ['@'] + m;
    AfterLastOf(slot, m, '@');
    assert m == name + ['.'] + domain;
    BeforeFirstOf(name, domain, '.');
  }

  // ---------------------------------------------------------------------------
  // get_generator

  /** `os.path.dirname(p)`: everything before the last `/`, without trailing slashes
      unless it consists of slashes only. */
  function DirName(p: string): (r: string)
    ensures |r| <= |p| && p[..|r|] == r
  {
    var i := RFind(p, "/") + 1;
    var head := p[..i];
    if |head| > 0 && exists j :: 0 <= j < |head| && head[j] != '/' then RStripSlashes(head) else head
  }

  function RStripSlashes(s: string): (r: string)
    ensures |r| <= |s| && s[..|r|] == r
    ensures |r| == 0 || r[|r| - 1] != '/'
    decreases |s|
  {
    if |s| == 0 || s[|s| - 1] != '/' then s else RStripSlashes(s[..|s| - 1])
  }

  /** `dirname` undoes appending a file name to a directory name. */
  lemma DirNameOfChild(d: string, f: string)
    requires |d| > 0 && d[|d| - 1] != '/' && '/' !in f
    ensures DirName(d + "/" + f) == d
  {
    var p := d + "/" + f;
    assert OccursAt(p, "/", |d|);
    forall j | |d| < j
      ensures !OccursAt(p, "/", j)
    {
      if j + 1 <= |p| {
        assert p[j..j + 1][0] == p[j] == f[j - |d| - 1];
      }
    }
    assert RFind(p, "/") == |d|;
    var head := p[..|d| + 1];
    assert head == d + "/";
    assert head[|d| - 1] != '/';
    assert head[..|d|] == d;
    assert RStripSlashes(head) == RStripSlashes(d) == d;
  }

  /** The job script of a job: `nodeScript.sh` two directories above its log. */
  function ScriptPath(log: string): (r: string)
    ensures EndsWith(r, "/nodeScript.sh")
  {
    var r := DirName(DirName(log)) + "/nodeScript.sh";
    assert r[|r| - 14..] == "/nodeScript.sh";
    r
  }

  const GeneratorPrefix: string := "events with generator >"
  const GeneratorSuffix: string := "< with options"

  /** The generator a (lower-cased) script line names: the text between the first
      prefix and the last suffix after it, without a leading `clas12-`; or `lund` for a
      LUND echo, or `gemc` for a line starting with `gemc` that has no `INPUT`. */
  function GeneratorOfLine(line: string): Option<string> {
    var p := Find(line, GeneratorPrefix);
    var q := RFind(line, GeneratorSuffix);
    if p >= 0 && q >= p + |GeneratorPrefix| then
      var g := line[p + |GeneratorPrefix|..q];
      Some(if StartsWith(g, "clas12-") then g[7..] else g)
    else if Find(line, "echo LUND Event File:") == 0 then Some("lund")
    else if Find(line, "gemc") == 0 && Find(line, "INPUT") < 0 then Some("gemc")
    else None
  }

  /** Lower-cased text contains no upper-case needle. */
  lemma NoUpperInLower(s: string, needle: string)
    requires |needle| > 0 && IsUpper(needle[0])
    ensures Find(Lower(s), needle) < 0
  {
    var t := Lower(s);
    forall j
      ensures !OccursAt(t, needle, j)
    {
      if 0 <= j && j + |needle| <= |t| {
        assert t[j..j + |needle|][0] == t[j];
      }
    }
  }

  /** The LUND test never fires on a lower-cased line, and the `INPUT` test never
      rejects one, so only the generator phrase and a leading `gemc` matter. */
  lemma GeneratorTestsOnLowered(s: string)
    ensures Find(Lower(s), "echo LUND Event File:") != 0
    ensures Find(Lower(s), "INPUT") < 0
    ensures GeneratorOfLine(Lower(s)) ==
      var line := Lower(s);
      var p := Find(line, GeneratorPrefix);
      var q := RFind(line, GeneratorSuffix);
      if p >= 0 && q >= p + |GeneratorPrefix| then
        var g := line[p + |GeneratorPrefix|..q];
        Some(if StartsWith(g, "clas12-") then g[7..] else g)
      else if StartsWith(line, "gemc") then Some("gemc")
      else None
  {
    var t := Lower(s);
    NoUpperInLower(s, "INPUT");
    FindZeroIsPrefix(t, "echo LUND Event File:");
    if |t| >= 21 {
      assert t[..21][5] == t[5];
    }
    FindZeroIsPrefix(t, "gemc");
  }

  /** A line announcing `clas12-x` names generator `x`, whatever `x` is. */
  lemma GeneratorOfAnnouncement(x: string)
    ensures GeneratorOfLine(GeneratorPrefix + "clas12-" + x + GeneratorSuffix) == Some(x)
  {
    var line := GeneratorPrefix + "clas12-" + x + GeneratorSuffix;
    var q := |line| - |GeneratorSuffix|;
    assert line[..|GeneratorPrefix|] == GeneratorPrefix;
    FindZeroIsPrefix(line, GeneratorPrefix);
    assert line[q..] == GeneratorSuffix;
    assert OccursAt(line, GeneratorSuffix, q);
    assert RFind(line, GeneratorSuffix) == q;
    var g := line[|GeneratorPrefix|..q];
    assert g == "clas12-" + x;
    assert StartsWith(g, "clas12-");
    assert g[7..] == x;
  }

  function LowerAll(xs: seq<string>): (r: seq<string>)
    ensures |r| == |xs| && forall i :: 0 <= i < |xs| ==> r[i] == Lower(xs[i])
  {
    seq(|xs|, i requires 0 <= i < |xs| => Lower(xs[i]))
  }

  /** The generator named by the first line of the job script that names one, or the
      null field when no line does or the job has no log. */
  function ScriptGenerator(files: map<string, string>, userLog: Option<string>): (r: string)
    ensures userLog.None? ==> r == NullField
  {
    if userLog.None? then NullField
    else
      var path := ScriptPath(userLog.value);
      assert !EndsWith(path, ".gz") by {
        assert path[|path| - 1] == 'h';
      }
      var lines := LowerAll(Readlines(files, Some(path)));
      match FirstSome(lines, GeneratorOfLine)
      case Some(g) => g
      case None => NullField
  }

  /** The generator cache is keyed by what `generators` is indexed with: the job's
      integer cluster id on lookup, the literal text `ClusterId` on store. */
  datatype CacheKey = IntKey(id: int) | TextKey(name: string)

  /** Every key the cache ever holds is the literal one. */
  predicate CacheShape(cache: map<CacheKey, string>) {
    forall k :: k in cache ==> k == TextKey("ClusterId")
  }

  /** `get_generator(job)` with its cache: it looks the cluster id up, and on a miss
      stores the freshly parsed generator under the literal key and returns that entry. */
  function GetGenerator(cache: map<CacheKey, string>, clusterId: Option<int>, files: map<string, string>,
                        userLog: Option<string>): (r: (string, map<CacheKey, string>))
    ensures CacheShape(cache) ==> CacheShape(r.1)
  {
    if clusterId.None? || IntKey(clusterId.value) !in cache then
      var cache' := cache[TextKey("ClusterId") := ScriptGenerator(files, userLog)];
      (cache'[TextKey("ClusterId")], cache')
    else
      (if TextKey("ClusterId") in cache then cache[TextKey("ClusterId")] else NullField, cache)
  }

  /** The cache never hits: from a cache holding only the literal key, every call
      parses its own job's script, whatever was stored before. */
  lemma CacheNeverHits(cache: map<CacheKey, string>, clusterId: Option<int>, files: map<string, string>,
                       userLog: Option<string>)
    requires CacheShape(cache)
    ensures GetGenerator(cache, clusterId, files, userLog).0 == ScriptGenerator(files, userLog)
  {
    if clusterId.Some? {
      assert IntKey(clusterId.value) !in cache;
    }
  }

  // ---------------------------------------------------------------------------
  // get_status_key

  /** The summary counter a job counts under. */
  datatype Bucket = HeldBucket | IdleBucket | RunBucket | DoneBucket | OtherBucket

  /** `get_status_key(job)`. */
  function StatusBucket(s: Status): (r: Bucket)
    ensures r == HeldBucket <==> s == Held
    ensures r == IdleBucket <==> s == Idle
    ensures r == RunBucket <==> s == Running
    ensures r == DoneBucket <==> s == Completed
  {
    match s
    case Held => HeldBucket
    case Idle => IdleBucket
    case Running => RunBucket
    case Completed => DoneBucket
    case _ => OtherBucket
  }

  /** The counter name of a bucket. */
  function BucketName(b: Bucket): string {
    match b
    case HeldBucket => "held"
    case IdleBucket => "idle"
    case RunBucket => "run"
    case DoneBucket => "done"
    case OtherBucket => "other"
  }

  // ---------------------------------------------------------------------------
  // condor_munge

  /** A record after `condor_munge`: the scheduler record (its `LastRemoteHost` trimmed
      and, on request, its `ExitCode` taken from the error log) and the derived fields. */
  datatype Munged = Munged(
    clusterId: int,
    procId: int,
    attrs: Attrs,
    user: Option<string>,
    gemc: Option<string>,
    host: Option<string>,
    condor: Option<string>,
    stderr: Option<string>,
    stdout: Option<string>,
    eff: Option<real>,
    ceff: Option<real>,
    generator: string,
    wallCenti: Option<int>,
    condorId: string,
    gemcJob: string)

  /** The errors `condor_munge` raises for one record, in the order the code can meet
      them: the state lookup `job_states[JobStatus]` (first reached in
      `condor_calc_wallhr`), the key format `'%d.%d'`, `re.search` of a null `UserLog`,
      the id check against the log path, `float(wallhr)` of a completed job without wall hours, the comparison
      `CumulativeSlotTime > 0` without a slot time, and `float(wallhr)` in
      `condor_tally` for a restarted running job without wall hours. */
  const StatusError := "KeyError: JobStatus"
  const IdError := "TypeError: ClusterId and ProcId must be integers"
  const LogError := "TypeError: expected string or bytes-like object"
  const MismatchError := "ValueError: condor ids do not match."
  const WallError := "TypeError: float() of a missing wallhr"
  const SlotError := "TypeError: CumulativeSlotTime is None"
  const TallyWallError := "TypeError: float() of a missing wallhr in condor_tally"

  /** The record carries both scheduler ids. */
  predicate HasIds(j: Job) {
    j.clusterId.Some? && j.procId.Some?
  }

  /** The log path matches and names a condor id other than the record's key. */
  predicate LogMismatch(key: string, j: Job) {
    j.attrs.userLog.LogAt? && FieldsOf(j.attrs.userLog.path).Some?
    && FieldsOf(j.attrs.userLog.path).value.condor != key
  }

  /** The fields of a matching log path, if the record has one. */
  function LogFieldsOf(a: Attrs): (r: Option<LogFields>)
    ensures r.Some? <==> a.userLog.LogAt? && Search(a.userLog.path).Some?
    ensures r.Some? ==> r == FieldsOf(a.userLog.path)
  {
    if a.userLog.LogAt? then FieldsOf(a.userLog.path) else None
  }

  /** A completed job without wall hours: `float(None)` in the efficiency test. */
  predicate WallMissing(j: Job, now: int)
    requires ValidStatus(j.attrs.jobStatus)
  {
    IsStatus(j.attrs, Completed) && WallCenti(j.attrs, now).None?
  }

  /** A completed or running job that restarted, without wall hours: `float(None)`
      when `condor_tally` charges its bad wall time. */
  predicate TallyWallMissing(j: Job, now: int)
    requires ValidStatus(j.attrs.jobStatus)
  {
    (IsStatus(j.attrs, Completed) || IsStatus(j.attrs, Running)) && j.attrs.numJobStarts > 1
    && WallCenti(j.attrs, now).None?
  }

  /** Munging and tallying the record stored under `key` raises. */
  predicate Raises(key: string, j: Job, now: int) {
    || !ValidStatus(j.attrs.jobStatus)
    || !HasIds(j)
    || j.attrs.userLog.NullLog?
    || LogMismatch(key, j)
    || WallMissing(j, now)
    || j.attrs.cumulativeSlotTime.None?
    || TallyWallMissing(j, now)
  }

  /** `'.'.join(words[0:2])`. */
  function JoinFirstTwo(words: seq<string>): (r: string)
    ensures |words| == 0 ==> r == ""
  {
    if |words| == 0 then "" else if |words| == 1 then words[0] else words[0] + "." + words[1]
  }

  /** The error and output logs derived from a log path never end in `.gz`. */
  lemma DerivedLogsOpenable(files: map<string, string>, log: string)
    ensures Openable(files, Some(DropLast4(log) + ".err"))
    ensures Openable(files, Some(DropLast4(log) + ".out"))
  {
    var e := DropLast4(log) + ".err";
    var o := DropLast4(log) + ".out";
    assert e[|e| - 1] == 'r' && o[|o| - 1] == 't';
  }

  /** One pass of the loop of `condor_munge` over the record stored under `key`, given
      the generator its script names: the first error the record meets, or the munged
      record. The pass ends with `condor_tally(job)`, so the tally's own error is met
      here too. */
  function MungeWith(key: string, j: Job, files: map<string, string>, now: int, parseExit: bool,
                     generator: string): (r: Result<Munged, string>)
    ensures r.Failure? <==> Raises(key, j, now)
    ensures !ValidStatus(j.attrs.jobStatus) ==> r == Failure(StatusError)
    ensures ValidStatus(j.attrs.jobStatus) && !HasIds(j) ==> r == Failure(IdError)
    ensures ValidStatus(j.attrs.jobStatus) && HasIds(j) && j.attrs.userLog.NullLog? ==> r == Failure(LogError)
    ensures ValidStatus(j.attrs.jobStatus) && HasIds(j) && LogMismatch(key, j) ==> r == Failure(MismatchError)
    ensures (ValidStatus(j.attrs.jobStatus) && HasIds(j) && !j.attrs.userLog.NullLog? && !LogMismatch(key, j)
             && WallMissing(j, now)) ==> r == Failure(WallError)
    ensures (ValidStatus(j.attrs.jobStatus) && HasIds(j) && !j.attrs.userLog.NullLog? && !LogMismatch(key, j)
             && !WallMissing(j, now) && j.attrs.cumulativeSlotTime.None?) ==> r == Failure(SlotError)
    ensures r.Success? ==> MungedFrom(key, j, files, now, parseExit, generator, r.value)
  {
    var a := j.attrs;
    if !ValidStatus(a.jobStatus) then Failure(StatusError)
    else if !HasIds(j) then Failure(IdError)
    else if a.userLog.NullLog? then Failure(LogError)
    else if LogMismatch(key, j) then Failure(MismatchError)
    else if WallMissing(j, now) then Failure(WallError)
    else if a.cumulativeSlotTime.None? then Failure(SlotError)
    else if TallyWallMissing(j, now) then Failure(TallyWallError)
    else Success(MungedRecord(key, j, files, now, parseExit, generator))
  }

  /** The munged record of a record that raises nothing. */
  function MungedRecord(key: string, j: Job, files: map<string, string>, now: int, parseExit: bool,
                        generator: string): (m: Munged)
    requires !Raises(key, j, now)
    ensures MungedFrom(key, j, files, now, parseExit, generator, m)
  {
    var a := j.attrs;
    var wall := WallCenti(a, now);
    var fields := LogFieldsOf(a);
    var stderr := if fields.Some? then Some(fields.value.stderr) else None;
    assert Openable(files, stderr) by {
      if fields.Some? { DerivedLogsOpenable(files, a.userLog.path); }
    }
    var exitCode := if parseExit && IsStatus(a, Held) then GetExitCode(files, stderr) else a.exitCode;
    var lastHost := if a.lastRemoteHost.Some? then Some(TrimLastHost(a.lastRemoteHost.value)) else None;
    Munged(
      j.clusterId.value, j.procId.value,
      a.(lastRemoteHost := lastHost, exitCode := exitCode),
      if fields.Some? then Some(fields.value.user) else None,
      if fields.Some? then Some(fields.value.gemc) else None,
      if a.remoteHost.Some? then Some(TrimHost(a.remoteHost.value)) else None,
      if fields.Some? then Some(fields.value.condor) else None,
      stderr,
      if fields.Some? then Some(fields.value.stdout) else None,
      Eff(a, wall),
      Ceff(a),
      generator,
      wall,
      IdKey(j.clusterId.value, j.procId.value),
      JoinFirstTwo(Tokens(a.args)))
  }

  /** What a munged record holds: the ids and key of the scheduler record; the fields
      of a matching log path, which names the record's own key; the trimmed host names;
      the wall hours and efficiencies of its run; the generator; the first two words of
      its arguments; the exit code re-read from the error log for a held job when exit
      codes are parsed; and every other attribute as it was. */
  predicate MungedFrom(key: string, j: Job, files: map<string, string>, now: int, parseExit: bool,
                       generator: string, m: Munged)
  {
    && ValidStatus(j.attrs.jobStatus) && HasIds(j) && j.attrs.cumulativeSlotTime.Some?
    && m.clusterId == j.clusterId.value && m.procId == j.procId.value
    && m.condorId == IdKey(m.clusterId, m.procId)
    && m.generator == generator
    && (m.condor.Some? ==> m.condor.value == key)
    && (var f := LogFieldsOf(j.attrs);
        && m.user == (if f.Some? then Some(f.value.user) else None)
        && m.gemc == (if f.Some? then Some(f.value.gemc) else None)
        && m.condor == (if f.Some? then Some(f.value.condor) else None)
        && m.stderr == (if f.Some? then Some(f.value.stderr) else None)
        && m.stdout == (if f.Some? then Some(f.value.stdout) else None))
    && m.host == (if j.attrs.remoteHost.Some? then Some(TrimHost(j.attrs.remoteHost.value)) else None)
    && m.attrs.lastRemoteHost ==
         (if j.attrs.lastRemoteHost.Some? then Some(TrimLastHost(j.attrs.lastRemoteHost.value)) else None)
    && m.attrs.(lastRemoteHost := j.attrs.lastRemoteHost, exitCode := j.attrs.exitCode) == j.attrs
    && m.wallCenti == WallCenti(j.attrs, now)
    && m.eff == Eff(j.attrs, m.wallCenti)
    && m.ceff == Ceff(j.attrs)
    && m.gemcJob == JoinFirstTwo(Tokens(j.attrs.args))
    && (!parseExit || !IsStatus(j.attrs, Held) ==> m.attrs.exitCode == j.attrs.exitCode)
    && (parseExit && IsStatus(j.attrs, Held) ==>
          Openable(files, m.stderr) && m.attrs.exitCode == GetExitCode(files, m.stderr))
  }

  /** The munged record of one entry with the generator parsed from its own script. */
  function MungeFresh(key: string, j: Job, files: map<string, string>, now: int, parseExit: bool): Result<Munged, string>
  {
    MungeWith(key, j, files, now, parseExit, ScriptGenerator(files, UserLogPath(j.attrs)))
  }

  /** `condor_munge` of one entry, threading the generator cache: with the cache in its
      reachable shape, the record is the freshly computed one and the cache stays in
      shape. */
  function Munge(key: string, j: Job, files: map<string, string>, now: int, parseExit: bool,
                 cache: map<CacheKey, string>): (r: (Result<Munged, string>, map<CacheKey, string>))
    ensures CacheShape(cache) ==>
      r.0 == MungeFresh(key, j, files, now, parseExit) && CacheShape(r.1)
  {
    var (generator, cache') := GetGenerator(cache, j.clusterId, files, UserLogPath(j.attrs));
    assert CacheShape(cache) ==> generator == ScriptGenerator(files, UserLogPath(j.attrs)) by {
      if CacheShape(cache) { CacheNeverHits(cache, j.clusterId, files, UserLogPath(j.attrs)); }
    }
    (MungeWith(key, j, files, now, parseExit, generator), cache')
  }

  /** When the log path matches, user, gemc id and condor id are its groups and the
      error and output logs sit beside it. */
  lemma MungeLogFields(key: string, j: Job, files: map<string, string>, now: int, parseExit: bool)
    requires j.attrs.userLog.LogAt? && Search(j.attrs.userLog.path).Some?
    requires MungeFresh(key, j, files, now, parseExit).Success?
    ensures var m := MungeFresh(key, j, files, now, parseExit).value;
      var g := Search(j.attrs.userLog.path).value;
      var log := j.attrs.userLog.path;
      m.user == Some(g.user) && m.gemc == Some(g.gemc) && m.condor == Some(g.cluster + "." + g.proc)
      && m.stderr == Some(DropLast4(log) + ".err") && m.stdout == Some(DropLast4(log) + ".out")
  {
  }

  /** The example log path names user alice, gemc job 12 and condor id 56.7; a record
      that munges under that key raises the id mismatch under any other. */
  lemma MungeExampleMismatch(j: Job, files: map<string, string>, now: int, parseExit: bool)
    requires j.attrs.userLog == LogAt(ExampleLog) && !Raises("56.7", j, now)
    ensures MungeFresh("56.8", j, files, now, parseExit) == Failure(MismatchError)
    ensures MungeFresh("56.7", j, files, now, parseExit).Success?
  {
    ExamplePath();
  }

  /** The fresh munge of every entry, in order. */
  function Outcomes(data: Snapshot, files: map<string, string>, now: int, parseExit: bool): (r: seq<Result<Munged, string>>)
    ensures |r| == |data|
    decreases |data|
  {
    if |data| == 0 then []
    else [MungeFresh(data[0].0, data[0].1, files, now, parseExit)] + Outcomes(data[1..], files, now, parseExit)
  }

  /** The outcome at place `i` is the fresh munge of entry `i`. */
  lemma {:induction false} OutcomeAt(data: Snapshot, files: map<string, string>, now: int, parseExit: bool, i: int)
    requires 0 <= i < |data|
    ensures Outcomes(data, files, now, parseExit)[i] == MungeFresh(data[i].0, data[i].1, files, now, parseExit)
    decreases i
  {
    if i > 0 {
      OutcomeAt(data[1..], files, now, parseExit, i - 1);
      assert data[1..][i - 1] == data[i];
    }
  }

  /** Every outcome succeeded, and `out` pairs each entry's key with its record. */
  predicate Agrees(data: Snapshot, o: seq<Result<Munged, string>>, out: seq<(string, Munged)>) {
    |o| == |data| && |out| == |data| && forall i :: 0 <= i < |data| ==>
      o[i].Success? && out[i] == (data[i].0, o[i].value)
  }

  predicate HasFailure(o: seq<Result<Munged, string>>) {
    exists i :: 0 <= i < |o| && o[i].Failure?
  }

  /** The entries munged so far, in order, or the first error. */
  predicate MungedAs(data: Snapshot, out: seq<(string, Munged)>, files: map<string, string>, now: int, parseExit: bool)
  {
    Agrees(data, Outcomes(data, files, now, parseExit), out)
  }

  predicate SomeFailure(data: Snapshot, files: map<string, string>, now: int, parseExit: bool)
  {
    HasFailure(Outcomes(data, files, now, parseExit))
  }

  /** Outcome `i` is the first failure, and it fails with `e`. */
  predicate FirstFailureIs(o: seq<Result<Munged, string>>, e: string) {
    exists i :: 0 <= i < |o| && o[i] == Failure(e) && forall j :: 0 <= j < i ==> o[j].Success?
  }

  /** The pass raises `e`: the error of the first entry whose munge fails. */
  predicate FailsFirstWith(data: Snapshot, files: map<string, string>, now: int, parseExit: bool, e: string)
  {
    FirstFailureIs(Outcomes(data, files, now, parseExit), e)
  }

  /** A munged snapshot holds, at each place, the entry's key and its fresh munge. */
  lemma MungedAsFresh(data: Snapshot, out: seq<(string, Munged)>, files: map<string, string>, now: int, parseExit: bool, i: int)
    requires MungedAs(data, out, files, now, parseExit) && 0 <= i < |data|
    ensures MungeFresh(data[i].0, data[i].1, files, now, parseExit).Success?
    ensures out[i] == (data[i].0, MungeFresh(data[i].0, data[i].1, files, now, parseExit).value)
  {
    OutcomeAt(data, files, now, parseExit, i);
  }

  /** The pass fails exactly when one entry's fresh munge fails, that is when one entry
      meets one of the errors of `condor_munge`. */
  lemma FailureFresh(data: Snapshot, files: map<string, string>, now: int, parseExit: bool)
    ensures SomeFailure(data, files, now, parseExit) <==>
      exists i :: 0 <= i < |data| && MungeFresh(data[i].0, data[i].1, files, now, parseExit).Failure?
    ensures SomeFailure(data, files, now, parseExit) <==>
      exists i :: 0 <= i < |data| && Raises(data[i].0, data[i].1, now)
  {
    var o := Outcomes(data, files, now, parseExit);
    if SomeFailure(data, files, now, parseExit) {
      var i :| 0 <= i < |o| && o[i].Failure?;
      OutcomeAt(data, files, now, parseExit, i);
    }
    if exists i :: 0 <= i < |data| && MungeFresh(data[i].0, data[i].1, files, now, parseExit).Failure? {
      var i :| 0 <= i < |data| && MungeFresh(data[i].0, data[i].1, files, now, parseExit).Failure?;
      OutcomeAt(data, files, now, parseExit, i);
    }
  }

  function MungeFrom(data: Snapshot, files: map<string, string>, now: int, parseExit: bool,
                     cache: map<CacheKey, string>): (r: Result<seq<(string, Munged)>, string>)
    requires CacheShape(cache)
    ensures r.Success? ==> MungedAs(data, r.value, files, now, parseExit)
    ensures r.Failure? <==> SomeFailure(data, files, now, parseExit)
    ensures r.Failure? ==> FailsFirstWith(data, files, now, parseExit, r.error)
    decreases |data|
  {
    if |data| == 0 then Success([])
    else
      var (head, cache') := Munge(data[0].0, data[0].1, files, now, parseExit, cache);
      var rest := MungeFrom(data[1..], files, now, parseExit, cache');
      MungeFromStep(data, files, now, parseExit, rest);
      match head
      case Failure(e) => Failure(e)
      case Success(m) =>
        match rest
        case Failure(e) => Failure(e)
        case Success(out) => Success([(data[0].0, m)] + out)
  }

  /** How the munged head and tail make up the whole. */
  lemma MungeFromStep(data: Snapshot, files: map<string, string>, now: int, parseExit: bool,
                      rest: Result<seq<(string, Munged)>, string>)
    requires |data| > 0
    requires rest.Success? ==> MungedAs(data[1..], rest.value, files, now, parseExit)
    requires rest.Failure? <==> SomeFailure(data[1..], files, now, parseExit)
    requires rest.Failure? ==> FailsFirstWith(data[1..], files, now, parseExit, rest.error)
    ensures var head := MungeFresh(data[0].0, data[0].1, files, now, parseExit);
      && (head.Success? && rest.Success? ==>
            MungedAs(data, [(data[0].0, head.value)] + rest.value, files, now, parseExit))
      && (head.Failure? || rest.Failure? <==> SomeFailure(data, files, now, parseExit))
    ensures var head := MungeFresh(data[0].0, data[0].1, files, now, parseExit);
      head.Failure? ==> FailsFirstWith(data, files, now, parseExit, head.error)
    ensures var head := MungeFresh(data[0].0, data[0].1, files, now, parseExit);
      head.Success? && rest.Failure? ==> FailsFirstWith(data, files, now, parseExit, rest.error)
  {
    var head := MungeFresh(data[0].0, data[0].1, files, now, parseExit);
    var o := Outcomes(data, files, now, parseExit);
    assert o[0] == head && o[1..] == Outcomes(data[1..], files, now, parseExit);
    if head.Success? && rest.Success? {
      AgreesCons(data, o, head.value, rest.value);
    }
    FailureCons(o);
    if head.Failure? {
      assert o[0] == Failure(head.error);
    } else if rest.Failure? {
      FirstFailureCons(o, rest.error);
    }
  }

  /** A first failure among the rest, behind a success, is the first failure of all. */
  lemma FirstFailureCons(o: seq<Result<Munged, string>>, e: string)
    requires |o| > 0 && o[0].Success? && FirstFailureIs(o[1..], e)
    ensures FirstFailureIs(o, e)
  {
    var k :| 0 <= k < |o| - 1 && o[1..][k] == Failure(e) && forall j :: 0 <= j < k ==> o[1..][j].Success?;
    forall j | 0 <= j < k + 1
      ensures o[j].Success?
    {
      if j > 0 { assert o[j] == o[1..][j - 1]; }
    }
    assert o[k + 1] == Failure(e);
  }

  /** The error the pass raises is that of the first entry whose fresh munge fails,
      every entry before it munging. */
  lemma FailsFirstFresh(data: Snapshot, files: map<string, string>, now: int, parseExit: bool, e: string)
    requires FailsFirstWith(data, files, now, parseExit, e)
    ensures exists i ::
      && 0 <= i < |data| && MungeFresh(data[i].0, data[i].1, files, now, parseExit) == Failure(e)
      && forall j :: 0 <= j < i ==> MungeFresh(data[j].0, data[j].1, files, now, parseExit).Success?
  {
    var o := Outcomes(data, files, now, parseExit);
    var i :| 0 <= i < |o| && o[i] == Failure(e) && forall j :: 0 <= j < i ==> o[j].Success?;
    OutcomeAt(data, files, now, parseExit, i);
    forall j | 0 <= j < i
      ensures MungeFresh(data[j].0, data[j].1, files, now, parseExit).Success?
    {
      OutcomeAt(data, files, now, parseExit, j);
    }
  }

  /** A successful first outcome in front of an agreeing rest agrees. */
  lemma AgreesCons(data: Snapshot, o: seq<Result<Munged, string>>, m: Munged, out: seq<(string, Munged)>)
    requires |data| > 0 && |o| == |data| && o[0] == Success(m)
    requires Agrees(data[1..], o[1..], out)
    ensures Agrees(data, o, [(data[0].0, m)] + out)
  {
    var r := [(data[0].0, m)] + out;
    forall i | 1 <= i < |data|
      ensures o[i].Success? && r[i] == (data[i].0, o[i].value)
    {
      assert data[1..][i - 1] == data[i] && o[1..][i - 1] == o[i] && r[i] == out[i - 1];
    }
  }

  /** Some outcome fails exactly when the first does or one of the rest does. */
  lemma FailureCons(o: seq<Result<Munged, string>>)
    requires |o| > 0
    ensures HasFailure(o) <==> o[0].Failure? || HasFailure(o[1..])
  {
    if HasFailure(o[1..]) {
      var i :| 0 <= i < |o| - 1 && o[1..][i].Failure?;
      assert o[1..][i] == o[i + 1];
    }
    if HasFailure(o) && o[0].Success? {
      var i :| 0 <= i < |o| && o[i].Failure?;
      assert o[1..][i - 1] == o[i];
    }
  }

  /** `condor_munge` over a whole snapshot, in order, starting from the empty generator
      cache: each entry is munged on its own, and any entry that meets one of the
      errors of `condor_munge` makes the whole pass raise. */
  function MungeAll(data: Snapshot, files: map<string, string>, now: int, parseExit: bool): (r: Result<seq<(string, Munged)>, string>)
    ensures r.Success? ==> MungedAs(data, r.value, files, now, parseExit)
    ensures r.Failure? <==> SomeFailure(data, files, now, parseExit)
    ensures r.Failure? ==> FailsFirstWith(data, files, now, parseExit, r.error)
  {
    MungeFrom(data, files, now, parseExit, map[])
  }
}
