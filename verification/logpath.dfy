/** Reading the portal's identifiers out of a job's log path. The log pattern
    `/<user>/job_<gemc>/log/job.<cluster>.<proc>.` can only match whole path
    segments (none of its pieces can contain `/`), so it is modelled as a window of
    four consecutive segments of the path split on `/`: a lower-case user name, a
    `job_` directory with a numeric gemc id, a `log` directory, and a file name
    starting `job.<digits>.<digits>.`. The leftmost window wins, as in a regex search. */
module LogPath {
  import opened Wrappers
  import opened Text

  predicate IsLowerLetter(c: char) {
    'a' <= c <= 'z'
  }

  /** The user segment: one or more lower-case letters. */
  predicate UserSegment(s: string) {
    |s| > 0 && forall i :: 0 <= i < |s| ==> IsLowerLetter(s[i])
  }

  /** The gemc segment: `job_` then one or more digits. */
  predicate GemcSegment(s: string) {
    |s| > 4 && s[..4] == "job_" && AllDigits(s[4..])
  }

  /** The length of the run of digits that starts `s`. */
  function DigitPrefixLen(s: string): (n: nat)
    ensures n <= |s| && AllDigits(s[..n])
    ensures n < |s| ==> !IsDigit(s[n])
    decreases |s|
  {
    if |s| == 0 || !IsDigit(s[0]) then 0
    else
      var n := DigitPrefixLen(s[1..]);
      assert s[..n+1] == [s[0]] + s[1..][..n];
      n + 1
  }

  /** The two numbers of a log file name `job.<cluster>.<proc>.<anything>`; each
      digit group is a maximal run, so it must be followed by the dot. */
  function FileIds(f: string): (r: Option<(string, string)>)
    ensures r.Some? ==> |r.value.0| > 0 && AllDigits(r.value.0) && |r.value.1| > 0 && AllDigits(r.value.1)
    ensures r.Some? ==> StartsWith(f, "job." + r.value.0 + "." + r.value.1 + ".")
  {
    if !StartsWith(f, "job.") then None
    else
      var t := f[4..];
      var a := DigitPrefixLen(t);
      if a == 0 || a >= |t| || t[a] != '.' then None
      else
        var u := t[a+1..];
        var b := DigitPrefixLen(u);
        if b == 0 || b >= |u| || u[b] != '.' then None
        else
          assert f[..4 + a + 1 + b + 1] == "job." + t[..a] + "." + u[..b] + ".";
          Some((t[..a], u[..b]))
  }

  /** The four groups of a successful match. */
  datatype LogMatch = LogMatch(user: string, gemc: string, cluster: string, proc: string)

  /** The window of segments starting at `k` (the segment after the `k`-th slash). */
  function MatchAt(segs: seq<string>, k: int): (r: Option<LogMatch>)
    requires 1 <= k
  {
    if k + 3 < |segs| && UserSegment(segs[k]) && GemcSegment(segs[k+1]) && segs[k+2] == "log" then
      match FileIds(segs[k+3])
      case Some(ids) => Some(LogMatch(segs[k], segs[k+1][4..], ids.0, ids.1))
      case None => None
    else None
  }

  function SearchFrom(segs: seq<string>, k: nat): (r: Option<(nat, LogMatch)>)
    requires 1 <= k
    ensures r.Some? ==> k <= r.value.0 && MatchAt(segs, r.value.0) == Some(r.value.1)
    ensures r.Some? ==> forall j :: k <= j < r.value.0 ==> MatchAt(segs, j).None?
    ensures r.None? ==> forall j :: k <= j ==> MatchAt(segs, j).None?
    decreases |segs| - k
  {
    if k + 3 >= |segs| then None
    else if MatchAt(segs, k).Some? then Some((k, MatchAt(segs, k).value))
    else SearchFrom(segs, k + 1)
  }

  /** `re.search(log_regex, path)`: the groups of the leftmost matching window. */
  function Search(path: string): (r: Option<LogMatch>)
    ensures r.Some? ==> exists k :: (1 <= k && MatchAt(Split(path, '/'), k) == r
      && forall j :: 1 <= j < k ==> MatchAt(Split(path, '/'), j).None?)
    ensures r.None? <==> forall k :: 1 <= k ==> MatchAt(Split(path, '/'), k).None?
  {
    var found := SearchFrom(Split(path, '/'), 1);
    if found.Some? then
      var k := found.value.0;
      assert 1 <= k && MatchAt(Split(path, '/'), k) == Some(found.value.1)
        && forall j :: 1 <= j < k ==> MatchAt(Split(path, '/'), j).None?;
      Some(found.value.1)
    else None
  }

  /** The text the regex matched. */
  function MatchedText(m: LogMatch): string {
    "/" + m.user + "/job_" + m.gemc + "/log/job." + m.cluster + "." + m.proc + "."
  }

  /** Four consecutive segments, with their slashes, occur in the joined path right
      after the segments before them. */
  lemma WindowOccurs(segs: seq<string>, k: int)
    requires 1 <= k && k + 3 < |segs|
    ensures OccursAt(Join(segs, '/'), "/" + segs[k] + "/" + segs[k+1] + "/" + segs[k+2] + "/" + segs[k+3],
                     |Join(segs[..k], '/')|)
  {
    JoinAround(segs, k);
    WindowStarts(segs, k);
    SlashWindow(Join(segs, '/'), Join(segs[..k], '/'), Join(segs[k..], '/'), segs[k], segs[k+1], segs[k+2], segs[k+3]);
  }

  /** The joined path is the segments before `k`, a slash, and the rest. */
  lemma JoinAround(segs: seq<string>, k: int)
    requires 1 <= k < |segs|
    ensures Join(segs, '/') == Join(segs[..k], '/') + "/" + Join(segs[k..], '/')
  {
    JoinSplitAt(segs, '/', k);
  }

  /** The rest of the path from segment `k` starts with the four-segment window. */
  lemma WindowStarts(segs: seq<string>, k: int)
    requires 1 <= k && k + 3 < |segs|
    ensures StartsWith(Join(segs[k..], '/'), segs[k] + "/" + segs[k+1] + "/" + segs[k+2] + "/" + segs[k+3])
  {
    var tail := segs[k..];
    JoinStarts(tail, '/', 4);
    Join4(tail[..4], '/');
  }

  /** Four slash-separated pieces that start the text after `pre` and a slash occur,
      each behind its slash, right after `pre`. */
  lemma SlashWindow(h: string, pre: string, t: string, a: string, b: string, c: string, d: string)
    requires h == pre + "/" + t && StartsWith(t, a + "/" + b + "/" + c + "/" + d)
    ensures OccursAt(h, "/" + a + "/" + b + "/" + c + "/" + d, |pre|)
  {
    var w := a + "/" + b + "/" + c + "/" + d;
    PrefixExtend("/", t, w);
    OccursAfter(pre, "/" + t, "/" + w);
    assert pre + "/" + t == pre + ("/" + t);
    assert "/" + w == "/" + a + "/" + b + "/" + c + "/" + d;
  }

  /** The groups of a matching window have the shapes the pattern demands. */
  lemma MatchAtShape(segs: seq<string>, k: int)
    requires 1 <= k && MatchAt(segs, k).Some?
    ensures var m := MatchAt(segs, k).value;
      UserSegment(m.user) && |m.gemc| > 0 && AllDigits(m.gemc)
      && |m.cluster| > 0 && AllDigits(m.cluster) && |m.proc| > 0 && AllDigits(m.proc)
  {
  }

  /** The text of a matching window occurs in the joined path. */
  lemma MatchAtOccurs(segs: seq<string>, k: int)
    requires 1 <= k && MatchAt(segs, k).Some?
    ensures OccursAt(Join(segs, '/'), MatchedText(MatchAt(segs, k).value), |Join(segs[..k], '/')|)
  {
    var m := MatchAt(segs, k).value;
    WindowOccurs(segs, k);
    WindowMatch(Join(segs, '/'), |Join(segs[..k], '/')|, segs[k], segs[k+1], segs[k+2], segs[k+3], m);
  }

  /** A window whose pieces have the pattern's shape carries the matched text. */
  lemma WindowMatch(h: string, i: int, user: string, g: string, l: string, f: string, m: LogMatch)
    requires OccursAt(h, "/" + user + "/" + g + "/" + l + "/" + f, i)
    requires user == m.user && g == "job_" + m.gemc && l == "log"
    requires StartsWith(f, "job." + m.cluster + "." + m.proc + ".")
    ensures OccursAt(h, MatchedText(m), i)
  {
    var x := "/" + user + "/" + g + "/" + l + "/";
    var pre := "job." + m.cluster + "." + m.proc + ".";
    PrefixExtend(x, f, pre);
    assert x + f == "/" + user + "/" + g + "/" + l + "/" + f;
    OccursPrefix(h, x + f, x + pre, i);
    assert x == "/" + m.user + "/job_" + m.gemc + "/log/";
    assert MatchedText(m) == x + pre;
  }

  /** Soundness of the window model: a match's groups have the shapes the pattern
      demands, and the matched text occurs in the path. */
  lemma SearchSound(path: string)
    requires Search(path).Some?
    ensures var m := Search(path).value;
      UserSegment(m.user) && |m.gemc| > 0 && AllDigits(m.gemc)
      && |m.cluster| > 0 && AllDigits(m.cluster) && |m.proc| > 0 && AllDigits(m.proc)
    ensures exists i :: OccursAt(path, MatchedText(Search(path).value), i)
  {
    var segs := Split(path, '/');
    var k :| 1 <= k && MatchAt(segs, k) == Search(path);
    JoinSplit(path, '/');
    MatchAtShape(segs, k);
    MatchAtOccurs(segs, k);
  }

  /** Python's `s[0:-4]`: all but the last four characters, or nothing. */
  function DropLast4(s: string): (r: string)
    ensures |s| >= 4 ==> |r| == |s| - 4 && r == s[..|s| - 4]
    ensures |s| < 4 ==> r == ""
  {
    if |s| >= 4 then s[..|s| - 4] else ""
  }

  /** The fields the log path sets on a job. */
  datatype LogFields = LogFields(user: string, gemc: string, condor: string, stderr: string, stdout: string)

  /** The fields derived from a matching log path: user and gemc id from their groups,
      the condor id `<cluster>.<proc>`, and the error and output logs beside it. */
  function FieldsOf(path: string): (r: Option<LogFields>)
    ensures r.Some? <==> Search(path).Some?
    ensures r.Some? ==> r.value.condor == Search(path).value.cluster + "." + Search(path).value.proc
    ensures r.Some? ==> r.value.user == Search(path).value.user && r.value.gemc == Search(path).value.gemc
    ensures r.Some? ==> r.value.stderr == DropLast4(path) + ".err" && r.value.stdout == DropLast4(path) + ".out"
  {
    match Search(path)
    case None => None
    case Some(m) =>
      Some(LogFields(m.user, m.gemc, m.cluster + "." + m.proc, DropLast4(path) + ".err", DropLast4(path) + ".out"))
  }

  /** The bare cluster id of a parsed condor id is its cluster group. */
  lemma ClusterOfCondor(path: string)
    requires FieldsOf(path).Some?
    ensures BeforeFirst(FieldsOf(path).value.condor, '.') == Search(path).value.cluster
  {
    SearchSound(path);
    DigitsBeforeDot(Search(path).value.cluster, Search(path).value.proc);
  }

  /** Digits followed by a dot are the text before the first dot. */
  lemma DigitsBeforeDot(c: string, p: string)
    requires AllDigits(c)
    ensures BeforeFirst(c + "." + p, '.') == c
  {
    var s := c + "." + p;
    assert '.' !in c by {
      forall i | 0 <= i < |c|
        ensures c[i] != '.'
      {
        assert IsDigit(c[i]);
      }
    }
    assert s[..|c|] == c && s[|c|] == '.';
  }

  const ExampleSegments: seq<string> := ["", "pool", "gemc", "alice", "job_12", "log", "job.56.7.log"]
  const ExampleLog: string := "/pool/gemc/alice/job_12/log/job.56.7.log"

  lemma ExampleSplit()
    ensures Split(ExampleLog, '/') == ExampleSegments
  {
    var segs := ExampleSegments;
    assert segs[..1] == [""];
    assert Join(segs[..2], '/') == "/pool" by { assert segs[..2][..1] == segs[..1]; }
    assert Join(segs[..3], '/') == "/pool/gemc" by { assert segs[..3][..2] == segs[..2]; }
    assert Join(segs[..4], '/') == "/pool/gemc/alice" by { assert segs[..4][..3] == segs[..3]; }
    assert Join(segs[..5], '/') == "/pool/gemc/alice/job_12" by { assert segs[..5][..4] == segs[..4]; }
    assert Join(segs[..6], '/') == "/pool/gemc/alice/job_12/log" by { assert segs[..6][..5] == segs[..5]; }
    assert Join(segs, '/') == ExampleLog by { assert segs[..6] == segs[..|segs|-1]; }
    SplitJoin(segs, '/');
  }

  lemma ExampleFileIds()
    ensures FileIds("job.56.7.log") == Some(("56", "7"))
  {
    var f := "job.56.7.log";
    var t := f[4..];
    assert t == "56.7.log";
    assert t[1..][1..] == ".7.log";
    assert DigitPrefixLen(t[1..][1..]) == 0;
    assert DigitPrefixLen(t[1..]) == 1;
    assert DigitPrefixLen(t) == 2;
    var u := t[3..];
    assert u == "7.log" && u[1..] == ".log";
    assert DigitPrefixLen(u[1..]) == 0;
    assert DigitPrefixLen(u) == 1;
    assert StartsWith(f, "job.");
    assert t[..2] == "56" && t[2] == '.' && u[..1] == "7" && u[1] == '.';
  }

  lemma ExampleWindow()
    ensures SearchFrom(ExampleSegments, 1) == Some((3, LogMatch("alice", "12", "56", "7")))
  {
    var segs := ExampleSegments;
    ExampleMisses();
    ExampleHit();
    assert SearchFrom(segs, 3) == Some((3, LogMatch("alice", "12", "56", "7")));
    assert SearchFrom(segs, 2) == SearchFrom(segs, 3);
  }

  /** The windows at the first two segments fail on their gemc directory. */
  lemma ExampleMisses()
    ensures MatchAt(ExampleSegments, 1).None? && MatchAt(ExampleSegments, 2).None?
  {
    var segs := ExampleSegments;
    assert |segs[2]| == 4 && !GemcSegment(segs[2]);
    assert segs[3][0] == 'a' && !GemcSegment(segs[3]);
  }

  lemma ExampleHit()
    ensures MatchAt(ExampleSegments, 3) == Some(LogMatch("alice", "12", "56", "7"))
  {
    var segs := ExampleSegments;
    assert UserSegment(segs[3]);
    assert segs[4][..4] == "job_" && segs[4][4..] == "12" && GemcSegment(segs[4]);
    ExampleFileIds();
  }

  lemma ExampleSearch()
    ensures Search(ExampleLog) == Some(LogMatch("alice", "12", "56", "7"))
  {
    ExampleSplit();
    ExampleWindow();
  }

  /** The example path without its `.log` extension. */
  const ExampleStem: string := "/pool/gemc/alice/job_12/log/job.56.7"

  lemma ExampleStemLog()
    ensures ExampleLog == ExampleStem + ".log"
  {
  }

  /** A log path of the portal's layout yields its user, ids and log files. */
  lemma ExamplePath()
    ensures FieldsOf(ExampleLog)
      == Some(LogFields("alice", "12", "56.7", ExampleStem + ".err", ExampleStem + ".out"))
  {
    ExampleSearch();
    ExampleStemLog();
    DropLog(ExampleLog, ExampleStem);
    assert "56" + "." + "7" == "56.7";
  }

  /** Dropping the last four characters of a `.log` path leaves its stem. */
  lemma DropLog(s: string, stem: string)
    requires s == stem + ".log"
    ensures DropLast4(s) == stem
  {
    assert s[..|s| - 4] == stem;
  }
}
