/** The helpers the reports are built from: means with the `'-'` sentinel, reading a
    file's lines forwards and backwards, and the log checks (exit code, CVMFS, XRootD).
    File contents come in as a map from path to text. */
module Tools {
  import opened Wrappers
  import opened Text
  import opened Config

  // ---------------------------------------------------------------------------
  // average and stddev

  function Sum(xs: seq<real>): real
    decreases |xs|
  {
    if |xs| == 0 then 0.0 else Sum(xs[..|xs|-1]) + xs[|xs|-1]
  }

  /** `average(xs)`: the arithmetic mean, or `None` (printed as `'-'`) for no values. */
  function Average(xs: seq<real>): (r: Option<real>)
    ensures r.None? <==> |xs| == 0
    ensures r.Some? ==> r.value * (|xs| as real) == Sum(xs)
  {
    if |xs| > 0 then Some(Sum(xs) / (|xs| as real)) else None
  }

  /** Values of at least `lo` add up to at least `lo` per value. */
  lemma {:induction false} SumAtLeast(xs: seq<real>, lo: real)
    requires forall i :: 0 <= i < |xs| ==> lo <= xs[i]
    ensures lo * (|xs| as real) <= Sum(xs)
    decreases |xs|
  {
    if |xs| > 0 {
      SumAtLeast(xs[..|xs|-1], lo);
    }
  }

  /** Values of at most `hi` add up to at most `hi` per value. */
  lemma {:induction false} SumAtMost(xs: seq<real>, hi: real)
    requires forall i :: 0 <= i < |xs| ==> xs[i] <= hi
    ensures Sum(xs) <= hi * (|xs| as real)
    decreases |xs|
  {
    if |xs| > 0 {
      SumAtMost(xs[..|xs|-1], hi);
    }
  }

  /** The mean lies between any bounds of the values. */
  lemma AverageBounds(xs: seq<real>, lo: real, hi: real)
    requires |xs| > 0
    requires forall i :: 0 <= i < |xs| ==> lo <= xs[i] <= hi
    ensures lo <= Average(xs).value <= hi
  {
    SumAtLeast(xs, lo);
    SumAtMost(xs, hi);
    var n := |xs| as real;
    var m := Average(xs).value;
    assert m * n == Sum(xs);
    assert lo * n <= m * n <= hi * n;
  }

  /** The mean of equal values is that value. */
  lemma AverageOfEqual(xs: seq<real>, c: real)
    requires |xs| > 0
    requires forall i :: 0 <= i < |xs| ==> xs[i] == c
    ensures Average(xs) == Some(c)
  {
    AverageBounds(xs, c, c);
  }

  /** A whole number of hundredths. */
  predicate IsCenti(r: real) {
    (r * 100.0).Floor as real == r * 100.0
  }

  /** `float('%.2f' % x)`: the hundredth nearest to `x`, a value halfway between two
      rounding up. */
  function Centi(x: real): (r: real)
    ensures IsCenti(r) && x - 0.005 < r <= x + 0.005
  {
    var k := (x * 100.0 + 0.5).Floor;
    assert (k as real / 100.0) * 100.0 == k as real;
    k as real / 100.0
  }

  /** Only one hundredth lies that close to `x`. */
  lemma CentiUnique(x: real, r: real)
    requires IsCenti(r) && x - 0.005 < r <= x + 0.005
    ensures Centi(x) == r
  {
    var k := (r * 100.0).Floor;
    assert k as real == r * 100.0;
    assert k as real <= x * 100.0 + 0.5 < k as real + 1.0;
    assert (x * 100.0 + 0.5).Floor == k;
  }

  function SquaredDeviation(xs: seq<real>, m: real): (r: real)
    ensures r >= 0.0
    decreases |xs|
  {
    if |xs| == 0 then 0.0
    else
      var d := xs[|xs|-1] - m;
      assert d * d >= 0.0 by {
        if d < 0.0 { assert d * d == (-d) * (-d); }
      }
      SquaredDeviation(xs[..|xs|-1], m) + d * d
  }

  /** `stddev(xs)` before its square root: the mean squared deviation from the mean
      as `average` prints it, rounded to hundredths, or `None` (printed as `'-'`) for
      no values. */
  function Variance(xs: seq<real>): (r: Option<real>)
    ensures r.None? <==> |xs| == 0
    ensures r.Some? ==> r.value >= 0.0
  {
    if |xs| > 0 then Some(SquaredDeviation(xs, Centi(Average(xs).value)) / (|xs| as real)) else None
  }

  /** The spread is measured from the rounded mean: 1.00, 1.01, 1.01 have the mean
      1.0066..., printed as 1.01, so only the first value deviates, by 0.01, and the
      standard deviation is the square root of 0.0001 / 3, about 0.0058, printed as
      0.01. */
  lemma VarianceExample()
    ensures Variance([1.0, 1.01, 1.01]) == Some(0.0001 / 3.0)
  {
    var xs := [1.0, 1.01, 1.01];
    var one, two := [1.0], [1.0, 1.01];
    assert xs[..2] == two && two[..1] == one && one[..0] == [];
    assert Sum(one) == 1.0;
    assert Sum(two) == 2.01;
    assert Sum(xs) == 3.02;
    assert Average(xs) == Some(3.02 / 3.0);
    CentiUnique(3.02 / 3.0, 1.01);
    assert SquaredDeviation(one, 1.01) == 0.0001;
    assert SquaredDeviation(two, 1.01) == 0.0001;
    assert SquaredDeviation(xs, 1.01) == 0.0001;
  }

  lemma {:induction false} SquaredDeviationZero(xs: seq<real>, c: real)
    requires forall i :: 0 <= i < |xs| ==> xs[i] == c
    ensures SquaredDeviation(xs, c) == 0.0
    decreases |xs|
  {
    if |xs| > 0 {
      SquaredDeviationZero(xs[..|xs|-1], c);
    }
  }

  /** Equal values have no spread. */
  lemma VarianceOfEqual(xs: seq<real>, c: real)
    requires |xs| > 0 && IsCenti(c)
    requires forall i :: 0 <= i < |xs| ==> xs[i] == c
    ensures Variance(xs) == Some(0.0)
  {
    AverageOfEqual(xs, c);
    CentiUnique(c, c);
    SquaredDeviationZero(xs, c);
  }

  // ---------------------------------------------------------------------------
  // readlines

  /** A path the readers can open: a `.gz` name sends them to `gzip.open` with an
      `errors` argument, which raises. */
  predicate Openable(files: map<string, string>, path: Option<string>) {
    path.Some? && path.value in files ==> !EndsWith(path.value, ".gz")
  }

  function StripAll(xs: seq<string>): (r: seq<string>)
    ensures |r| == |xs| && forall i :: 0 <= i < |xs| ==> r[i] == Strip(xs[i])
  {
    seq(|xs|, i requires 0 <= i < |xs| => Strip(xs[i]))
  }

  /** The lines of a text as `readlines()` delivers them (a final newline ends the last
      line rather than opening an empty one), each stripped. */
  function Lines(t: string): (r: seq<string>)
    ensures |r| == |Split(t, '\n')| || (|r| == |Split(t, '\n')| - 1 && Split(t, '\n')[|r|] == "")
  {
    var ps := Split(t, '\n');
    StripAll(if ps[|ps| - 1] == "" then ps[..|ps| - 1] else ps)
  }

  /** `readlines(filename)`: no lines for a missing name or file. */
  function Readlines(files: map<string, string>, path: Option<string>): seq<string>
    requires Openable(files, path)
  {
    if path.Some? && path.value in files then Lines(files[path.value]) else []
  }

  lemma SplitRows(ls: seq<string>)
    requires forall i :: 0 <= i < |ls| ==> '\n' !in ls[i]
    ensures Split(Join(ls + [""], '\n'), '\n') == ls + [""]
  {
    var xs := ls + [""];
    forall i | 0 <= i < |xs|
      ensures '\n' !in xs[i]
    {
      if i < |ls| {
        assert xs[i] == ls[i];
      }
    }
    SplitJoin(xs, '\n');
  }

  lemma LinesOfPieces(t: string, ls: seq<string>)
    requires Split(t, '\n') == ls + [""]
    ensures Lines(t) == StripAll(ls)
  {
    var ps := Split(t, '\n');
    assert ps[..|ps| - 1] == ls;
  }

  lemma StripAllFixed(ls: seq<string>)
    requires forall i :: 0 <= i < |ls| ==> Strip(ls[i]) == ls[i]
    ensures StripAll(ls) == ls
  {
  }

  /** Lines written out one per row, each newline-terminated, are read back as written
      when they carry no surrounding whitespace. */
  lemma LinesOfRows(ls: seq<string>)
    requires forall i :: 0 <= i < |ls| ==> '\n' !in ls[i] && Strip(ls[i]) == ls[i]
    ensures Lines(Join(ls + [""], '\n')) == ls
  {
    SplitRows(ls);
    LinesOfPieces(Join(ls + [""], '\n'), ls);
    StripAllFixed(ls);
  }

  // ---------------------------------------------------------------------------
  // readlines_reverse

  function RevSeq<T>(xs: seq<T>): (r: seq<T>)
    ensures |r| == |xs| && forall i :: 0 <= i < |xs| ==> r[i] == xs[|xs| - 1 - i]
  {
    seq(|xs|, i requires 0 <= i < |xs| => xs[|xs| - 1 - i])
  }

  lemma RevSeqCons<T>(x: T, xs: seq<T>)
    ensures RevSeq([x] + xs) == RevSeq(xs) + [x]
  {
  }

  lemma RevSeqTwice<T>(xs: seq<T>)
    ensures RevSeq(RevSeq(xs)) == xs
  {
  }

  /** What `readlines_reverse` yields for a text: its newline-separated pieces from the
      last to the first. With a positive `maxLines` and more newlines than that, it stops
      after the last `maxLines + 1` pieces and yields one more, empty, line. */
  function TrailingLines(t: string, maxLines: int): (r: seq<string>)
    ensures forall i :: 0 <= i < |r| ==> '\n' !in r[i]
  {
    var ps := Split(t, '\n');
    if maxLines > 0 && |ps| - 1 > maxLines then RevSeq(ps[|ps| - (maxLines + 1)..]) + [""]
    else RevSeq(ps)
  }

  /** Without a limit, the lines read in reverse are the whole text: putting them back
      in order and joining them with newlines rebuilds it. */
  lemma TrailingLinesWhole(t: string, maxLines: int)
    requires maxLines <= 0 || CountChar(t, '\n') <= maxLines
    ensures Join(RevSeq(TrailingLines(t, maxLines)), '\n') == t
  {
    RevSeqTwice(Split(t, '\n'));
    JoinSplit(t, '\n');
  }

  /** With a limit, at most `maxLines + 2` lines come out, and those before the final
      empty one are the last pieces of the text, last first. */
  lemma TrailingLinesLimited(t: string, maxLines: int)
    requires maxLines > 0 && CountChar(t, '\n') > maxLines
    ensures |TrailingLines(t, maxLines)| == maxLines + 2
    ensures TrailingLines(t, maxLines)[maxLines + 1] == ""
    ensures forall i :: 0 <= i <= maxLines ==>
      TrailingLines(t, maxLines)[i] == Split(t, '\n')[|Split(t, '\n')| - 1 - i]
  {
  }

  /** The characters not yet read back: everything after `position` (nothing while the
      reader still stands at the end of the text). */
  function Consumed(t: string, position: int): string
    requires -1 <= position <= |t|
  {
    if position == |t| then "" else t[position + 1..]
  }

  /** The reader's state once everything after `position` is consumed: the number of
      newlines seen, the lines yielded so far and the current line, held reversed. */
  function Reading(t: string, position: int): (int, seq<string>, string)
    requires -1 <= position <= |t|
  {
    var ps := Split(Consumed(t, position), '\n');
    (|ps| - 1, RevSeq(ps[1..]), Reverse(ps[0]))
  }

  /** One step back: the end-of-text read changes nothing, a newline yields the current
      line and starts an empty one, any other character joins the current line. */
  lemma ReadBack(t: string, p: int)
    requires 0 <= p <= |t|
    ensures p == |t| ==> Reading(t, p - 1) == Reading(t, p)
    ensures p < |t| && t[p] == '\n' ==>
      Reading(t, p - 1) == (Reading(t, p).0 + 1, Reading(t, p).1 + [Reverse(Reading(t, p).2)], "")
    ensures p < |t| && t[p] != '\n' ==>
      Reading(t, p - 1) == (Reading(t, p).0, Reading(t, p).1, Reading(t, p).2 + [t[p]])
  {
    if p < |t| {
      assert Consumed(t, p - 1) == [t[p]] + Consumed(t, p);
      if t[p] == '\n' {
        ReadNewline(Consumed(t, p));
        ReverseTwice(Split(Consumed(t, p), '\n')[0]);
      } else {
        ReadOther(t[p], Consumed(t, p));
      }
    }
  }

  /** Reading a newline before `rest` yields the current line and starts an empty one. */
  lemma ReadNewline(rest: string)
    ensures var ps := Split(rest, '\n'); var qs := Split("\n" + rest, '\n');
      |qs| - 1 == |ps| && RevSeq(qs[1..]) == RevSeq(ps[1..]) + [ps[0]] && Reverse(qs[0]) == ""
  {
    var ps := Split(rest, '\n');
    SplitCons('\n', rest, '\n');
    RevSeqCons(ps[0], ps[1..]);
    assert ps == [ps[0]] + ps[1..];
  }

  /** Reading any other character before `rest` adds it to the current line. */
  lemma ReadOther(c: char, rest: string)
    requires c != '\n'
    ensures var ps := Split(rest, '\n'); var qs := Split([c] + rest, '\n');
      |qs| == |ps| && qs[1..] == ps[1..] && Reverse(qs[0]) == Reverse(ps[0]) + [c]
  {
    SplitCons(c, rest, '\n');
    ReversePrependChar(c, Split(rest, '\n')[0]);
  }

  /** A reader that stopped early, right after its `maxLines + 1`-th newline, has the
      last pieces of the text behind its current (empty) one. */
  lemma StoppedEarly(t: string, p: int, maxLines: int)
    requires 0 <= p < |t| && maxLines > 0
    requires Reading(t, p).0 == maxLines + 1 && Reading(t, p).2 == ""
    ensures TrailingLines(t, maxLines) == Reading(t, p).1 + [Reverse(Reading(t, p).2)]
  {
    var rest := Consumed(t, p);
    var head := t[..p + 1];
    assert t == head + rest;
    SplitConcat(head, rest, '\n');
    var whole := Split(t, '\n');
    var ps := Split(rest, '\n');
    assert whole[|whole| - (maxLines + 1)..] == ps[1..];
  }

  /** A reader that went through the whole text has seen all of its pieces. */
  lemma ReadToStart(t: string, maxLines: int)
    requires maxLines > 0 ==> Reading(t, -1).0 <= maxLines + 1
    requires maxLines > 0 && Reading(t, -1).0 > maxLines ==> Reading(t, -1).2 == ""
    ensures TrailingLines(t, maxLines) == Reading(t, -1).1 + [Reverse(Reading(t, -1).2)]
  {
    var ps := Split(t, '\n');
    assert Consumed(t, -1) == t;
    RevSeqCons(ps[0], ps[1..]);
    assert ps == [ps[0]] + ps[1..];
    ReverseTwice(ps[0]);
    if maxLines > 0 && |ps| - 1 > maxLines {
      assert ps[|ps| - (maxLines + 1)..] == ps[1..];
    }
  }

  /** The reader's state after one more character read backwards. */
  lemma ReadStep(t: string, p: int, n: int, out: seq<string>, line: string, next: string)
    requires 0 <= p <= |t| && Reading(t, p) == (n, out, line)
    requires next == if p == |t| then "" else [t[p]]
    ensures Reading(t, p - 1)
      == if next == "\n" then (n + 1, out + [Reverse(line)], "") else (n, out, line + next)
  {
    ReadBack(t, p);
    if p < |t| {
      assert next == [t[p]];
      assert next == "\n" <==> t[p] == '\n';
    }
  }

  /** The reader of `readlines_reverse`: it walks the text backwards one character at a
      time from the end-of-text position, collecting a line and yielding it reversed at
      each newline, and stops once more than `maxLines` newlines were seen (for a
      positive `maxLines`). Whatever is collected at the end is yielded as well. */
  method ScanReverse(t: string, maxLines: int) returns (out: seq<string>)
    ensures out == TrailingLines(t, maxLines)
  {
    var nLines := 0;
    var position := |t|;
    var line := "";
    out := [];
    assert Reading(t, position) == (0, [], "");
    while position >= 0
      invariant -1 <= position <= |t|
      invariant Reading(t, position) == (nLines, out, line)
      invariant maxLines > 0 ==> nLines <= maxLines + 1
      invariant maxLines > 0 && nLines > maxLines ==> line == ""
      decreases position
    {
      if nLines > maxLines && maxLines > 0 {
        break;
      }
      var nextChar := if position < |t| then [t[position]] else "";
      ReadStep(t, position, nLines, out, line, nextChar);
      if nextChar == "\n" {
        nLines := nLines + 1;
        out := out + [Reverse(line)];
        line := "";
      } else {
        line := line + nextChar;
      }
      position := position - 1;
    }
    if position < 0 {
      ReadToStart(t, maxLines);
    } else {
      StoppedEarly(t, position, maxLines);
    }
    out := out + [Reverse(line)];
  }

  /** `readlines_reverse(filename, max_lines)`: nothing for a missing name or file. */
  function ReadlinesReverse(files: map<string, string>, path: Option<string>, maxLines: int): (r: seq<string>)
    requires Openable(files, path)
    ensures path.None? || path.value !in files ==> r == []
  {
    if path.Some? && path.value in files then TrailingLines(files[path.value], maxLines) else []
  }

  // ---------------------------------------------------------------------------
  // checks on a job's logs

  /** The exit code a line reports: exactly two whitespace-separated words, `exit` and
      an integer. */
  function ExitOfLine(line: string): Option<int> {
    var cols := Tokens(Strip(line));
    if |cols| == 2 && cols[0] == "exit" then ParseInt(cols[1]) else None
  }

  /** The first `Some` that `f` gives along `xs`. */
  function FirstSome<T, R>(xs: seq<T>, f: T -> Option<R>): (r: Option<R>)
    ensures r.Some? ==> exists i :: (0 <= i < |xs| && f(xs[i]) == r
      && (forall j :: 0 <= j < i ==> f(xs[j]).None?))
    ensures r.None? ==> forall i :: 0 <= i < |xs| ==> f(xs[i]).None?
    decreases |xs|
  {
    if |xs| == 0 then None
    else if f(xs[0]).Some? then f(xs[0])
    else
      var r := FirstSome(xs[1..], f);
      assert forall i :: 0 <= i < |xs| - 1 ==> xs[1..][i] == xs[i + 1];
      r
  }

  /** `get_exit_code(job)`: the code of the first of the job's last standard-error lines
      (scanned from the end, three newlines deep) that reports one, or `None`. */
  function GetExitCode(files: map<string, string>, stderr: Option<string>): (r: Option<int>)
    requires Openable(files, stderr)
    ensures r.Some? ==> exists i :: (0 <= i < |ReadlinesReverse(files, stderr, 3)|
      && ExitOfLine(ReadlinesReverse(files, stderr, 3)[i]) == r
      && (forall j :: 0 <= j < i ==> ExitOfLine(ReadlinesReverse(files, stderr, 3)[j]).None?))
    ensures r.None? ==> forall i :: 0 <= i < |ReadlinesReverse(files, stderr, 3)| ==>
      ExitOfLine(ReadlinesReverse(files, stderr, 3)[i]).None?
  {
    FirstSome(ReadlinesReverse(files, stderr, 3), ExitOfLine)
  }

  /** The pieces of a text ending in a newline-terminated line `w`. */
  lemma SplitLastLine(before: string, w: string)
    requires '\n' !in w
    ensures var ps := Split(before + "\n" + w + "\n", '\n');
      |ps| >= 3 && ps[|ps| - 1] == "" && ps[|ps| - 2] == w
  {
    SplitSnocSep(before, '\n');
    SplitConcat(before + "\n", w, '\n');
    SplitNoSep(w, '\n');
    SplitSnocSep(before + "\n" + w, '\n');
  }

  lemma NoExitInEmptyLine()
    ensures ExitOfLine("") == None
  {
    assert Tokens(Strip("")) == [];
  }

  lemma ExitLineReports(n: int)
    ensures ExitOfLine("exit " + IntToString(n)) == Some(n)
  {
    var w := IntToString(n);
    var line := "exit " + w;
    assert line == "exit" + " " + w;
    TokensOfTwo("exit", w);
    assert line[|line| - 1] == w[|w| - 1];
    StripTrimmed(line);
    IntRoundTrip(n);
    var cols := Tokens(Strip(line));
    assert cols == ["exit", w];
  }

  /** When `f` gives nothing for the first element, the second one's value wins. */
  lemma FirstSomeSecond<T, R>(xs: seq<T>, f: T -> Option<R>)
    requires |xs| >= 2 && f(xs[0]).None? && f(xs[1]).Some?
    ensures FirstSome(xs, f) == f(xs[1])
  {
    assert xs[1..][0] == xs[1];
  }

  /** Read back from a text ending in the newline-terminated line `w`, the first line is
      empty and the second is `w`. */
  lemma TrailingLastLine(before: string, w: string, maxLines: int)
    requires '\n' !in w && maxLines >= 1
    ensures var r := TrailingLines(before + "\n" + w + "\n", maxLines);
      |r| >= 2 && r[0] == "" && r[1] == w
  {
    SplitLastLine(before, w);
  }

  /** A standard-error file whose last line is `exit <n>` reports `n`. */
  lemma ExitFromLastLine(files: map<string, string>, path: string, before: string, n: int)
    requires path in files && !EndsWith(path, ".gz")
    requires files[path] == before + "\nexit " + IntToString(n) + "\n"
    ensures GetExitCode(files, Some(path)) == Some(n)
  {
    var w := "exit " + IntToString(n);
    assert files[path] == before + "\n" + w + "\n";
    TrailingLastLine(before, w, 3);
    NoExitInEmptyLine();
    ExitLineReports(n);
    FirstSomeSecond(ReadlinesReverse(files, Some(path), 3), ExitOfLine);
  }

  /** `check_xrootd(job)`: false exactly for the xrootd failure code. */
  function CheckXrootd(exitCode: Option<int>): (r: bool)
    ensures !r <==> exitCode.Some? && ExitLabel(exitCode.value) == Some("xrootd")
  {
    if exitCode.Some? then
      XrootdCode(exitCode.value);
      exitCode.value != 212
    else true
  }

  /** Some line contains some needle. */
  function AnyContains(lines: seq<string>, needles: seq<string>): (r: bool)
    ensures r <==> exists i, k :: 0 <= i < |lines| && 0 <= k < |needles| && Contains(lines[i], needles[k])
    decreases |lines|
  {
    if |lines| == 0 then false
    else
      var here := exists k :: 0 <= k < |needles| && Contains(lines[0], needles[k]);
      var r := here || AnyContains(lines[1..], needles);
      assert forall i :: 0 <= i < |lines| - 1 ==> lines[1..][i] == lines[i + 1];
      r
  }

  /** `check_cvmfs(job)`: false when one of the last lines of the job's standard output
      (scanned from the end, twenty newlines deep) shows a CVMFS error. */
  function CheckCvmfs(files: map<string, string>, stdout: Option<string>): (r: bool)
    requires Openable(files, stdout)
    ensures !r <==> exists i, k :: (0 <= i < |ReadlinesReverse(files, stdout, 20)| && 0 <= k < |CvmfsErrorStrings|
      && Contains(ReadlinesReverse(files, stdout, 20)[i], CvmfsErrorStrings[k]))
    ensures stdout.None? ==> r
  {
    !AnyContains(ReadlinesReverse(files, stdout, 20), CvmfsErrorStrings)
  }
}
