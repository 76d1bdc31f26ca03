/** The older stand-alone probe. It keys the scheduler's records like the pipeline,
    but derives the log fields with only a warning on an id mismatch, filters with an
    OR across the condor, user and gemc criteria (no vetoes), and prints its own fixed
    table: the composite id, then nine attribute columns, every cell cut and padded to
    its width. Its reverse line reader turns an unreadable character into `?`, and its
    CVMFS check scans the whole error log. The clock reading used for the history
    window and the date text of the table come in as parameters. */
module Probe {
  import opened Wrappers
  import opened Text
  import opened Config
  import opened Values
  import opened OrderedMaps
  import opened LogPath
  import Jobs
  import Tables
  import Tools
  import Matcher

  // ---------------------------------------------------------------------------
  // records and the fields derived from the log path

  /** A record of the snapshot: its two ids and the other attributes by name. */
  datatype ProbeJob = ProbeJob(clusterId: int, procId: int, attrs: map<string, Value>)

  /** The five keys `condor_munge` sets: `None` unless the log path matches. */
  datatype Derived = Derived(user: Option<string>, gemc: Option<string>, condor: Option<string>,
                             stderr: Option<string>, stdout: Option<string>)

  const NoFields: Derived := Derived(None, None, None, None, None)

  /** A record after `condor_munge`. */
  datatype Record = Record(job: ProbeJob, derived: Derived)

  /** `'UserLog' in job`, read as the text `re.search` needs. */
  predicate LogReadable(j: ProbeJob) {
    "UserLog" in j.attrs ==> j.attrs["UserLog"].VStr?
  }

  function UserLog(j: ProbeJob): Option<string>
    requires LogReadable(j)
  {
    if "UserLog" in j.attrs then Some(j.attrs["UserLog"].s) else None
  }

  /** The derived fields: all five from a matching log path, none otherwise. They are
      the same five fields the pipeline derives. */
  function DeriveFields(userLog: Option<string>): (d: Derived)
    ensures d == NoFields <==> userLog.None? || FieldsOf(userLog.value).None?
    ensures d != NoFields ==>
      && d.user.Some? && d.gemc.Some? && d.condor.Some? && d.stderr.Some? && d.stdout.Some?
      && FieldsOf(userLog.value) == Some(LogFields(d.user.value, d.gemc.value, d.condor.value,
                                                d.stderr.value, d.stdout.value))
  {
    if userLog.None? then NoFields
    else
      match FieldsOf(userLog.value)
      case None => NoFields
      case Some(f) => Derived(Some(f.user), Some(f.gemc), Some(f.condor), Some(f.stderr), Some(f.stdout))
  }

  /** The fields derived from a job's log path. */
  function DerivedOf(j: ProbeJob): Derived
    requires LogReadable(j)
  {
    DeriveFields(UserLog(j))
  }

  /** The parsed id differs from the record's key: the probe prints a warning. */
  predicate Mismatch(key: string, d: Derived) {
    d.condor.Some? && d.condor.value != key
  }

  predicate AllReadable(data: seq<(string, ProbeJob)>) {
    forall i :: 0 <= i < |data| ==> LogReadable(data[i].1)
  }

  /** `re.search` of a `UserLog` that is not text. */
  const LogError := "TypeError: expected string or bytes-like object"

  /** `condor_munge()`: it raises on a record whose `UserLog` is not text; otherwise
      every record gets its derived fields and is kept, and the keys whose parsed id
      differs are the ones warned about, in order. */
  function MungeAll(data: seq<(string, ProbeJob)>): (r: Result<(seq<(string, Record)>, seq<string>), string>)
    ensures r.Failure? <==> exists i :: 0 <= i < |data| && !LogReadable(data[i].1)
    ensures r.Failure? ==> r.error == LogError
    ensures r.Success? ==> Keys(r.value.0) == Keys(data)
    ensures r.Success? ==> forall i :: 0 <= i < |data| ==>
      r.value.0[i].1.job == data[i].1 && r.value.0[i].1.derived == DerivedOf(data[i].1)
    ensures r.Success? ==> forall k :: k in r.value.1 <==>
      exists i :: 0 <= i < |data| && data[i].0 == k && Mismatch(k, DerivedOf(data[i].1))
  {
    if !AllReadable(data) then Failure(LogError)
    else
      var recs := Annotated(data);
      assert forall i :: 0 <= i < |data| ==> recs[i].0 == data[i].0;
      Success((recs, Warnings(recs)))
  }

  /** Each record with its derived fields, under its own key. */
  function Annotated(data: seq<(string, ProbeJob)>): (r: seq<(string, Record)>)
    requires AllReadable(data)
    ensures Keys(r) == Keys(data)
    ensures forall i :: 0 <= i < |data| ==>
      r[i].1.job == data[i].1 && r[i].1.derived == DerivedOf(data[i].1)
    decreases |data|
  {
    if |data| == 0 then []
    else
      var init := data[..|data| - 1];
      var (key, j) := data[|data| - 1];
      assert forall i :: 0 <= i < |init| ==> init[i] == data[i];
      Annotated(init) + [(key, Record(j, DerivedOf(j)))]
  }

  /** The keys whose parsed id differs, in order. */
  function Warnings(recs: seq<(string, Record)>): (r: seq<string>)
    ensures forall k :: k in r <==>
      exists i :: 0 <= i < |recs| && recs[i].0 == k && Mismatch(k, recs[i].1.derived)
    decreases |recs|
  {
    if |recs| == 0 then []
    else
      var init := recs[..|recs| - 1];
      var (key, rec) := recs[|recs| - 1];
      assert forall i :: 0 <= i < |init| ==> init[i] == recs[i];
      Warnings(init) + (if Mismatch(key, rec.derived) then [key] else [])
  }

  // ---------------------------------------------------------------------------
  // the OR filter

  /** The `-condor`, `-user` and `-gemc` criteria, in the order given. */
  datatype Criteria = Criteria(condor: seq<string>, user: seq<string>, gemc: seq<string>)

  /** `job['condor'].split('.')` runs as soon as there is a condor criterion. */
  predicate MatchDefined(d: Derived, c: Criteria) {
    |c.condor| > 0 ==> d.condor.Some?
  }

  /** A condor criterion names the full composite id or the bare cluster id. */
  predicate CondorHit(d: Derived, x: string) {
    d.condor.Some? && (x == d.condor.value || x == BeforeFirst(d.condor.value, '.'))
  }

  /** The record is admitted: there are no criteria at all, or one criterion of any
      of the three kinds names it. */
  predicate Admits(d: Derived, c: Criteria) {
    || (|c.condor| == 0 && |c.user| == 0 && |c.gemc| == 0)
    || (exists i :: 0 <= i < |c.condor| && CondorHit(d, c.condor[i]))
    || (exists i :: 0 <= i < |c.user| && d.user == Some(c.user[i]))
    || (exists i :: 0 <= i < |c.gemc| && d.gemc == Some(c.gemc[i]))
  }

  /** The error `job['condor'].split` raises on a record without a condor id. */
  const SplitError := "AttributeError: 'NoneType' object has no attribute 'split'"

  /** `condor_match(job, args)`: the three loops, each returning on its first hit; the
      first condor criterion raises on a record without a condor id. */
  method CondorMatch(d: Derived, c: Criteria) returns (r: Result<bool, string>)
    ensures r.Failure? <==> !MatchDefined(d, c)
    ensures r.Failure? ==> r.error == SplitError
    ensures r.Success? ==> (r.value <==> Admits(d, c))
  {
    if |c.condor| == 0 && |c.user| == 0 && |c.gemc| == 0 {
      return Success(true);
    }
    if |c.condor| > 0 && d.condor.None? {
      return Failure(SplitError);
    }
    var i := 0;
    while i < |c.condor|
      invariant 0 <= i <= |c.condor|
      invariant forall j :: 0 <= j < i ==> !CondorHit(d, c.condor[j])
    {
      var x := c.condor[i];
      if x == d.condor.value || x == BeforeFirst(d.condor.value, '.') {
        return Success(true);
      }
      i := i + 1;
    }
    i := 0;
    while i < |c.user|
      invariant 0 <= i <= |c.user|
      invariant forall j :: 0 <= j < i ==> d.user != Some(c.user[j])
    {
      if d.user == Some(c.user[i]) {
        return Success(true);
      }
      i := i + 1;
    }
    i := 0;
    while i < |c.gemc|
      invariant 0 <= i <= |c.gemc|
      invariant forall j :: 0 <= j < i ==> d.gemc != Some(c.gemc[j])
    {
      if d.gemc == Some(c.gemc[i]) {
        return Success(true);
      }
      i := i + 1;
    }
    return Success(false);
  }

  function AsValues(xs: seq<string>): (r: seq<Value>)
    ensures |r| == |xs| && forall i :: 0 <= i < |xs| ==> r[i] == VStr(xs[i])
  {
    seq(|xs|, i requires 0 <= i < |xs| => VStr(xs[i]))
  }

  /** On user criteria alone, none starting with a dash, the probe admits exactly what
      the pipeline's user matcher admits for a record with a user. */
  lemma UserFilterAgrees(d: Derived, users: seq<string>)
    requires d.user.Some?
    requires forall i :: 0 <= i < |users| ==> !Matcher.IsVeto(users[i])
    ensures Admits(d, Criteria([], users, [])) <==> Matcher.Matches(Matcher.Build(AsValues(users)), VStr(d.user.value))
  {
    var cs := AsValues(users);
    var v := VStr(d.user.value);
    Matcher.MatchesAccepts(cs, v);
    assert !Matcher.NamesVeto(cs, Show(v));
    if |users| > 0 {
      assert !Matcher.AllVetoes(cs) by {
        assert !Matcher.IsVeto(Show(cs[0]));
      }
      if Admits(d, Criteria([], users, [])) {
        var i :| 0 <= i < |users| && d.user == Some(users[i]);
        assert !Matcher.IsVeto(Show(cs[i])) && Show(cs[i]) == Show(v);
      }
      if Matcher.NamesPositive(cs, Show(v)) {
        var i :| 0 <= i < |cs| && !Matcher.IsVeto(Show(cs[i])) && Show(cs[i]) == Show(v);
        assert d.user == Some(users[i]);
      }
    }
  }

  /** There are no vetoes: a dashed user criterion admits only the user spelt with
      the dash, where the pipeline's matcher would admit every other user. */
  lemma DashIsLiteral()
    ensures !Admits(Derived(Some("bob"), None, None, None, None), Criteria([], ["-alice"], []))
    ensures Matcher.Matches(Matcher.Build([VStr("-alice")]), VStr("bob"))
  {
    Matcher.BuildOne(VStr("-alice"));
    assert Matcher.IsVeto("-alice") && "-alice"[1..] == "alice";
  }

  // ---------------------------------------------------------------------------
  // the cells of a table row

  const Undefined: string := "undefined"
  const NotAvailable: string := "n/a"

  /** Every `undefined` is rewritten; what the scan leaves never starts with one. */
  function Unmarked(s: string): string {
    Replace(s, Undefined, NotAvailable)
  }

  /** The rewritten text cannot start with a text that has no `/` and does not end in
      `n` unless the original did: an inserted `n/a` cannot supply its first two
      characters, nor its last one. */
  lemma {:induction false} UnmarkedPrefix(s: string, p: string)
    requires |p| > 0 && '/' !in p && p[|p| - 1] != 'n'
    ensures StartsWith(Unmarked(s), p) ==> StartsWith(s, p)
    decreases |s|
  {
    if |s| >= |Undefined| {
      var r := Unmarked(s);
      if s[..|Undefined|] == Undefined {
        assert r == NotAvailable + Unmarked(s[|Undefined|..]);
        assert r[0] == 'n' && r[1] == '/';
      } else {
        var rest := Unmarked(s[1..]);
        assert r == [s[0]] + rest;
        if |p| > 1 {
          UnmarkedPrefix(s[1..], p[1..]);
          assert StartsWith(r, p) ==> StartsWith(rest, p[1..]) by {
            if StartsWith(r, p) {
              assert rest[..|p| - 1] == r[1..|p|];
            }
          }
          assert StartsWith(s[1..], p[1..]) && s[0] == p[0] ==> StartsWith(s, p) by {
            if |p| <= |s| {
              assert s[..|p|] == [s[0]] + s[1..][..|p| - 1];
            }
          }
        }
      }
    }
  }

  /** `x.replace('undefined', 'n/a')` leaves no `undefined` behind. */
  lemma {:induction false} NoUndefinedLeft(s: string)
    ensures forall i :: !OccursAt(Unmarked(s), Undefined, i)
    decreases |s|
  {
    if |s| >= |Undefined| {
      var r := Unmarked(s);
      if s[..|Undefined|] == Undefined {
        var rest := Unmarked(s[|Undefined|..]);
        NoUndefinedLeft(s[|Undefined|..]);
        assert r == NotAvailable + rest;
        InsertedNoUndefined(rest);
        NoOccurPast(r, NotAvailable, rest, Undefined);
      } else {
        var rest := Unmarked(s[1..]);
        NoUndefinedLeft(s[1..]);
        assert r == [s[0]] + rest;
        KeptHead(s);
        NoOccurPast(r, [s[0]], rest, Undefined);
      }
    }
  }

  /** No occurrence starts inside an inserted `n/a`: none of its characters is a `u`. */
  lemma InsertedNoUndefined(rest: string)
    ensures forall i :: 0 <= i < |NotAvailable| ==> !OccursAt(NotAvailable + rest, Undefined, i)
  {
    var r := NotAvailable + rest;
    forall i | 0 <= i < |NotAvailable|
      ensures !OccursAt(r, Undefined, i)
    {
      assert r[i] == NotAvailable[i] != Undefined[0];
    }
  }

  /** When the text does not start with `undefined`, neither does its rewrite. */
  lemma KeptHead(s: string)
    requires |s| >= |Undefined| && s[..|Undefined|] != Undefined
    ensures !OccursAt(Unmarked(s), Undefined, 0)
  {
    var r := Unmarked(s);
    var rest := Unmarked(s[1..]);
    assert r == [s[0]] + rest;
    assert s[..|Undefined|] == [s[0]] + s[1..][..8];
    if OccursAt(r, Undefined, 0) {
      assert r[..9][0] == r[0] == s[0];
      assert rest[..8] == r[1..9];
      UnmarkedPrefix(s[1..], "ndefined");
    }
  }

  /** An occurrence in `pre + rest` that starts past `pre` is one in `rest`. */
  lemma NoOccurPast(r: string, pre: string, rest: string, n: string)
    requires r == pre + rest && forall i :: !OccursAt(rest, n, i)
    requires forall i :: 0 <= i < |pre| ==> !OccursAt(r, n, i)
    ensures forall i :: !OccursAt(r, n, i)
  {
    forall i | |pre| <= i
      ensures !OccursAt(r, n, i)
    {
      if OccursAt(r, n, i) {
        assert r[i..i + |n|] == rest[i - |pre|..i - |pre| + |n|];
        assert OccursAt(rest, n, i - |pre|);
      }
    }
  }

  /** Text with no `undefined` in it is left as it is. */
  lemma UnmarkedKeeps(s: string)
    requires forall i :: !OccursAt(s, Undefined, i)
    ensures Unmarked(s) == s
  {
  }

  /** The rewrite is idempotent. */
  lemma UnmarkedTwice(s: string)
    ensures Unmarked(Unmarked(s)) == Unmarked(s)
  {
    NoUndefinedLeft(s);
  }

  /** The two rewrites every attribute goes through: `None` becomes `n/a`, and text
      has its `undefined`s replaced. */
  function Cleaned(x: Value): (r: Value)
    ensures x.VNone? ==> r == VStr(NotAvailable)
    ensures r.VStr? ==> forall i :: !OccursAt(r.s, Undefined, i)
    ensures !x.VNone? && !x.VStr? ==> r == x
  {
    var y := if x.VNone? then VStr(NotAvailable) else x;
    if y.VStr? then
      NoUndefinedLeft(y.s);
      VStr(Unmarked(y.s))
    else y
  }

  /** `human_date(x)`: `n/a` when `int(x)` or the conversion to a local date fails. */
  function HumanDate(x: Value, dateText: int -> Option<string>): string {
    match IntOf(x)
    case None => NotAvailable
    case Some(n) => dateText(n).GetOr(NotAvailable)
  }

  /** `' '.join(x.split()[1:])`. */
  function DropFirstWord(s: string): string {
    var ws := Tokens(s);
    if |ws| <= 1 then "" else Join(ws[1..], ' ')
  }

  /** Words joined by single spaces split back into the same words. */
  lemma {:induction false} TokensOfJoin(ws: seq<string>)
    requires |ws| >= 1 && forall i :: 0 <= i < |ws| ==> |ws[i]| > 0 && NoSpace(ws[i])
    ensures Tokens(Join(ws, ' ')) == ws
    decreases |ws|
  {
    if |ws| == 1 {
      TokensOfWord(ws[0]);
    } else {
      var rest := Join(ws[1..], ' ');
      JoinCons(ws, ' ');
      TokensOfJoin(ws[1..]);
      var s := ws[0] + " " + rest;
      assert Join(ws, ' ') == s;
      WordStops(ws[0], " " + rest);
      assert s == ws[0] + (" " + rest);
      assert !IsSpace(s[0]);
      assert s[|ws[0]|..] == " " + rest;
      TokensAfterSpace(rest);
      assert Tokens(s) == [ws[0]] + Tokens(" " + rest);
    }
  }

  /** The arguments cell keeps every word but the first, in order. */
  lemma DropFirstWordTokens(s: string)
    ensures |Tokens(s)| == 0 ==> DropFirstWord(s) == ""
    ensures |Tokens(s)| > 0 ==> Tokens(DropFirstWord(s)) == Tokens(s)[1..]
  {
    var ws := Tokens(s);
    if |ws| > 1 {
      TokensOfJoin(ws[1..]);
    }
  }

  /** `x.split()` needs text: the arguments are text or absent. */
  predicate ArgsDefined(x: Value) {
    x.VNone? || x.VStr?
  }

  /** The letter of a `JobStatus` value through `job_states.get(x)`, printed: a code
      outside the table prints as `None`. */
  function StatusText(y: Value): (r: string)
    ensures y.VInt? && y.i in JobStates ==> r == JobStates[y.i]
    ensures y.VStr? || y.VNone? ==> r == "None"
  {
    match Tables.StateKey(y)
    case Some(k) => if k in JobStates then JobStates[k] else "None"
    case None => "None"
  }

  /** The text of one cell of `tabulate_row`, before the format cuts and pads it. */
  function CellOf(att: string, x: Value, dateText: int -> Option<string>): (r: string)
    requires att == "Args" ==> ArgsDefined(x)
    ensures EndsWith(att, "Date") && (x.VNone? || IsZero(x) || x == VStr("0")) ==> r == NotAvailable
    ensures !EndsWith(att, "Date") && att == "JobStatus" ==> r == StatusText(Cleaned(x))
    ensures !EndsWith(att, "Date") && att == "Args" ==> r == DropFirstWord(Cleaned(x).s)
    ensures !EndsWith(att, "Date") && att != "JobStatus" && att != "Args" ==> r == Show(Cleaned(x))
  {
    var y := Cleaned(x);
    if EndsWith(att, "Date") then
      DateCellAbsent(x, dateText);
      if IsZero(y) || y == VStr("0") then NotAvailable else HumanDate(y, dateText)
    else if att == "JobStatus" then StatusText(y)
    else if att == "Args" then DropFirstWord(y.s)
    else Show(y)
  }

  /** A date that is absent, zero or the text `0` shows as `n/a`. */
  lemma DateCellAbsent(x: Value, dateText: int -> Option<string>)
    ensures var y := Cleaned(x);
      x.VNone? || IsZero(x) || x == VStr("0") ==>
        (if IsZero(y) || y == VStr("0") then NotAvailable else HumanDate(y, dateText)) == NotAvailable
  {
    if x.VNone? {
      assert Cleaned(x) == VStr(NotAvailable);
      NotAvailableNotInt();
    } else if x == VStr("0") {
      UnmarkedKeeps("0");
    }
  }

  /** `int('n/a')` raises. */
  lemma NotAvailableNotInt()
    ensures IntOf(VStr(NotAvailable)).None?
  {
  }

  /** No plain cell shows `undefined`, and an absent attribute shows `n/a`. */
  lemma PlainCellClean(att: string, x: Value, dateText: int -> Option<string>)
    requires !EndsWith(att, "Date") && att != "JobStatus" && att != "Args"
    ensures forall i :: !OccursAt(CellOf(att, x, dateText), Undefined, i)
    ensures x.VNone? ==> CellOf(att, x, dateText) == NotAvailable
  {
    var y := Cleaned(x);
    if !y.VStr? {
      forall i | 0 <= i
        ensures !OccursAt(Show(y), Undefined, i)
      {
        if OccursAt(Show(y), Undefined, i) {
          assert Show(y)[i] == 'u';
          if y.VInt? {
            IntHasNoLetterU(y.i, i);
          }
        }
      }
    }
  }

  lemma IntHasNoLetterU(n: int, i: int)
    requires 0 <= i < |IntToString(n)|
    ensures IntToString(n)[i] != 'u'
  {
    if n >= 0 {
      assert IsDigit(NatToString(n)[i]);
    } else if i > 0 {
      assert IntToString(n)[i] == NatToString(-n)[i - 1];
      assert IsDigit(NatToString(-n)[i - 1]);
    }
  }

  // ---------------------------------------------------------------------------
  // the table

  /** `table_columns`: the attribute, its heading and its width. */
  datatype Field = Field(attr: string, heading: string, width: nat)

  const Fields: seq<Field> := [
    Field("MATCH_GLIDEIN_Site", "site", 7), Field("JobStatus", "stat", 4), Field("ExitCode", "exit", 4),
    Field("NumJobStarts", "#", 3), Field("JobCurrentStartDate", "start", 12), Field("CompletionDate", "end", 12),
    Field("user", "user", 10), Field("gemc", "gemc", 6), Field("Args", "args", 30)]

  /** The id column and one column per field, as the table module would describe them. */
  function ColumnsOf(fields: seq<Field>): (r: seq<Tables.Column>)
    ensures |r| == |fields| + 1
    ensures r[0] == Tables.Column("clusterid", 14, None)
    ensures forall i :: 0 <= i < |fields| ==> r[i + 1] == Tables.Column(fields[i].heading, fields[i].width, None)
  {
    [Tables.Column("clusterid", 14, None)]
      + seq(|fields|, i requires 0 <= i < |fields| => Tables.Column(fields[i].heading, fields[i].width, None))
  }

  /** The probe's own columns. */
  function ProbeColumns(): (r: seq<Tables.Column>)
    ensures |r| == |Fields| + 1
    ensures r[0] == Tables.Column("clusterid", 14, None)
    ensures forall i :: 0 <= i < |Fields| ==> r[i + 1] == Tables.Column(Fields[i].heading, Fields[i].width, None)
  {
    ColumnsOf(Fields)
  }

  /** `table_format`: `'%-14.14s'`, then `' %-W.Ws'` appended for each of the first `n`
      fields. */
  function FormatOf(fields: seq<Field>, n: nat): string
    requires n <= |fields|
  {
    if n == 0 then "%-14.14s"
    else FormatOf(fields, n - 1) + " " + Tables.ColumnFormat(Tables.Column("", fields[n - 1].width, None))
  }

  /** The probe's row format is the format the table module builds for the same
      columns: their formats joined by single spaces. */
  lemma FormatIsTableFormat(fields: seq<Field>, n: nat)
    requires n <= |fields|
    ensures FormatOf(fields, n) == Join(Tables.ColumnFormats(ColumnsOf(fields)[..n + 1]), ' ')
  {
    FormatJoined(fields, n);
    FormatsPrefix(ColumnsOf(fields), n + 1);
  }

  /** The format of the first `n` fields joins the first `n + 1` column formats. */
  lemma {:induction false} FormatJoined(fields: seq<Field>, n: nat)
    requires n <= |fields|
    ensures FormatOf(fields, n) == Join(Tables.ColumnFormats(ColumnsOf(fields))[..n + 1], ' ')
    decreases n
  {
    var fs := Tables.ColumnFormats(ColumnsOf(fields));
    if n == 0 {
      FormatFirst(fields);
      assert fs[..1] == [fs[0]];
    } else {
      FormatJoined(fields, n - 1);
      FormatStepAt(fields, n);
      JoinPrefixStep(fs, ' ', n);
    }
  }

  lemma FormatStepAt(fields: seq<Field>, k: int)
    requires 1 <= k <= |fields|
    ensures FormatOf(fields, k) == FormatOf(fields, k - 1) + " " + Tables.ColumnFormats(ColumnsOf(fields))[k]
  {
    assert ColumnsOf(fields)[k].width == fields[k - 1].width;
  }

  lemma FormatFirst(fields: seq<Field>)
    ensures FormatOf(fields, 0) == Tables.ColumnFormats(ColumnsOf(fields))[0]
  {
    assert Tables.ColumnFormat(Tables.Column("clusterid", 14, None)) == "%-" + "14" + "." + "14" + "s";
  }

  /** Joining one more piece appends the separator and that piece. */
  lemma JoinPrefixStep(fs: seq<string>, c: char, n: int)
    requires 1 <= n < |fs|
    ensures Join(fs[..n + 1], c) == Join(fs[..n], c) + [c] + fs[n]
  {
    assert fs[..n + 1][..n] == fs[..n];
  }

  /** The formats of a prefix of the columns are that prefix of their formats. */
  lemma FormatsPrefix(cols: seq<Tables.Column>, m: int)
    requires 0 <= m <= |cols|
    ensures Tables.ColumnFormats(cols)[..m] == Tables.ColumnFormats(cols[..m])
  {
  }

  /** `table_format % tuple(cols)`. */
  function Render(texts: seq<string>): (r: string)
    requires |texts| == |Fields| + 1
  {
    Tables.Render(ProbeColumns(), texts)
  }

  lemma ProbeWidths()
    ensures Tables.Widths(ProbeColumns()) + |ProbeColumns()| - 1 == 111
  {
    var cols := ProbeColumns();
    assert cols[..0] == [];
    WidthsStep(cols, 0, 0);
    WidthsStep(cols, 1, 14);
    WidthsStep(cols, 2, 21);
    WidthsStep(cols, 3, 25);
    WidthsStep(cols, 4, 29);
    WidthsStep(cols, 5, 32);
    WidthsStep(cols, 6, 44);
    WidthsStep(cols, 7, 56);
    WidthsStep(cols, 8, 66);
    WidthsStep(cols, 9, 72);
    assert cols[..10] == cols;
  }

  /** One more column adds its width. */
  lemma WidthsStep(cols: seq<Tables.Column>, k: int, before: nat)
    requires 0 <= k < |cols| && Tables.Widths(cols[..k]) == before
    ensures Tables.Widths(cols[..k + 1]) == before + cols[k].width
  {
    assert cols[..k + 1][..k] == cols[..k];
  }

  /** `table_header`: the headings through the row format, 111 characters wide. */
  function Header(): (r: string)
    ensures |r| == 111
  {
    ProbeWidths();
    Tables.RenderWidth(ProbeColumns(), Tables.Names(ProbeColumns()));
    Render(Tables.Names(ProbeColumns()))
  }

  /** `job.get(att)` once munged: the five derived keys replace whatever the scheduler
      sent under those names. */
  function Lookup(rec: Record, att: string): Value {
    if att == "user" then OfString(rec.derived.user)
    else if att == "gemc" then OfString(rec.derived.gemc)
    else if att == "condor" then OfString(rec.derived.condor)
    else if att == "stderr" then OfString(rec.derived.stderr)
    else if att == "stdout" then OfString(rec.derived.stdout)
    else if att in rec.job.attrs then rec.job.attrs[att]
    else VNone
  }

  predicate RowDefined(rec: Record) {
    ArgsDefined(Lookup(rec, "Args"))
  }

  /** The texts of a row: the composite id, then one cell per field. */
  function RowTexts(rec: Record, dateText: int -> Option<string>): (r: seq<string>)
    requires RowDefined(rec)
    ensures |r| == |Fields| + 1
    ensures r[0] == Jobs.IdKey(rec.job.clusterId, rec.job.procId)
    ensures forall i :: 0 <= i < |Fields| ==> r[i + 1] == CellOf(Fields[i].attr, Lookup(rec, Fields[i].attr), dateText)
  {
    [Jobs.IdKey(rec.job.clusterId, rec.job.procId)]
      + seq(|Fields|, i requires 0 <= i < |Fields| => CellOf(Fields[i].attr, Lookup(rec, Fields[i].attr), dateText))
  }

  /** `tabulate_row(job)`: as wide as the header. */
  function TabulateRow(rec: Record, dateText: int -> Option<string>): (r: string)
    requires RowDefined(rec)
    ensures |r| == |Header()|
  {
    ProbeWidths();
    Tables.RenderWidth(ProbeColumns(), RowTexts(rec, dateText));
    Render(RowTexts(rec, dateText))
  }

  /** Every cell of a row sits under its heading, cut and padded to the column width;
      the first shows the composite id. */
  lemma RowCell(rec: Record, dateText: int -> Option<string>, i: int)
    requires RowDefined(rec) && 0 <= i <= |Fields|
    ensures Tables.Offset(ProbeColumns(), i) + ProbeColumns()[i].width <= |TabulateRow(rec, dateText)|
    ensures TabulateRow(rec, dateText)[Tables.Offset(ProbeColumns(), i)..Tables.Offset(ProbeColumns(), i) + ProbeColumns()[i].width]
      == FormatCell(RowTexts(rec, dateText)[i], ProbeColumns()[i].width)
    ensures Header()[Tables.Offset(ProbeColumns(), i)..Tables.Offset(ProbeColumns(), i) + ProbeColumns()[i].width]
      == FormatCell(ProbeColumns()[i].name, ProbeColumns()[i].width)
  {
    Tables.RenderAt(ProbeColumns(), RowTexts(rec, dateText), i);
    Tables.RenderAt(ProbeColumns(), Tables.Names(ProbeColumns()), i);
  }

  /** A record keyed by its ids starts its row with that key (cut to 14 characters). */
  lemma RowShowsKey(key: string, rec: Record, dateText: int -> Option<string>)
    requires RowDefined(rec) && key == Jobs.IdKey(rec.job.clusterId, rec.job.procId)
    ensures TabulateRow(rec, dateText)[..14] == FormatCell(key, 14)
  {
    Tables.FirstCell(ProbeColumns(), RowTexts(rec, dateText));
  }

  /** The records as the snapshot keys them. */
  predicate Keyed(recs: seq<(string, Record)>) {
    forall i :: 0 <= i < |recs| ==> recs[i].0 == Jobs.IdKey(recs[i].1.job.clusterId, recs[i].1.job.procId)
  }

  /** The loop raises on the record: `condor_match` splits a missing condor id, or
      `tabulate_row` splits arguments that are not text. */
  predicate Faults(rec: Record, c: Criteria) {
    !MatchDefined(rec.derived, c) || (Admits(rec.derived, c) && !RowDefined(rec))
  }

  /** The default mode tabulates every record without raising. */
  predicate BodyDefined(recs: seq<(string, Record)>, c: Criteria) {
    forall i :: 0 <= i < |recs| ==> !Faults(recs[i].1, c)
  }

  /** The name Python gives the type of a value. */
  function TypeName(v: Value): string {
    match v
    case VNone => "NoneType"
    case VBool(_) => "bool"
    case VInt(_) => "int"
    case VStr(_) => "str"
  }

  /** The error `x.split` raises on a value `x` that is not text. */
  function SplitErrorOn(v: Value): string {
    "AttributeError: '" + TypeName(v) + "' object has no attribute 'split'"
  }

  /** The error the loop raises on a faulting record: `condor_match` first splits the
      missing condor id, and only an admitted record reaches `tabulate_row`, which
      splits its arguments. */
  function FaultError(rec: Record, c: Criteria): (r: string)
    requires Faults(rec, c)
    ensures !MatchDefined(rec.derived, c) ==> r == SplitError
    ensures MatchDefined(rec.derived, c) ==>
      r == SplitErrorOn(Lookup(rec, "Args")) && (Lookup(rec, "Args").VBool? || Lookup(rec, "Args").VInt?)
  {
    if !MatchDefined(rec.derived, c) then SplitError else SplitErrorOn(Lookup(rec, "Args"))
  }

  /** Record `i` is the first the loop raises on. */
  predicate FaultsFirstAt(recs: seq<(string, Record)>, c: Criteria, i: int) {
    0 <= i < |recs| && Faults(recs[i].1, c) && forall j :: 0 <= j < i ==> !Faults(recs[j].1, c)
  }

  /** The error of the first record the loop raises on, if any. */
  function FirstFault(recs: seq<(string, Record)>, c: Criteria): (r: Option<string>)
    ensures r.None? <==> BodyDefined(recs, c)
    ensures r.Some? ==> exists i :: FaultsFirstAt(recs, c, i) && r.value == FaultError(recs[i].1, c)
    decreases |recs|
  {
    if |recs| == 0 then None
    else if Faults(recs[0].1, c) then
      assert FaultsFirstAt(recs, c, 0);
      Some(FaultError(recs[0].1, c))
    else
      FaultShift(recs, c);
      FirstFault(recs[1..], c)
  }

  /** Behind a first record that does not fault, the run faults where its rest does,
      one place later. */
  lemma FaultShift(recs: seq<(string, Record)>, c: Criteria)
    requires |recs| > 0 && !Faults(recs[0].1, c)
    ensures BodyDefined(recs[1..], c) <==> BodyDefined(recs, c)
    ensures forall i :: FaultsFirstAt(recs[1..], c, i) ==> FaultsFirstAt(recs, c, i + 1) && recs[1..][i] == recs[i + 1]
  {
    var tail := recs[1..];
    if BodyDefined(tail, c) {
      forall i | 0 <= i < |recs|
        ensures !Faults(recs[i].1, c)
      {
        if i > 0 { assert recs[i] == tail[i - 1]; }
      }
    } else {
      var k :| 0 <= k < |tail| && Faults(tail[k].1, c);
      assert recs[k + 1] == tail[k];
    }
    forall i | FaultsFirstAt(tail, c, i)
      ensures FaultsFirstAt(recs, c, i + 1) && tail[i] == recs[i + 1]
    {
      forall j | 0 <= j < i + 1
        ensures !Faults(recs[j].1, c)
      {
        if j > 0 { assert recs[j] == tail[j - 1]; }
      }
    }
  }

  /** The records the filter admits, in snapshot order. */
  function Admitted(recs: seq<(string, Record)>, c: Criteria): (r: seq<(string, Record)>)
    ensures |r| <= |recs|
    ensures forall x :: x in r <==> x in recs && Admits(x.1.derived, c)
    decreases |recs|
  {
    if |recs| == 0 then []
    else
      var last := recs[|recs| - 1];
      assert recs == recs[..|recs| - 1] + [last];
      Admitted(recs[..|recs| - 1], c) + (if Admits(last.1.derived, c) then [last] else [])
  }

  /** Filtering two runs one after the other filters each: the order of the snapshot
      is kept. */
  lemma {:induction false} AdmittedConcat(a: seq<(string, Record)>, b: seq<(string, Record)>, c: Criteria)
    ensures Admitted(a + b, c) == Admitted(a, c) + Admitted(b, c)
    decreases |b|
  {
    if |b| == 0 {
      assert a + b == a;
    } else {
      var b' := b[..|b| - 1];
      var last := b[|b| - 1];
      assert (a + b)[..|a + b| - 1] == a + b' && (a + b)[|a + b| - 1] == last;
      AdmittedConcat(a, b', c);
    }
  }

  /** A single record is kept exactly when the filter admits it. */
  lemma AdmittedOne(x: (string, Record), c: Criteria)
    ensures Admitted([x], c) == if Admits(x.1.derived, c) then [x] else []
  {
    assert [x][..0] == [];
  }

  /** `table_body`: row k is the row of the k-th admitted record, as wide as the header. */
  function TableBody(recs: seq<(string, Record)>, c: Criteria, dateText: int -> Option<string>): (r: seq<string>)
    requires BodyDefined(recs, c)
    ensures |r| == |Admitted(recs, c)|
    ensures forall k :: 0 <= k < |r| ==>
      RowDefined(Admitted(recs, c)[k].1) && r[k] == TabulateRow(Admitted(recs, c)[k].1, dateText)
    ensures forall i :: 0 <= i < |r| ==> |r[i]| == 111
    decreases |recs|
  {
    if |recs| == 0 then []
    else
      var init := recs[..|recs| - 1];
      var last := recs[|recs| - 1];
      assert BodyDefined(init, c) by {
        forall i | 0 <= i < |init|
          ensures !Faults(init[i].1, c)
        {
          assert init[i] == recs[i];
        }
      }
      assert !Faults(last.1, c);
      var prev := TableBody(init, c, dateText);
      assert Admitted(recs, c) == Admitted(init, c) + (if Admits(last.1.derived, c) then [last] else []);
      if Admits(last.1.derived, c) then
        var adm, rows := Admitted(init, c) + [last], prev + [TabulateRow(last.1, dateText)];
        assert forall k :: 0 <= k < |rows| ==> RowDefined(adm[k].1) && rows[k] == TabulateRow(adm[k].1, dateText) by {
          forall k | 0 <= k < |rows|
            ensures RowDefined(adm[k].1) && rows[k] == TabulateRow(adm[k].1, dateText)
          {
            if k < |prev| {
              assert rows[k] == prev[k] && adm[k] == Admitted(init, c)[k];
            } else {
              assert rows[k] == TabulateRow(last.1, dateText) && adm[k] == last;
            }
          }
        }
        rows
      else prev
  }

  /** The default output, printed after the loop: the error of the first record the
      loop raises on, so nothing is printed; else nothing without a row, and otherwise
      the rows of the admitted records, in order, between two headers. */
  function TableOutput(recs: seq<(string, Record)>, c: Criteria, dateText: int -> Option<string>): (r: Result<seq<string>, string>)
    ensures r.Failure? <==> exists i :: 0 <= i < |recs| && Faults(recs[i].1, c)
    ensures r.Failure? ==> exists i :: FaultsFirstAt(recs, c, i) && r.error == FaultError(recs[i].1, c)
    ensures r.Success? ==> (|r.value| == 0 <==> |Admitted(recs, c)| == 0)
    ensures r.Success? && |r.value| > 0 ==>
      |r.value| == |Admitted(recs, c)| + 2 && r.value[0] == Header() && r.value[|r.value| - 1] == Header()
    ensures r.Success? && |r.value| > 0 ==> forall k :: 0 <= k < |Admitted(recs, c)| ==>
      RowDefined(Admitted(recs, c)[k].1) && r.value[k + 1] == TabulateRow(Admitted(recs, c)[k].1, dateText)
  {
    match FirstFault(recs, c)
    case Some(e) => Failure(e)
    case None =>
      var body := TableBody(recs, c, dateText);
      if |body| == 0 then Success([])
      else
        Framed(body, Header());
        Success([Header()] + body + [Header()])
  }

  /** Rows printed between two copies of a line keep their places, one down. */
  lemma Framed(body: seq<string>, h: string)
    ensures var out := [h] + body + [h];
      |out| == |body| + 2 && out[0] == h && out[|out| - 1] == h
      && forall k :: 0 <= k < |body| ==> out[k + 1] == body[k]
  {
  }

  // ---------------------------------------------------------------------------
  // the log readers

  /** The characters of a file as the text-mode reader meets them; `None` is one it
      cannot decode, which `readlines_reverse` reads as `?`. */
  function Decoded(content: seq<Option<char>>): (r: string)
    ensures |r| == |content|
    ensures forall i :: 0 <= i < |content| ==> r[i] == content[i].GetOr('?')
  {
    seq(|content|, i requires 0 <= i < |content| => content[i].GetOr('?'))
  }

  /** `readlines_reverse(filename, max_lines)`: the lines of the file from last to
      first, an unreadable character standing as `?`, and with a positive `max_lines`
      only the last ones, as the pipeline's reader yields them. */
  method ReadlinesReverse(content: seq<Option<char>>, maxLines: int) returns (out: seq<string>)
    ensures out == Tools.TrailingLines(Decoded(content), maxLines)
  {
    ghost var t := Decoded(content);
    var nLines := 0;
    var position := |content|;
    var line := "";
    out := [];
    assert Tools.Reading(t, position) == (0, [], "");
    while position >= 0
      invariant -1 <= position <= |content|
      invariant Tools.Reading(t, position) == (nLines, out, line)
      invariant maxLines > 0 ==> nLines <= maxLines + 1
      invariant maxLines > 0 && nLines > maxLines ==> line == ""
      invariant nLines > 0 ==> position < |content|
      decreases position
    {
      if nLines > maxLines && maxLines > 0 {
        break;
      }
      var nextChar := if position == |content| then "" else if content[position].None? then "?" else [content[position].value];
      assert nextChar == if position == |t| then "" else [t[position]];
      Tools.ReadStep(t, position, nLines, out, line, nextChar);
      if nextChar == "\n" {
        nLines := nLines + 1;
        out := out + [Reverse(line)];
        line := "";
      } else {
        line := line + nextChar;
      }
      position := position - 1;
    }
    ReadDone(t, position, maxLines, nLines, out, line);
    out := out + [Reverse(line)];
  }

  /** Where the reader stops, its lines so far and the current one are the trailing
      lines of the text. */
  lemma ReadDone(t: string, position: int, maxLines: int, n: int, out: seq<string>, line: string)
    requires -1 <= position <= |t| && Tools.Reading(t, position) == (n, out, line)
    requires maxLines > 0 ==> n <= maxLines + 1
    requires maxLines > 0 && n > maxLines ==> line == ""
    requires n > 0 ==> position < |t|
    requires position >= 0 ==> n > maxLines && maxLines > 0
    ensures out + [Reverse(line)] == Tools.TrailingLines(t, maxLines)
  {
    if position < 0 {
      Tools.ReadToStart(t, maxLines);
    } else {
      Tools.StoppedEarly(t, position, maxLines);
    }
  }

  /** A file the reader can decode throughout reads as the pipeline's reader reads
      the same text. */
  lemma ReadableAsText(t: string, maxLines: int)
    ensures Tools.TrailingLines(Decoded(seq(|t|, i requires 0 <= i < |t| => Some(t[i]))), maxLines)
      == Tools.TrailingLines(t, maxLines)
  {
    assert Decoded(seq(|t|, i requires 0 <= i < |t| => Some(t[i]))) == t;
  }

  /** The probe's CVMFS failure strings. */
  const ProbeCvmfsErrors: seq<string> :=
    ["Transport endpoint is not connected", "Loaded environment state is inconsistent"]

  /** An occurrence inside one piece is an occurrence in the joined text. */
  lemma {:induction false} PieceOccurs(xs: seq<string>, c: char, needle: string, i: int, j: int)
    requires 0 <= i < |xs| && OccursAt(xs[i], needle, j)
    ensures exists k :: OccursAt(Join(xs, c), needle, k)
    decreases |xs|
  {
    if |xs| > 1 {
      var init := xs[..|xs| - 1];
      var a := Join(init, c);
      var h := Join(xs, c);
      assert h == a + [c] + xs[|xs| - 1];
      if i < |xs| - 1 {
        assert init[i] == xs[i];
        PieceOccurs(init, c, needle, i, j);
        var k :| OccursAt(a, needle, k);
        assert h[k..k + |needle|] == a[k..k + |needle|];
        assert OccursAt(h, needle, k);
      } else {
        assert h[|a| + 1 + j..|a| + 1 + j + |needle|] == xs[i][j..j + |needle|];
        assert OccursAt(h, needle, |a| + 1 + j);
      }
    } else {
      assert Join(xs, c) == xs[0];
      assert OccursAt(Join(xs, c), needle, j);
    }
  }

  lemma CharOfOccurrence(h: string, needle: string, k: int, p: int)
    requires OccursAt(h, needle, k) && k <= p < k + |needle|
    ensures 0 <= p < |h| && needle[p - k] == h[p]
  {
    assert h[k..k + |needle|][p - k] == h[p];
  }

  /** An occurrence in the joined text of a needle without the separator lies inside
      one piece. */
  lemma {:induction false} OccursInPiece(xs: seq<string>, c: char, needle: string, k: int)
    requires |xs| >= 1 && c !in needle && OccursAt(Join(xs, c), needle, k)
    ensures exists i, j :: 0 <= i < |xs| && OccursAt(xs[i], needle, j)
    decreases |xs|
  {
    if |xs| > 1 {
      var init := xs[..|xs| - 1];
      var a := Join(init, c);
      var b := xs[|xs| - 1];
      var h := Join(xs, c);
      assert h == a + [c] + b;
      if k + |needle| <= |a| {
        assert h[k..k + |needle|] == a[k..k + |needle|];
        OccursInPiece(init, c, needle, k);
        var i, j :| 0 <= i < |init| && OccursAt(init[i], needle, j);
        assert init[i] == xs[i];
        assert OccursAt(xs[i], needle, j);
      } else if k >= |a| + 1 {
        assert h[k..k + |needle|] == b[k - |a| - 1..k - |a| - 1 + |needle|];
        assert OccursAt(xs[|xs| - 1], needle, k - |a| - 1);
      } else {
        CharOfOccurrence(h, needle, k, |a|);
        assert false;
      }
    } else {
      assert Join(xs, c) == xs[0];
      assert OccursAt(xs[0], needle, k);
    }
  }

  /** A text has `needle` in it exactly when one of its pieces has, for a needle that
      does not contain the separator. */
  lemma ContainsJoin(xs: seq<string>, c: char, needle: string)
    requires |xs| >= 1 && c !in needle
    ensures (exists j :: OccursAt(Join(xs, c), needle, j))
      <==> exists i, j :: 0 <= i < |xs| && OccursAt(xs[i], needle, j)
  {
    if exists j :: OccursAt(Join(xs, c), needle, j) {
      var j :| OccursAt(Join(xs, c), needle, j);
      OccursInPiece(xs, c, needle, j);
    }
    if exists i, j :: 0 <= i < |xs| && OccursAt(xs[i], needle, j) {
      var i, j :| 0 <= i < |xs| && OccursAt(xs[i], needle, j);
      PieceOccurs(xs, c, needle, i, j);
    }
  }

  /** Some line has some needle in it. */
  function AnyLineHas(lines: seq<string>, needles: seq<string>): (r: bool)
    ensures r <==> exists i, k :: 0 <= i < |lines| && 0 <= k < |needles| && Contains(lines[i], needles[k])
  {
    Tools.AnyContains(lines, needles)
  }

  /** `check_cvmfs(job)`: false exactly when the job's error log exists and has one of
      the failure strings anywhere in it; true without an error log. */
  function CheckCvmfs(files: map<string, string>, stderr: Option<string>): (r: bool)
    ensures stderr.None? || stderr.value !in files ==> r
    ensures !r <==> (stderr.Some? && stderr.value in files
      && exists k :: 0 <= k < |ProbeCvmfsErrors| && Contains(files[stderr.value], ProbeCvmfsErrors[k]))
  {
    if stderr.Some? && stderr.value in files then
      var t := files[stderr.value];
      CvmfsByLines(t);
      !AnyLineHas(Split(t, '\n'), ProbeCvmfsErrors)
    else true
  }

  lemma CvmfsByLines(t: string)
    ensures AnyLineHas(Split(t, '\n'), ProbeCvmfsErrors)
      <==> exists k :: 0 <= k < |ProbeCvmfsErrors| && Contains(t, ProbeCvmfsErrors[k])
  {
    forall k | 0 <= k < |ProbeCvmfsErrors|
      ensures '\n' !in ProbeCvmfsErrors[k]
    {
      assert k == 0 || k == 1;
    }
    LinesHave(t, ProbeCvmfsErrors);
  }

  /** Some line of a text has one of the needles exactly when the text has, for
      needles without a line break. */
  lemma LinesHave(t: string, needles: seq<string>)
    requires forall k :: 0 <= k < |needles| ==> '\n' !in needles[k]
    ensures AnyLineHas(Split(t, '\n'), needles)
      <==> exists k :: 0 <= k < |needles| && Contains(t, needles[k])
  {
    var lines := Split(t, '\n');
    JoinSplit(t, '\n');
    forall k | 0 <= k < |needles|
      ensures Contains(t, needles[k]) <==> exists i :: 0 <= i < |lines| && Contains(lines[i], needles[k])
    {
      ContainsJoin(lines, '\n', needles[k]);
    }
  }

  // ---------------------------------------------------------------------------
  // the queries

  /** The options that shape the scheduler queries. */
  datatype ProbeArgs = ProbeArgs(condor: seq<string>, held: bool, running: bool, completed: bool, days: int)

  /** The state options of the main block: `-held` wins over `-running`. */
  function Opts(held: bool, running: bool): (r: seq<string>)
    ensures |r| <= 1
    ensures "-hold" in r <==> held
    ensures "-run" in r <==> running && !held
  {
    if held then ["-hold"] else if running then ["-run"] else []
  }

  /** A command line that queries the `gemc` owner with the condor criteria as they
      are, then the state options. */
  predicate Passes(cmd: seq<string>, a: ProbeArgs) {
    && |cmd| >= 2 + |a.condor| + |Opts(a.held, a.running)|
    && cmd[1] == "gemc"
    && cmd[2..2 + |a.condor|] == a.condor
    && cmd[2 + |a.condor|..2 + |a.condor| + |Opts(a.held, a.running)|] == Opts(a.held, a.running)
  }

  /** The `condor_q` command line of the main block. */
  function QueueQuery(a: ProbeArgs): (r: seq<string>)
    ensures Passes(r, a)
    ensures r[0] == "condor_q"
  {
    var opts := Opts(a.held, a.running);
    var tail := ["-nobatch", "-json"];
    var r := ["condor_q", "gemc"] + a.condor + opts + tail;
    assert r[2..2 + |a.condor|] == a.condor;
    assert r[2 + |a.condor|..] == opts + tail;
    assert (opts + tail)[..|opts|] == opts;
    r
  }

  /** The `condor_history` command line; `since` is the start of the window in epoch
      seconds. */
  function HistoryQuery(a: ProbeArgs, since: int): (r: seq<string>)
    ensures Passes(r, a)
    ensures r[0] == "condor_history"
    ensures r[|r| - 1] == IntToString(since)
  {
    var opts := Opts(a.held, a.running);
    var tail := ["-json", "-completedsince", IntToString(since)];
    var r := ["condor_history", "gemc"] + a.condor + opts + tail;
    assert r[2..2 + |a.condor|] == a.condor;
    assert r[2 + |a.condor|..] == opts + tail;
    assert (opts + tail)[..|opts|] == opts;
    r
  }

  /** `condor_load`: `condor_q` unless `-completed`, then `condor_history` over the
      last `days` days when that is positive. Both pass the condor criteria as they
      are, and both pass the state options (the history query reads the main block's
      global list). */
  function Commands(a: ProbeArgs, since: int): (r: seq<seq<string>>)
    ensures |r| == (if a.completed then 0 else 1) + (if a.days > 0 then 1 else 0)
    ensures forall i :: 0 <= i < |r| ==> |r[i]| >= 2 && Passes(r[i], a)
    ensures (exists i :: 0 <= i < |r| && r[i][0] == "condor_q") <==> !a.completed
    ensures (exists i :: 0 <= i < |r| && r[i][0] == "condor_history") <==> a.days > 0
    ensures a.days > 0 ==> r[|r| - 1][0] == "condor_history" && r[|r| - 1][|r[|r| - 1]| - 1] == IntToString(since)
  {
    var q := QueueQuery(a);
    var h := HistoryQuery(a, since);
    var r := (if a.completed then [] else [q]) + (if a.days > 0 then [h] else []);
    QueriesShape(a, q, h, r, IntToString(since));
    r
  }

  /** The queue query when it is run, then the history query when it is run. */
  lemma QueriesShape(a: ProbeArgs, q: seq<string>, h: seq<string>, r: seq<seq<string>>, last: string)
    requires |q| >= 2 && q[0] == "condor_q" && Passes(q, a)
    requires |h| >= 2 && h[0] == "condor_history" && Passes(h, a) && h[|h| - 1] == last
    requires r == (if a.completed then [] else [q]) + (if a.days > 0 then [h] else [])
    ensures |r| == (if a.completed then 0 else 1) + (if a.days > 0 then 1 else 0)
    ensures forall i :: 0 <= i < |r| ==> |r[i]| >= 2 && Passes(r[i], a)
    ensures (exists i :: 0 <= i < |r| && r[i][0] == "condor_q") <==> !a.completed
    ensures (exists i :: 0 <= i < |r| && r[i][0] == "condor_history") <==> a.days > 0
    ensures a.days > 0 ==> r[|r| - 1][0] == "condor_history" && r[|r| - 1][|r[|r| - 1]| - 1] == last
  {
    assert forall i :: 0 <= i < |r| ==> r[i] == q || r[i] == h;
    assert !a.completed ==> r[0] == q;
    assert a.days > 0 ==> r[|r| - 1] == h;
  }
}
