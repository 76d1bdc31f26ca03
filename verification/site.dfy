/** `condor_site_summary`: the admitted records grouped by their `MATCH_GLIDEIN_Site`
    (a missing site is a group of its own), counting every record in `total` and in
    its status counter, and collecting the wall hours of completed jobs (of every job
    with `-running`). The groups come out sorted by `total`, largest first. */
module SiteSummary {
  import opened Wrappers
  import opened Config
  import opened OrderedMaps
  import opened Grouping
  import opened SortDict
  import opened Normalize
  import opened Tools
  import opened Counters

  /** A site group while records are folded in. */
  datatype SiteRow = SiteRow(first: Munged, counts: Counts, wallhr: seq<real>)

  /** `job.get('MATCH_GLIDEIN_Site')`. */
  function SiteOf(t: Tagged): Option<string> {
    t.job.attrs.site
  }

  /** `job.copy()` updated with zeroed counters and an empty wall-hour list. */
  function NewRow(t: Tagged): SiteRow {
    SiteRow(t.job, ZeroCounts, [])
  }

  /** The wall hours a record adds: those of a completed job, or of any job with
      `-running`, when present (`float(None)` raises and is swallowed). The munged
      `wallhr` text has two decimals, so its value is the hundredths over 100. */
  function WallEntry(running: bool, m: Munged): (r: seq<real>)
    ensures |r| <= 1
    ensures |r| == 1 <==> (running || StatusOf(m.attrs.jobStatus) == Some(Completed)) && m.wallCenti.Some?
    ensures |r| == 1 ==> r[0] * 100.0 == m.wallCenti.value as real
  {
    if (running || StatusOf(m.attrs.jobStatus) == Some(Completed)) && m.wallCenti.Some? then
      [m.wallCenti.value as real / 100.0]
    else []
  }

  /** Every record counts once in `total` and once in one status counter. */
  predicate RowOk(row: SiteRow) {
    row.counts.done + row.counts.run + row.counts.idle + row.counts.held + row.counts.other == row.counts.total
  }

  /** One record folded into its group. */
  function AddRecord(running: bool, row: SiteRow, t: Tagged): (r: SiteRow)
    ensures r.first == row.first
    ensures r.counts.total == row.counts.total + 1
    ensures forall b :: Count(r.counts, b) == Count(row.counts, b) + (if t.bucket == b then 1 else 0)
    ensures RowOk(row) ==> RowOk(r)
    ensures r.wallhr == row.wallhr + WallEntry(running, t.job)
  {
    var c := row.counts.(total := row.counts.total + 1);
    SiteRow(row.first, Bump(c, t.bucket), row.wallhr + WallEntry(running, t.job))
  }

  function Adder(running: bool): (SiteRow, Tagged) -> SiteRow {
    (row, t) => AddRecord(running, row, t)
  }

  /** The groups, in the order their sites are first seen. */
  function Rows(running: bool, recs: seq<(string, Munged)>): (r: seq<(Option<string>, SiteRow)>)
    requires AllValid(recs)
    ensures DistinctKeys(r)
  {
    GroupBy(Tag(recs), SiteOf, NewRow, Adder(running))
  }

  /** Some record ran at `s`. */
  predicate HasSite(recs: seq<(string, Munged)>, s: Option<string>) {
    exists i :: 0 <= i < |recs| && recs[i].1.attrs.site == s
  }

  /** There is a group for every site some record has, and for no other. */
  lemma SiteKeys(running: bool, recs: seq<(string, Munged)>, s: Option<string>)
    requires AllValid(recs)
    ensures s in Keys(Rows(running, recs)) <==> HasSite(recs, s)
  {
    var tags := Tag(recs);
    if HasSite(recs, s) {
      var i :| 0 <= i < |recs| && recs[i].1.attrs.site == s;
      assert SiteOf(tags[i]) == s;
    }
    if HasKey(tags, SiteOf, s) {
      var i :| 0 <= i < |tags| && SiteOf(tags[i]) == s;
      assert recs[i].1.attrs.site == s;
    }
  }

  /** The wall hours the records contribute, in order. */
  function Walls(running: bool, ys: seq<Tagged>): seq<real>
    decreases |ys|
  {
    if |ys| == 0 then [] else Walls(running, ys[..|ys| - 1]) + WallEntry(running, ys[|ys| - 1].job)
  }

  /** What folding a site's records from a fresh copy of a record yields: a group
      that has counted exactly the records `ys`: `total` is their number,
      each status counter the number in that state, and `wallhr` their wall hours in
      order. */
  predicate Folded(running: bool, row: SiteRow, ys: seq<Tagged>) {
    && RowOk(row)
    && row.counts.total == |ys|
    && (forall b :: Count(row.counts, b) == CountIn(ys, b))
    && row.wallhr == Walls(running, ys)
  }

  lemma {:induction false} FoldRow(running: bool, ys: seq<Tagged>, t0: Tagged)
    ensures FoldLeft(NewRow(t0), ys, Adder(running)).first == t0.job
    ensures Folded(running, FoldLeft(NewRow(t0), ys, Adder(running)), ys)
    decreases |ys|
  {
    if |ys| == 0 {
      forall b: Bucket
        ensures Count(ZeroCounts, b) == 0
      {
        ZeroCountsAreZero(b);
      }
    } else {
      FoldRow(running, ys[..|ys| - 1], t0);
    }
  }

  /** Each group counts its site's records: `total` is their number, each status counter
      the number in that state, and `wallhr` collects their wall hours in order. */
  lemma SiteGroup(running: bool, recs: seq<(string, Munged)>, s: Option<string>)
    requires AllValid(recs) && HasSite(recs, s)
    ensures s in Keys(Rows(running, recs))
    ensures |Only(Tag(recs), SiteOf, s)| > 0
    ensures Get(Rows(running, recs), s).value.first == Only(Tag(recs), SiteOf, s)[0].job
    ensures Folded(running, Get(Rows(running, recs), s).value, Only(Tag(recs), SiteOf, s))
  {
    SiteKeys(running, recs, s);
    var tags := Tag(recs);
    GroupByIsFold(tags, SiteOf, NewRow, Adder(running), s);
    var ys := Only(tags, SiteOf, s);
    FoldRow(running, ys, ys[0]);
  }

  /** The running count of the group of a site some record has. */
  lemma SiteRunning(running: bool, recs: seq<(string, Munged)>, s: string)
    requires AllValid(recs) && HasSite(recs, Some(s))
    ensures Some(s) in Keys(Rows(running, recs))
    ensures Get(Rows(running, recs), Some(s)).value.counts.run
      == CountIn(Only(Tag(recs), SiteOf, Some(s)), RunBucket)
  {
    SiteGroup(running, recs, Some(s));
    FoldedRun(running, Get(Rows(running, recs), Some(s)).value, Only(Tag(recs), SiteOf, Some(s)));
  }

  lemma FoldedRun(running: bool, row: SiteRow, ys: seq<Tagged>)
    requires Folded(running, row, ys)
    ensures row.counts.run == CountIn(ys, RunBucket)
  {
    assert Count(row.counts, RunBucket) == row.counts.run;
  }

  function TotalOfRow(row: SiteRow): int {
    row.counts.total
  }

  /** The site totals add up to the number of records: every record is counted at
      exactly one site. */
  lemma SiteTotals(running: bool, recs: seq<(string, Munged)>)
    requires AllValid(recs)
    ensures SumOver(Rows(running, recs), TotalOfRow) == |recs|
  {
    forall row: SiteRow, t: Tagged
      ensures TotalOfRow(Adder(running)(row, t)) == TotalOfRow(row) + One(t)
    {
    }
    GroupSum(Tag(recs), SiteOf, NewRow, Adder(running), TotalOfRow, One);
    WeightOfOnes(Tag(recs));
  }

  // ---------------------------------------------------------------------------
  // the collapsed, sorted summary

  /** A summary line: the group's first record and counters, `done` unless there is no
      history window, and the mean and spread of its wall hours. */
  datatype SiteLine = SiteLine(first: Munged, counts: Counts, done: Option<int>, wallhr: Option<real>, ewallhr: Option<real>)

  /** `ewallhr` is the spread of the wall hours, `wallhr` their mean, and `done` becomes
      the null field when `args.hours <= 0`. */
  function Collapse(hours: int, row: SiteRow): (l: SiteLine)
    ensures l.first == row.first && l.counts == row.counts
    ensures l.done.None? <==> hours <= 0
    ensures l.done.Some? ==> l.done.value == row.counts.done
    ensures l.wallhr.None? <==> |row.wallhr| == 0
    ensures l.ewallhr.None? <==> |row.wallhr| == 0
    ensures l.wallhr.Some? ==> l.wallhr.value * |row.wallhr| as real == Sum(row.wallhr)
    ensures l.ewallhr.Some? ==> l.ewallhr.value >= 0.0
  {
    SiteLine(row.first, row.counts, if hours <= 0 then None else Some(row.counts.done),
      Average(row.wallhr), Variance(row.wallhr))
  }

  function Collapsed(hours: int, rows: seq<(Option<string>, SiteRow)>): (r: seq<(Option<string>, SiteLine)>)
    ensures |r| == |rows|
    ensures forall i :: 0 <= i < |rows| ==> r[i] == (rows[i].0, Collapse(hours, rows[i].1))
  {
    seq(|rows|, i requires 0 <= i < |rows| => (rows[i].0, Collapse(hours, rows[i].1)))
  }

  function TotalOf(l: SiteLine): int {
    l.counts.total
  }

  /** `condor_site_summary(args)`: the collapsed groups through `sort_dict(sites, 'total')`. */
  function Summarize(running: bool, hours: int, recs: seq<(string, Munged)>): seq<(Option<string>, SiteLine)>
    requires AllValid(recs)
  {
    Sort(Collapsed(hours, Rows(running, recs)), TotalOf)
  }

  /** The summary holds exactly the collapsed groups, one line per site, largest total
      first, and sites with equal totals in the order they were first seen. */
  lemma SummaryOrder(running: bool, hours: int, recs: seq<(string, Munged)>, n: int)
    requires AllValid(recs)
    ensures var lines := Collapsed(hours, Rows(running, recs));
      && multiset(Summarize(running, hours, recs)) == multiset(lines)
      && NonIncreasing(Summarize(running, hours, recs), TotalOf)
      && DistinctKeys(Summarize(running, hours, recs))
      && WithScore(Summarize(running, hours, recs), TotalOf, n) == WithScore(lines, TotalOf, n)
  {
    var rows := Rows(running, recs);
    var lines := Collapsed(hours, rows);
    assert Keys(lines) == Keys(rows);
    SortPermutes(lines, TotalOf);
    SortOrdered(lines, TotalOf);
    SortDistinct(lines, TotalOf);
    SortStable(lines, TotalOf, n);
  }

  lemma CollapseOk(hours: int, row: SiteRow)
    requires RowOk(row)
    ensures var l := Collapse(hours, row);
      && l.counts.done + l.counts.run + l.counts.idle + l.counts.held + l.counts.other == l.counts.total
      && (l.wallhr.Some? <==> l.ewallhr.Some?)
  {
  }

  /** Every group of the summary has RowOk. */
  lemma RowsOk(running: bool, recs: seq<(string, Munged)>, j: int)
    requires AllValid(recs) && 0 <= j < |Rows(running, recs)|
    ensures RowOk(Rows(running, recs)[j].1)
  {
    var rows := Rows(running, recs);
    GetAt(rows, j);
    SiteKeys(running, recs, rows[j].0);
    SiteGroup(running, recs, rows[j].0);
  }

  /** Every summary line counts each of its records once in `total` and once in a
      status counter, and has a wall-hour spread exactly when it has a mean. */
  lemma SummaryLines(running: bool, hours: int, recs: seq<(string, Munged)>, i: int)
    requires AllValid(recs) && 0 <= i < |Summarize(running, hours, recs)|
    ensures var l := Summarize(running, hours, recs)[i].1;
      && l.counts.done + l.counts.run + l.counts.idle + l.counts.held + l.counts.other == l.counts.total
      && (l.wallhr.Some? <==> l.ewallhr.Some?)
  {
    var rows := Rows(running, recs);
    var lines := Collapsed(hours, rows);
    var r := Summarize(running, hours, recs);
    assert r == Sort(lines, TotalOf);
    SortedFrom(lines, TotalOf, i);
    var j :| 0 <= j < |lines| && lines[j] == r[i];
    RowsOk(running, recs, j);
    CollapseOk(hours, rows[j].1);
  }
}
