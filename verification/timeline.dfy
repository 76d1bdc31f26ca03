/** `make_timeline_entry`: one point of the job timeline. Its global part adds up the
    counters of the cluster summary, dropping `done` (which each group overwrites with a
    figure derived from its submitted job count) and `total` (which the cluster summary
    never bumps), and adds the mean number of starts of the records that started; its
    site part maps every named site to its running-job count. The clock reading comes
    in as `now`. */
module Timeline {
  import opened Wrappers
  import opened Config
  import opened OrderedMaps
  import opened Grouping
  import opened SortDict
  import opened Normalize
  import opened Counters
  import ClusterSummary
  import SiteSummary

  /** `data['global']` after `done` and `total` are popped. */
  datatype Global = Global(run: int, idle: int, held: int, other: int, attempts: real)

  /** The entry: `global`, `sites` and `update_ts`. */
  datatype Entry = Entry(global: Global, sites: seq<(string, int)>, updateTs: int)

  function LineCount(b: Bucket): ClusterSummary.ClusterLine -> int {
    (l: ClusterSummary.ClusterLine) => Count(l.counts, b)
  }

  function RowCount(b: Bucket): ClusterSummary.ClusterRow -> int {
    (row: ClusterSummary.ClusterRow) => Count(row.counts, b)
  }

  function InBucket(b: Bucket): Tagged -> int {
    (t: Tagged) => if t.bucket == b then 1 else 0
  }

  /** `summary[x] += job[x]` over the cluster summary, for one counter. */
  function Overall(lines: seq<(string, ClusterSummary.ClusterLine)>, b: Bucket): int {
    SumOver(lines, LineCount(b))
  }

  /** The number of records whose status counts under `b`. */
  function Census(recs: seq<(string, Munged)>, b: Bucket): nat
    requires AllValid(recs)
    decreases |recs|
  {
    if |recs| == 0 then 0
    else
      AllValidPrefix(recs, |recs| - 1);
      Census(recs[..|recs| - 1], b) + (if BucketOf(recs[|recs| - 1].1) == b then 1 else 0)
  }

  lemma {:induction false} WeightOfTag(recs: seq<(string, Munged)>, b: Bucket)
    requires AllValid(recs)
    ensures WeightOf(Tag(recs), InBucket(b)) == Census(recs, b)
    decreases |recs|
  {
    if |recs| > 0 {
      AllValidPrefix(recs, |recs| - 1);
      WeightOfTag(recs[..|recs| - 1], b);
      assert Tag(recs)[..|recs| - 1] == Tag(recs[..|recs| - 1]);
    }
  }

  /** Summed over the clusters, the running, idle, held and other counters count every
      record in that state exactly once. `done` has no such sum, since a group's `done`
      is recomputed rather than counted. */
  lemma OverallCounts(recs: seq<(string, Munged)>, b: Bucket)
    requires AllValid(recs) && b != DoneBucket
    ensures Overall(ClusterSummary.Summarize(recs), b) == Census(recs, b)
  {
    var rows := ClusterSummary.Rows(recs);
    var lines := ClusterSummary.Summarize(recs);
    SumOverPointwise(lines, rows, LineCount(b), RowCount(b));
    forall t: Tagged
      ensures RowCount(b)(ClusterSummary.NewRow(t)) == 0
    {
      ZeroCountsAreZero(b);
    }
    forall row: ClusterSummary.ClusterRow, t: Tagged
      ensures RowCount(b)(ClusterSummary.AddRecord(row, t)) == RowCount(b)(row) + InBucket(b)(t)
    {
    }
    GroupSum(Tag(recs), ClusterSummary.ClusterOf, ClusterSummary.NewRow, ClusterSummary.AddRecord, RowCount(b), InBucket(b));
    WeightOfTag(recs, b);
  }

  /** The positive start counts of the records, in order: `int(job['NumJobStarts'])`
      when it is above zero. */
  function Starts(recs: seq<(string, Munged)>): (r: seq<int>)
    ensures |r| <= |recs|
    ensures forall i :: 0 <= i < |r| ==> r[i] > 0
    decreases |recs|
  {
    if |recs| == 0 then []
    else
      var n := recs[|recs| - 1].1.attrs.numJobStarts;
      Starts(recs[..|recs| - 1]) + (if n > 0 then [n] else [])
  }

  /** `summary['attempts']`: the mean of the start counts, or 0 without any. */
  function MeanStarts(xs: seq<int>): (r: real)
    ensures |xs| == 0 ==> r == 0.0
    ensures |xs| > 0 ==> r * |xs| as real == SumInts(xs) as real
  {
    if |xs| > 0 then SumInts(xs) as real / |xs| as real else 0.0
  }

  /** The timeline's attempts figure is 0 exactly when no record started, and at least
      one otherwise. */
  lemma MeanStartsRange(recs: seq<(string, Munged)>)
    ensures MeanStarts(Starts(recs)) == 0.0 <==> |Starts(recs)| == 0
    ensures |Starts(recs)| > 0 ==> MeanStarts(Starts(recs)) >= 1.0
  {
    var xs := Starts(recs);
    if |xs| > 0 {
      SumIntsAtLeast(xs);
      ClusterSummary.MeanAtLeast(MeanStarts(xs), |xs| as real, SumInts(xs) as real, 1.0);
    }
  }

  /** `sites[site] = val['run']` for every named site of the site summary, in its order. */
  function SiteRuns(lines: seq<(Option<string>, SiteSummary.SiteLine)>): (r: seq<(string, int)>)
    ensures forall s, n :: (s, n) in r <==> exists l :: (Some(s), l) in lines && l.counts.run == n
    decreases |lines|
  {
    if |lines| == 0 then []
    else
      var init := lines[..|lines| - 1];
      var last := lines[|lines| - 1];
      assert lines == init + [last];
      SiteRuns(init) + (if last.0.Some? then [(last.0.value, last.1.counts.run)] else [])
  }

  /** `make_timeline_entry(args)` over the admitted records. */
  function MakeEntry(running: bool, hours: int, now: int, recs: seq<(string, Munged)>): (e: Entry)
    requires AllValid(recs)
    ensures e.updateTs == now
    ensures e.global.attempts == MeanStarts(Starts(recs))
    ensures e.sites == SiteRuns(SiteSummary.Summarize(running, hours, recs))
  {
    var lines := ClusterSummary.Summarize(recs);
    var g := Global(Overall(lines, RunBucket), Overall(lines, IdleBucket), Overall(lines, HeldBucket),
      Overall(lines, OtherBucket), MeanStarts(Starts(recs)));
    Entry(g, SiteRuns(SiteSummary.Summarize(running, hours, recs)), now)
  }

  /** The global counters of an entry count the running, idle, held and other records. */
  lemma EntryGlobal(running: bool, hours: int, now: int, recs: seq<(string, Munged)>)
    requires AllValid(recs)
    ensures var g := MakeEntry(running, hours, now, recs).global;
      && g.run == Census(recs, RunBucket) && g.idle == Census(recs, IdleBucket)
      && g.held == Census(recs, HeldBucket) && g.other == Census(recs, OtherBucket)
  {
    OverallCounts(recs, RunBucket);
    OverallCounts(recs, IdleBucket);
    OverallCounts(recs, HeldBucket);
    OverallCounts(recs, OtherBucket);
  }

  /** A named line of the collapsed site groups belongs to a site some record has, and
      its running count is the number of that site's running records. */
  lemma LineAtSite(running: bool, hours: int, recs: seq<(string, Munged)>, s: string, l: SiteSummary.SiteLine)
    requires AllValid(recs) && (Some(s), l) in SiteSummary.Collapsed(hours, SiteSummary.Rows(running, recs))
    ensures SiteSummary.HasSite(recs, Some(s))
    ensures l.counts.run == CountIn(Only(Tag(recs), SiteSummary.SiteOf, Some(s)), RunBucket)
  {
    var rows := SiteSummary.Rows(running, recs);
    var lines := SiteSummary.Collapsed(hours, rows);
    var j :| 0 <= j < |lines| && lines[j] == (Some(s), l);
    assert Get(rows, Some(s)) == Some(rows[j].1) && l.counts == rows[j].1.counts by {
      GetAt(rows, j);
    }
    assert SiteSummary.HasSite(recs, Some(s)) by {
      assert rows[j].0 in Keys(rows);
      SiteSummary.SiteKeys(running, recs, Some(s));
    }
    SiteSummary.SiteRunning(running, recs, s);
  }

  /** Every site some record has gets a collapsed line carrying its running count. */
  lemma SiteHasLine(running: bool, hours: int, recs: seq<(string, Munged)>, s: string)
    requires AllValid(recs) && SiteSummary.HasSite(recs, Some(s))
    ensures exists l: SiteSummary.SiteLine ::
      && (Some(s), l) in SiteSummary.Collapsed(hours, SiteSummary.Rows(running, recs))
      && l.counts.run == CountIn(Only(Tag(recs), SiteSummary.SiteOf, Some(s)), RunBucket)
  {
    var rows := SiteSummary.Rows(running, recs);
    var lines := SiteSummary.Collapsed(hours, rows);
    SiteSummary.SiteRunning(running, recs, s);
    var j := IndexOf(rows, Some(s));
    assert Get(rows, Some(s)) == Some(rows[j].1) by {
      GetAt(rows, j);
    }
    assert lines[j] == (Some(s), lines[j].1);
  }

  /** A site is in an entry exactly when some record ran there, and its figure is the
      number of that site's running records. */
  lemma EntrySites(running: bool, hours: int, now: int, recs: seq<(string, Munged)>, s: string, n: int)
    requires AllValid(recs)
    ensures (s, n) in MakeEntry(running, hours, now, recs).sites <==>
      (SiteSummary.HasSite(recs, Some(s))
       && n == CountIn(Only(Tag(recs), SiteSummary.SiteOf, Some(s)), RunBucket))
  {
    var lines := SiteSummary.Collapsed(hours, SiteSummary.Rows(running, recs));
    var sorted := SiteSummary.Summarize(running, hours, recs);
    assert sorted == Sort(lines, SiteSummary.TotalOf);
    if (s, n) in MakeEntry(running, hours, now, recs).sites {
      var l: SiteSummary.SiteLine :| (Some(s), l) in sorted && l.counts.run == n;
      SortedHas(lines, SiteSummary.TotalOf, (Some(s), l));
      LineAtSite(running, hours, recs, s, l);
    }
    if SiteSummary.HasSite(recs, Some(s)) {
      SiteHasLine(running, hours, recs, s);
      var l: SiteSummary.SiteLine :| (Some(s), l) in lines
        && l.counts.run == CountIn(Only(Tag(recs), SiteSummary.SiteOf, Some(s)), RunBucket);
      SortedHas(lines, SiteSummary.TotalOf, (Some(s), l));
    }
  }
}
