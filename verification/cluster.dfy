/** `condor_cluster_summary`: the admitted records grouped by cluster id, in the order
    the clusters are first seen. A group starts as a copy of its first record with
    zeroed counters; every record bumps its status counter, recomputes `done` from the
    cluster's submitted job count, and adds its start count and efficiencies to the
    group's lists, which are finally collapsed to averages. */
module ClusterSummary {
  import opened Wrappers
  import opened Text
  import opened Config
  import opened OrderedMaps
  import opened Grouping
  import opened Normalize
  import opened Tools
  import opened Counters

  /** A cluster group while records are folded in. */
  datatype ClusterRow = ClusterRow(first: Munged, counts: Counts, eff: seq<real>, ceff: seq<real>, att: seq<int>)

  /** `condor_id.split('.').pop(0)`. */
  function ClusterOf(t: Tagged): string {
    BeforeFirst(t.id, '.')
  }

  /** `job.copy()` updated with zeroed counters and empty lists. */
  function NewRow(t: Tagged): ClusterRow {
    ClusterRow(t.job, ZeroCounts, [], [], [])
  }

  /** The start count a record adds to `att`: only a positive one. */
  function AttEntry(m: Munged): (r: seq<int>)
    ensures |r| <= 1 && (|r| == 1 <==> m.attrs.numJobStarts > 0)
    ensures |r| == 1 ==> r[0] == m.attrs.numJobStarts
  {
    if m.attrs.numJobStarts > 0 then [m.attrs.numJobStarts] else []
  }

  /** The efficiency a record adds to `eff`: `float(job['eff'])` raises on a missing one. */
  function EffEntry(m: Munged): (r: seq<real>)
    ensures |r| <= 1 && (|r| == 1 <==> m.eff.Some?)
    ensures |r| == 1 ==> r[0] == m.eff.value
  {
    if m.eff.Some? then [m.eff.value] else []
  }

  /** The efficiency a record adds to `ceff`: only when `eff` did not already raise in
      the same `try` block, and `ceff` itself is present. */
  function CeffEntry(m: Munged): (r: seq<real>)
    ensures |r| <= |EffEntry(m)|
    ensures |r| <= 1 && (|r| == 1 <==> m.eff.Some? && m.ceff.Some?)
    ensures |r| == 1 ==> r[0] == m.ceff.value
  {
    if m.eff.Some? && m.ceff.Some? then [m.ceff.value] else []
  }

  /** A group's shape: `ceff` is never longer than `eff`, `total` is never bumped, and
      every recorded start count is positive. */
  predicate RowShape(row: ClusterRow) {
    && |row.ceff| <= |row.eff|
    && row.counts.total == 0
    && forall k :: 0 <= k < |row.att| ==> row.att[k] > 0
  }

  /** A group holding a record also has done + held + idle + run equal to the submitted
      job count of its first record. */
  predicate RowOk(row: ClusterRow) {
    && row.counts.done + row.counts.held + row.counts.idle + row.counts.run == row.first.attrs.totalSubmitProcs
    && RowShape(row)
  }

  /** One record folded into its group. */
  function AddRecord(row: ClusterRow, t: Tagged): (r: ClusterRow)
    ensures r.first == row.first
    ensures RowShape(row) ==> RowOk(r)
    ensures forall b :: b != DoneBucket ==> Count(r.counts, b) == Count(row.counts, b) + (if t.bucket == b then 1 else 0)
    ensures r.eff == row.eff + EffEntry(t.job) && r.ceff == row.ceff + CeffEntry(t.job) && r.att == row.att + AttEntry(t.job)
  {
    var bumped := Bump(row.counts, t.bucket);
    var counts := bumped.(done := row.first.attrs.totalSubmitProcs - bumped.held - bumped.idle - bumped.run);
    ClusterRow(row.first, counts, row.eff + EffEntry(t.job), row.ceff + CeffEntry(t.job), row.att + AttEntry(t.job))
  }

  /** The groups, in the order their clusters are first seen. */
  function Rows(recs: seq<(string, Munged)>): (r: seq<(string, ClusterRow)>)
    requires AllValid(recs)
    ensures DistinctKeys(r)
  {
    GroupBy(Tag(recs), ClusterOf, NewRow, AddRecord)
  }

  /** The records of cluster `c`, in order. */
  function OfCluster(recs: seq<(string, Munged)>, c: string): seq<Tagged>
    requires AllValid(recs)
  {
    Only(Tag(recs), ClusterOf, c)
  }

  /** Some record belongs to cluster `c`. */
  predicate HasCluster(recs: seq<(string, Munged)>, c: string) {
    exists i :: 0 <= i < |recs| && BeforeFirst(recs[i].0, '.') == c
  }

  /** There is a group for every cluster some record belongs to, and for no other. */
  lemma ClusterKeys(recs: seq<(string, Munged)>, c: string)
    requires AllValid(recs)
    ensures c in Keys(Rows(recs)) <==> HasCluster(recs, c)
  {
    var tags := Tag(recs);
    if HasCluster(recs, c) {
      var i :| 0 <= i < |recs| && BeforeFirst(recs[i].0, '.') == c;
      assert ClusterOf(tags[i]) == c;
    }
    if HasKey(tags, ClusterOf, c) {
      var i :| 0 <= i < |tags| && ClusterOf(tags[i]) == c;
      assert BeforeFirst(recs[i].0, '.') == c;
    }
  }

  /** The concatenation of `f` over the records, in order. */
  function Collect<T>(ys: seq<Tagged>, f: Munged -> seq<T>): seq<T>
    decreases |ys|
  {
    if |ys| == 0 then [] else Collect(ys[..|ys| - 1], f) + f(ys[|ys| - 1].job)
  }

  /** What folding a cluster's records from a fresh copy of a record yields: the copy's
      fields, counters that count the held, idle, running and other records, lists that
      collect each record's contributions, and the `done` equation once a record is in. */
  lemma {:induction false} FoldRow(ys: seq<Tagged>, t0: Tagged)
    ensures var row := FoldLeft(NewRow(t0), ys, AddRecord);
      && row.first == t0.job
      && RowShape(row)
      && (|ys| > 0 ==> RowOk(row))
      && (forall b :: b != DoneBucket ==> Count(row.counts, b) == CountIn(ys, b))
      && row.eff == Collect(ys, EffEntry)
      && row.ceff == Collect(ys, CeffEntry)
      && row.att == Collect(ys, AttEntry)
    decreases |ys|
  {
    if |ys| == 0 {
      forall b: Bucket
        ensures Count(ZeroCounts, b) == 0
      {
        ZeroCountsAreZero(b);
      }
    } else {
      FoldRow(ys[..|ys| - 1], t0);
    }
  }

  /** Each group is the fold of its cluster's records from a copy of the first of them:
      it carries that record's fields, counts exactly its cluster's held, idle, running
      and other records, satisfies the `done` equation, and its lists collect the
      cluster's positive start counts, efficiencies and slot efficiencies in order. */
  lemma ClusterGroup(recs: seq<(string, Munged)>, c: string)
    requires AllValid(recs) && HasCluster(recs, c)
    ensures c in Keys(Rows(recs))
    ensures var ys := OfCluster(recs, c); var row := Get(Rows(recs), c).value;
      && |ys| > 0
      && row.first == ys[0].job
      && RowOk(row)
      && (forall b :: b != DoneBucket ==> Count(row.counts, b) == CountIn(ys, b))
      && row.eff == Collect(ys, EffEntry)
      && row.ceff == Collect(ys, CeffEntry)
      && row.att == Collect(ys, AttEntry)
  {
    ClusterKeys(recs, c);
    var tags := Tag(recs);
    GroupByIsFold(tags, ClusterOf, NewRow, AddRecord, c);
    var ys := OfCluster(recs, c);
    FoldRow(ys, ys[0]);
  }

  /** A group is copied from the first of its cluster's records. */
  lemma RowFirst(recs: seq<(string, Munged)>, c: string)
    requires AllValid(recs) && HasCluster(recs, c)
    ensures c in Keys(Rows(recs)) && |OfCluster(recs, c)| > 0
    ensures Get(Rows(recs), c).value.first == OfCluster(recs, c)[0].job
  {
    ClusterGroup(recs, c);
  }

  /** The record a group is copied from is the first record of its cluster. */
  lemma ClusterFirst(recs: seq<(string, Munged)>, c: string)
    requires AllValid(recs) && HasCluster(recs, c)
    ensures c in Keys(Rows(recs))
    ensures exists i :: (0 <= i < |recs| && BeforeFirst(recs[i].0, '.') == c
      && Get(Rows(recs), c).value.first == recs[i].1
      && forall j :: 0 <= j < i ==> BeforeFirst(recs[j].0, '.') != c)
  {
    RowFirst(recs, c);
    FirstTagged(recs, c);
  }

  /** The first record of a cluster's list is the first record in the map with that
      cluster. */
  lemma FirstTagged(recs: seq<(string, Munged)>, c: string)
    requires AllValid(recs) && HasCluster(recs, c)
    ensures |OfCluster(recs, c)| > 0
    ensures exists i :: (0 <= i < |recs| && BeforeFirst(recs[i].0, '.') == c
      && OfCluster(recs, c)[0].job == recs[i].1
      && forall j :: 0 <= j < i ==> BeforeFirst(recs[j].0, '.') != c)
  {
    TagFields(recs);
    FirstOfTags(Tag(recs), recs, c);
  }

  lemma FirstOfTags(tags: seq<Tagged>, recs: seq<(string, Munged)>, c: string)
    requires |tags| == |recs| && HasCluster(recs, c)
    requires forall j :: 0 <= j < |recs| ==>
      ClusterOf(tags[j]) == BeforeFirst(recs[j].0, '.') && tags[j].job == recs[j].1
    ensures |Only(tags, ClusterOf, c)| > 0
    ensures exists i :: (0 <= i < |recs| && BeforeFirst(recs[i].0, '.') == c
      && Only(tags, ClusterOf, c)[0].job == recs[i].1
      && forall j :: 0 <= j < i ==> BeforeFirst(recs[j].0, '.') != c)
  {
    var k :| 0 <= k < |recs| && BeforeFirst(recs[k].0, '.') == c;
    assert ClusterOf(tags[k]) == c;
    OnlyHead(tags, ClusterOf, c);
    var i :| (0 <= i < |tags| && ClusterOf(tags[i]) == c && Only(tags, ClusterOf, c)[0] == tags[i]
      && forall j :: 0 <= j < i ==> ClusterOf(tags[j]) != c);
    forall j | 0 <= j < i
      ensures BeforeFirst(recs[j].0, '.') != c
    {
      assert ClusterOf(tags[j]) != c;
    }
  }

  /** A tagged record keeps its record and the cluster its key names. */
  lemma TagFields(recs: seq<(string, Munged)>)
    requires AllValid(recs)
    ensures forall j :: 0 <= j < |recs| ==>
      ClusterOf(Tag(recs)[j]) == BeforeFirst(recs[j].0, '.') && Tag(recs)[j].job == recs[j].1
  {
  }

  // ---------------------------------------------------------------------------
  // the collapsed summary

  /** A summary line: the group's first record and counters, and the averages of its
      lists (`None` where `average` gives the null field). */
  datatype ClusterLine = ClusterLine(first: Munged, counts: Counts, eff: Option<real>, ceff: Option<real>, att: Option<real>)

  function Reals(xs: seq<int>): (r: seq<real>)
    ensures |r| == |xs| && forall i :: 0 <= i < |xs| ==> r[i] == xs[i] as real
  {
    seq(|xs|, i requires 0 <= i < |xs| => xs[i] as real)
  }

  /** The averages: a list is empty exactly when its average is the null field. */
  function Collapse(row: ClusterRow): (l: ClusterLine)
    ensures l.first == row.first && l.counts == row.counts
    ensures l.eff.None? <==> |row.eff| == 0
    ensures l.ceff.None? <==> |row.ceff| == 0
    ensures l.att.None? <==> |row.att| == 0
    ensures l.eff.Some? ==> l.eff.value * |row.eff| as real == Sum(row.eff)
    ensures l.ceff.Some? ==> l.ceff.value * |row.ceff| as real == Sum(row.ceff)
    ensures l.att.Some? ==> l.att.value * |row.att| as real == Sum(Reals(row.att))
  {
    ClusterLine(row.first, row.counts, Average(row.eff), Average(row.ceff), Average(Reals(row.att)))
  }

  /** `condor_cluster_summary(args)` over the admitted records. */
  function Summarize(recs: seq<(string, Munged)>): (r: seq<(string, ClusterLine)>)
    requires AllValid(recs)
    ensures Keys(r) == Keys(Rows(recs))
    ensures forall i :: 0 <= i < |r| ==> r[i].1 == Collapse(Rows(recs)[i].1)
  {
    var rows := Rows(recs);
    seq(|rows|, i requires 0 <= i < |rows| => (rows[i].0, Collapse(rows[i].1)))
  }

  /** A collapsed group keeps the `done` equation, has a slot-efficiency average only
      where it has an efficiency average, and an attempts average of at least one. */
  lemma CollapseOk(row: ClusterRow)
    requires RowOk(row)
    ensures var l := Collapse(row);
      && l.counts.done + l.counts.held + l.counts.idle + l.counts.run == l.first.attrs.totalSubmitProcs
      && (l.ceff.Some? ==> l.eff.Some?)
      && (l.att.Some? ==> l.att.value >= 1.0)
  {
    if |row.att| > 0 {
      var xs := Reals(row.att);
      SumAtLeast(xs, 1.0);
      MeanAtLeast(Collapse(row).att.value, |xs| as real, Sum(xs), 1.0);
    }
  }

  /** A mean of values that add up to at least `lo` per value is at least `lo`. */
  lemma MeanAtLeast(a: real, n: real, s: real, lo: real)
    requires n > 0.0 && a * n == s && lo * n <= s
    ensures a >= lo
  {
  }

  /** Every summary line satisfies done + held + idle + run = the submitted job count of
      its first record, has a slot-efficiency average only where it has an efficiency
      average, and an attempts average of at least one. */
  lemma SummaryLines(recs: seq<(string, Munged)>, i: int)
    requires AllValid(recs) && 0 <= i < |Summarize(recs)|
    ensures var l := Summarize(recs)[i].1;
      && l.counts.done + l.counts.held + l.counts.idle + l.counts.run == l.first.attrs.totalSubmitProcs
      && (l.ceff.Some? ==> l.eff.Some?)
      && (l.att.Some? ==> l.att.value >= 1.0)
  {
    var rows := Rows(recs);
    var c := rows[i].0;
    GetAt(rows, i);
    assert c in Keys(rows);
    ClusterKeys(recs, c);
    ClusterGroup(recs, c);
    CollapseOk(rows[i].1);
  }
}
