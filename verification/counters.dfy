/** The status counters of a summary row (`job_counts`) and the bucket each record
    counts under. */
module Counters {
  import opened Config
  import opened Normalize

  /** The counter a munged record counts under, by `get_status_key`. */
  function BucketOf(m: Munged): Bucket
    requires ValidStatus(m.attrs.jobStatus)
  {
    StatusBucket(StatusOfValid(m.attrs.jobStatus))
  }

  /** The counter of a bucket. */
  function Count(c: Counts, b: Bucket): int {
    match b
    case HeldBucket => c.held
    case IdleBucket => c.idle
    case RunBucket => c.run
    case DoneBucket => c.done
    case OtherBucket => c.other
  }

  /** `row[bucket] += 1`: that counter goes up by one, every other counter and the
      total stay. */
  function Bump(c: Counts, b: Bucket): (r: Counts)
    ensures Count(r, b) == Count(c, b) + 1
    ensures forall b' :: b' != b ==> Count(r, b') == Count(c, b')
    ensures r.total == c.total
  {
    match b
    case HeldBucket => c.(held := c.held + 1)
    case IdleBucket => c.(idle := c.idle + 1)
    case RunBucket => c.(run := c.run + 1)
    case DoneBucket => c.(done := c.done + 1)
    case OtherBucket => c.(other := c.other + 1)
  }

  /** The counters start at zero. */
  lemma ZeroCountsAreZero(b: Bucket)
    ensures Count(ZeroCounts, b) == 0 && ZeroCounts.total == 0
  {
  }

  predicate AllValid(recs: seq<(string, Munged)>) {
    forall i :: 0 <= i < |recs| ==> ValidStatus(recs[i].1.attrs.jobStatus)
  }

  lemma AllValidPrefix(recs: seq<(string, Munged)>, n: int)
    requires AllValid(recs) && 0 <= n <= |recs|
    ensures AllValid(recs[..n])
  {
    assert forall i :: 0 <= i < n ==> recs[..n][i] == recs[i];
  }

  /** A record with the counter it counts under: `get_status_key` is evaluated on every
      record, and raises on a state code outside the table. */
  datatype Tagged = Tagged(id: string, job: Munged, bucket: Bucket)

  function Tag(recs: seq<(string, Munged)>): (r: seq<Tagged>)
    requires AllValid(recs)
    ensures |r| == |recs|
    ensures forall i :: 0 <= i < |recs| ==> r[i] == Tagged(recs[i].0, recs[i].1, BucketOf(recs[i].1))
  {
    seq(|recs|, i requires 0 <= i < |recs| => Tagged(recs[i].0, recs[i].1, BucketOf(recs[i].1)))
  }

  /** The number of records counted under bucket `b`. */
  function CountIn(ys: seq<Tagged>, b: Bucket): nat
    decreases |ys|
  {
    if |ys| == 0 then 0 else CountIn(ys[..|ys| - 1], b) + (if ys[|ys| - 1].bucket == b then 1 else 0)
  }
}
