/**
 The cumulative profit chart: an exact point per trade, or at most `limit` points that agree with the exact
 chart at the last trade of each bucket.
 */
module PnlChart {
  import opened Outcomes
  import opened Compaction
  import opened DayWalk

  datatype ChartPoint = ChartPoint(timeMs: int, pnl: real, orderCount: int, orders: seq<Trade>, bucketNet: real,
                                   bucketVolume: real)

  /** The exact chart's point for trade `i`. */
  function ExactPoint(ts: seq<Trade>, i: nat): ChartPoint
    requires i < |ts|
  {
    ChartPoint(ts[i].key.timeMs, NetOf(ts[..i + 1]), 1, [ts[i]], ts[i].netPnl, ts[i].totals.notional)
  }

  /** `cumulative_trade_points_exact`. */
  method CumulativeTradePointsExact(ts: seq<Trade>) returns (points: seq<ChartPoint>)
    ensures |points| == |ts| && forall i :: 0 <= i < |ts| ==> points[i] == ExactPoint(ts, i)
    ensures forall i :: 0 <= i < |ts| ==> ChartsTrades(points[i], ts, i, i + 1)
  {
    points := [];
    var total := 0.0;
    var i := 0;
    while i < |ts|
      invariant 0 <= i <= |ts| && |points| == i && total == NetOf(ts[..i])
      invariant forall k :: 0 <= k < i ==> points[k] == ExactPoint(ts, k)
    {
      assert ts[..i + 1][..|ts[..i + 1]| - 1] == ts[..i];
      total := total + ts[i].netPnl;
      points := points + [ChartPoint(ts[i].key.timeMs, total, 1, [ts[i]], ts[i].netPnl, ts[i].totals.notional)];
      i := i + 1;
    }
    ExactPointsChart(ts, points);
  }

  function BucketSize(n: nat, limit: nat): nat
    requires limit > 0
  {
    Max(1, (n + limit - 1) / limit)
  }

  // Where bucket `j` of `size` trades starts and ends among `n`.
  function From(size: nat, n: nat, j: nat): (f: nat)
    ensures f <= n
  {
    Min(n, j * size)
  }

  lemma FromMonotone(size: nat, n: nat, j: nat)
    ensures From(size, n, j) <= From(size, n, j + 1) <= n
    ensures j * size < n && size > 0 ==> From(size, n, j) < From(size, n, j + 1)
  {
    assert (j + 1) * size == j * size + size;
  }

  function BucketOf(ts: seq<Trade>, size: nat, j: nat): seq<Trade> {
    FromMonotone(size, |ts|, j);
    ts[From(size, |ts|, j)..From(size, |ts|, j + 1)]
  }

  predicate HasBucket(size: nat, n: nat, j: nat) { size > 0 && j * size < n }

  /** The bucketed chart's point `j`: its last trade's exact time and profit, and the sums of its bucket. */
  function BucketPoint(ts: seq<Trade>, size: nat, j: nat): ChartPoint
    requires HasBucket(size, |ts|, j)
  {
    FromMonotone(size, |ts|, j);
    var last := From(size, |ts|, j + 1) - 1;
    var bucket := BucketOf(ts, size, j);
    ChartPoint(ExactPoint(ts, last).timeMs, ExactPoint(ts, last).pnl, |bucket|, Recent(bucket), NetOf(bucket),
               VolumeOf(bucket))
  }

  lemma {:induction false} NetOfConcat(a: seq<Trade>, b: seq<Trade>)
    ensures NetOf(a + b) == NetOf(a) + NetOf(b)
  {
    if b == [] {
      assert a + b == a;
    } else {
      assert (a + b)[..|a + b| - 1] == a + b[..|b| - 1];
      NetOfConcat(a, b[..|b| - 1]);
    }
  }

  function BucketNets(points: seq<ChartPoint>): real {
    if points == [] then 0.0 else BucketNets(points[..|points| - 1]) + points[|points| - 1].bucketNet
  }

  /** Enough trades fit in `limit` buckets. */
  lemma LimitSuffices(n: nat, limit: nat)
    requires limit > 0
    ensures limit * BucketSize(n, limit) >= n
  {
    var q, r := (n + limit - 1) / limit, (n + limit - 1) % limit;
    assert n + limit - 1 == limit * q + r && r < limit;
    if BucketSize(n, limit) == 1 {
      assert q <= 1;
      assert limit * q <= limit;
    }
  }

  lemma Scale(a: nat, b: nat, size: nat)
    requires a <= b
    ensures a * size <= b * size
  {
  }

  /** The point charts the trades between two places: the last one's time, the profit so far, and their sums. */
  ghost predicate ChartsTrades(p: ChartPoint, ts: seq<Trade>, from: nat, to: nat) {
    && from < to <= |ts|
    && p.timeMs == ts[to - 1].key.timeMs && p.pnl == NetOf(ts[..to])
    && p.bucketNet == NetOf(ts[from..to]) && p.bucketVolume == VolumeOf(ts[from..to])
    && p.orderCount == to - from && p.orders == ts[if to - from > 12 then to - 12 else from..to]
  }

  lemma ExactPointCharts(ts: seq<Trade>, i: nat)
    requires i < |ts|
    ensures ChartsTrades(ExactPoint(ts, i), ts, i, i + 1)
  {
    assert ts[i..i + 1] == [ts[i]] && [ts[i]][..0] == [];
  }

  lemma ExactPointsChart(ts: seq<Trade>, points: seq<ChartPoint>)
    requires |points| == |ts| && forall i :: 0 <= i < |ts| ==> points[i] == ExactPoint(ts, i)
    ensures forall i :: 0 <= i < |ts| ==> ChartsTrades(points[i], ts, i, i + 1)
  {
    forall i | 0 <= i < |ts| ensures ChartsTrades(points[i], ts, i, i + 1) {
      ExactPointCharts(ts, i);
    }
  }

  /** The bucket size is the least that lets all trades fit in `limit` buckets. */
  lemma BucketSizeIsLeast(n: nat, limit: nat)
    requires 0 < limit < n
    ensures var size := BucketSize(n, limit); size > 0 && (size - 1) * limit < n <= size * limit
  {
    var q, r := (n + limit - 1) / limit, (n + limit - 1) % limit;
    assert n + limit - 1 == limit * q + r && r < limit;
    assert limit * q > 0;
    assert BucketSize(n, limit) == q;
    assert (q - 1) * limit == limit * q - limit;
  }

  lemma BucketPointCharts(ts: seq<Trade>, size: nat, j: nat)
    requires HasBucket(size, |ts|, j)
    ensures ChartsTrades(BucketPoint(ts, size, j), ts, j * size, Min(|ts|, (j + 1) * size))
  {
    FromMonotone(size, |ts|, j);
    assert (j + 1) * size == j * size + size;
    var from, to := From(size, |ts|, j), From(size, |ts|, j + 1);
    var bucket := ts[from..to];
    assert BucketOf(ts, size, j) == bucket;
    assert ts[..to - 1 + 1] == ts[..to];
    assert |bucket| > 12 ==> bucket[|bucket| - 12..] == ts[to - 12..to];
  }

  /** The points chart the trades in buckets of one size, one after the other, with none left over. */
  ghost predicate ChartsInBuckets(points: seq<ChartPoint>, ts: seq<Trade>, size: nat) {
    && |points| > 0 && (|points| - 1) * size < |ts| <= |points| * size
    && forall j: nat :: j < |points| ==> ChartsTrades(points[j], ts, j * size, Min(|ts|, (j + 1) * size))
  }

  /** The buckets are of the least size that lets all trades fit in `limit` of them. */
  ghost predicate ChartsInLeastBuckets(points: seq<ChartPoint>, ts: seq<Trade>, limit: nat) {
    exists size: nat :: size > 0 && (size - 1) * limit < |ts| <= size * limit && ChartsInBuckets(points, ts, size)
  }

  /** `cumulative_trade_points`; a limit of zero or less asks for the exact chart. */
  method CumulativeTradePoints(ts: seq<Trade>, limit: int) returns (points: seq<ChartPoint>)
    ensures limit <= 0 || |ts| <= limit ==>
              |points| == |ts| && forall i :: 0 <= i < |ts| ==> points[i] == ExactPoint(ts, i)
    ensures limit > 0 ==> |points| <= limit
    ensures 0 < limit < |ts| ==>
              && AreBuckets(ts, BucketSize(|ts|, limit), points)
              && points != [] && points[|points| - 1].pnl == NetOf(ts) && BucketNets(points) == NetOf(ts)
    ensures limit <= 0 || |ts| <= limit ==>
              |points| == |ts| && forall i :: 0 <= i < |ts| ==> ChartsTrades(points[i], ts, i, i + 1)
    ensures 0 < limit < |ts| ==> ChartsInLeastBuckets(points, ts, limit)
  {
    if ts == [] {
      return [];
    }
    if limit <= 0 || |ts| <= limit {
      points := CumulativeTradePointsExact(ts);
      return;
    }
    points := Bucketed(ts, limit);
  }

  lemma BucketTotal(ts: seq<Trade>, size: nat, j: nat)
    ensures From(size, |ts|, j) <= From(size, |ts|, j + 1) <= |ts|
    ensures NetOf(ts[..From(size, |ts|, j + 1)]) == NetOf(ts[..From(size, |ts|, j)]) + NetOf(BucketOf(ts, size, j))
  {
    FromMonotone(size, |ts|, j);
    var here, after := From(size, |ts|, j), From(size, |ts|, j + 1);
    assert ts[..after] == ts[..here] + ts[here..after];
    NetOfConcat(ts[..here], ts[here..after]);
  }

  /** One bucket of the chart, given the profit before it. */
  method NextBucket(ts: seq<Trade>, size: nat, j: nat, total: real) returns (p: ChartPoint)
    requires HasBucket(size, |ts|, j) && total == NetOf(ts[..From(size, |ts|, j)])
    ensures p == BucketPoint(ts, size, j)
    ensures p.pnl == total + p.bucketNet
  {
    FromMonotone(size, |ts|, j);
    BucketTotal(ts, size, j);
    assert (j + 1) * size == j * size + size;
    var index := j * size;
    var after: nat := Min(|ts|, index + size);
    var bucket := ts[index..after];
    assert bucket == BucketOf(ts, size, j);
    var net, volume := SumDay(bucket);
    p := ChartPoint(bucket[|bucket| - 1].key.timeMs, total + net, |bucket|, Recent(bucket), net, volume);
  }

  lemma BucketNetsAppend(points: seq<ChartPoint>, p: ChartPoint)
    ensures BucketNets(points + [p]) == BucketNets(points) + p.bucketNet
  {
    assert (points + [p])[..|points|] == points;
  }

  /** The points so far are the first buckets, and their nets add up to the profit reached. */
  ghost predicate ChartSoFar(ts: seq<Trade>, size: nat, points: seq<ChartPoint>, total: real) {
    && AreBuckets(ts, size, points)
    && total == NetOf(ts[..From(size, |ts|, |points|)]) && total == BucketNets(points)
    && (points != [] ==> points[|points| - 1].pnl == total)
  }

  lemma ChartGrows(ts: seq<Trade>, size: nat, points: seq<ChartPoint>, total: real, p: ChartPoint)
    requires ChartSoFar(ts, size, points, total) && HasBucket(size, |ts|, |points|)
    requires p == BucketPoint(ts, size, |points|) && p.pnl == total + p.bucketNet
    ensures ChartSoFar(ts, size, points + [p], p.pnl)
  {
    BucketNetsAppend(points, p);
    BucketTotal(ts, size, |points|);
    BucketsGrow(ts, size, points, p);
  }

  lemma BucketsGrow(ts: seq<Trade>, size: nat, points: seq<ChartPoint>, p: ChartPoint)
    requires AreBuckets(ts, size, points) && HasBucket(size, |ts|, |points|) && p == BucketPoint(ts, size, |points|)
    ensures AreBuckets(ts, size, points + [p])
  {
  }

  lemma ChartDone(ts: seq<Trade>, size: nat, points: seq<ChartPoint>, total: real)
    requires size > 0 && ts != [] && ChartSoFar(ts, size, points, total) && !HasBucket(size, |ts|, |points|)
    ensures points != [] && points[|points| - 1].pnl == NetOf(ts) && BucketNets(points) == NetOf(ts)
  {
    AllCovered(size, |ts|, |points|);
    assert ts[..|ts|] == ts;
    FirstBucket(size, |ts|);
  }

  method Bucketed(ts: seq<Trade>, limit: nat) returns (points: seq<ChartPoint>)
    requires 0 < limit < |ts|
    ensures 0 < |points| <= limit
    ensures AreBuckets(ts, BucketSize(|ts|, limit), points)
    ensures points[|points| - 1].pnl == NetOf(ts) && BucketNets(points) == NetOf(ts)
    ensures ChartsInLeastBuckets(points, ts, limit)
  {
    BucketSizeIsLeast(|ts|, limit);
    var size: nat := BucketSize(|ts|, limit);
    points := [];
    var total := 0.0;
    while HasBucket(size, |ts|, |points|)
      invariant |points| <= limit
      invariant ChartSoFar(ts, size, points, total)
      decreases limit - |points|
    {
      BucketsFitLimit(|ts|, limit, |points|);
      var point := NextBucket(ts, size, |points|, total);
      ChartGrows(ts, size, points, total, point);
      total := point.pnl;
      points := points + [point];
    }
    ChartDone(ts, size, points, total);
    BucketsChart(ts, size, points);
  }

  lemma BucketsChart(ts: seq<Trade>, size: nat, points: seq<ChartPoint>)
    requires size > 0 && points != [] && AreBuckets(ts, size, points) && !HasBucket(size, |ts|, |points|)
    ensures ChartsInBuckets(points, ts, size)
  {
    assert HasBucket(size, |ts|, |points| - 1);
    forall j: nat | j < |points| ensures ChartsTrades(points[j], ts, j * size, Min(|ts|, (j + 1) * size)) {
      BucketPointCharts(ts, size, j);
    }
  }

  ghost predicate AreBuckets(ts: seq<Trade>, size: nat, points: seq<ChartPoint>) {
    forall j: nat :: j < |points| ==> HasBucket(size, |ts|, j) && points[j] == BucketPoint(ts, size, j)
  }

  lemma BucketsFitLimit(n: nat, limit: nat, j: nat)
    requires limit > 0 && HasBucket(BucketSize(n, limit), n, j)
    ensures j < limit
  {
    LimitSuffices(n, limit);
    if j >= limit {
      Scale(limit, j, BucketSize(n, limit));
    }
  }

  lemma AllCovered(size: nat, n: nat, j: nat)
    requires size > 0 && !HasBucket(size, n, j)
    ensures From(size, n, j) == n
  {
  }

  lemma FirstBucket(size: nat, n: nat)
    requires size > 0 && n > 0
    ensures HasBucket(size, n, 0)
  {
  }
}
