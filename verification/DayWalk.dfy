/**
 The daily walks over a window. Day intervals share their boundaries, yet each trade of the window lands in
 exactly one day; account-value changes telescope over the observed days.
 */
module DayWalk {
  import opened Outcomes
  import opened Sorting
  import opened Compaction

  const MS_PER_DAY := 86_400_000
  const MAX_POINT_ORDERS := 12

  datatype Bucket = Bucket(dayStart: int, dayEnd: int)

  function DayCount(startMs: int, endMs: int): nat {
    if endMs <= startMs then 0 else Max(1, (endMs - startMs + MS_PER_DAY - 1) / MS_PER_DAY)
  }

  function BucketAt(startMs: int, endMs: int, i: nat): Bucket {
    Bucket(startMs + i * MS_PER_DAY, Min(endMs, startMs + (i + 1) * MS_PER_DAY))
  }

  /** The time falls in day `i`: right-closed, and the first day also includes the window's start. */
  predicate InDay(startMs: int, endMs: int, i: nat, t: int) {
    var b := BucketAt(startMs, endMs, i);
    t <= b.dayEnd && if i == 0 then t >= b.dayStart else t > b.dayStart
  }

  /** The days cover the window once: each time in it falls in exactly one day, and no other time in any. */
  lemma DaysPartitionTheWindow(startMs: int, endMs: int, t: int)
    requires startMs < endMs
    ensures startMs <= t <= endMs <==> exists i: nat :: i < DayCount(startMs, endMs) && InDay(startMs, endMs, i, t)
    ensures forall i: nat, j: nat :: InDay(startMs, endMs, i, t) && InDay(startMs, endMs, j, t) ==> i == j
    ensures DayCount(startMs, endMs) > 0 && BucketAt(startMs, endMs, DayCount(startMs, endMs) - 1).dayEnd == endMs
  {
    var n := DayCount(startMs, endMs);
    assert n * MS_PER_DAY >= endMs - startMs > (n - 1) * MS_PER_DAY;
    if startMs <= t <= endMs {
      var i: nat := if t == startMs then 0 else (t - startMs - 1) / MS_PER_DAY;
      assert InDay(startMs, endMs, i, t);
      assert i < n;
    }
  }

  /**
   Day `i` starts `i` times 24 hours into the window and lasts 24 hours, but the last ends with the window. There are no
   days exactly when the window is empty.
   */
  lemma DaysInHours(startMs: int, endMs: int, i: nat)
    ensures DayCount(startMs, endMs) == 0 <==> endMs <= startMs
    ensures i < DayCount(startMs, endMs) ==>
              var b := BucketAt(startMs, endMs, i);
              && b.dayStart == startMs + i * (24 * 60 * 60 * 1000)
              && (if i + 1 < DayCount(startMs, endMs) then b.dayEnd == b.dayStart + 24 * 60 * 60 * 1000
                  else b.dayEnd == endMs && b.dayStart < b.dayEnd <= b.dayStart + 24 * 60 * 60 * 1000)
  {
    if i < DayCount(startMs, endMs) {
      DaysPartitionTheWindow(startMs, endMs, startMs);
    }
  }

  // ---------- Trades by day ----------

  datatype Point = Point(timeMs: int, dayStart: int, dayEnd: int, dayIndex: int, pnl: real, orderCount: int,
                         orders: seq<Trade>, bucketNet: real, bucketVolume: real, noTrade: bool)

  function NetOf(ts: seq<Trade>): real { if ts == [] then 0.0 else NetOf(ts[..|ts| - 1]) + ts[|ts| - 1].netPnl }

  function VolumeOf(ts: seq<Trade>): real {
    if ts == [] then 0.0 else VolumeOf(ts[..|ts| - 1]) + ts[|ts| - 1].totals.notional
  }

  function Recent(ts: seq<Trade>): seq<Trade> {
    if |ts| > MAX_POINT_ORDERS then ts[|ts| - MAX_POINT_ORDERS..] else ts
  }

  /** The trades of day `i`, in order. */
  function TradesOn(ts: seq<Trade>, startMs: int, endMs: int, i: nat): seq<Trade> {
    if ts == [] then []
    else
      var init, last := TradesOn(ts[..|ts| - 1], startMs, endMs, i), ts[|ts| - 1];
      if InDay(startMs, endMs, i, last.key.timeMs) then init + [last] else init
  }

  function TradesIn(ts: seq<Trade>, startMs: int, endMs: int): seq<Trade> {
    if ts == [] then []
    else
      var init, last := TradesIn(ts[..|ts| - 1], startMs, endMs), ts[|ts| - 1];
      if startMs <= last.key.timeMs <= endMs then init + [last] else init
  }

  function CountTo(ts: seq<Trade>, startMs: int, endMs: int, n: nat): int {
    if n == 0 then 0 else CountTo(ts, startMs, endMs, n - 1) + |TradesOn(ts, startMs, endMs, n - 1)|
  }

  function NetTo(ts: seq<Trade>, startMs: int, endMs: int, n: nat): real {
    if n == 0 then 0.0 else NetTo(ts, startMs, endMs, n - 1) + NetOf(TradesOn(ts, startMs, endMs, n - 1))
  }

  lemma NetOfAppend(ts: seq<Trade>, t: Trade)
    ensures NetOf(ts + [t]) == NetOf(ts) + t.netPnl
    ensures VolumeOf(ts + [t]) == VolumeOf(ts) + t.totals.notional
  {
    assert (ts + [t])[..|ts|] == ts;
  }

  lemma {:induction false} OneMoreTrade(ts: seq<Trade>, startMs: int, endMs: int, n: nat)
    requires ts != []
    ensures var init, last := ts[..|ts| - 1], ts[|ts| - 1];
            var inside := exists i: nat :: i < n && InDay(startMs, endMs, i, last.key.timeMs);
            (forall i: nat, j: nat ::
               InDay(startMs, endMs, i, last.key.timeMs) && InDay(startMs, endMs, j, last.key.timeMs) ==> i == j)
            ==> CountTo(ts, startMs, endMs, n) == CountTo(init, startMs, endMs, n) + (if inside then 1 else 0)
                && NetTo(ts, startMs, endMs, n) == NetTo(init, startMs, endMs, n)
                                                    + (if inside then last.netPnl else 0.0)
  {
    if n > 0 {
      OneMoreTrade(ts, startMs, endMs, n - 1);
      NetOfAppend(TradesOn(ts[..|ts| - 1], startMs, endMs, n - 1), ts[|ts| - 1]);
    }
  }

  /** Day counts add up to the trades of the window, and day profits to the window's profit. */
  lemma {:induction false} DaysAddUp(ts: seq<Trade>, startMs: int, endMs: int)
    requires startMs < endMs
    ensures CountTo(ts, startMs, endMs, DayCount(startMs, endMs)) == |TradesIn(ts, startMs, endMs)|
    ensures NetTo(ts, startMs, endMs, DayCount(startMs, endMs)) == NetOf(TradesIn(ts, startMs, endMs))
  {
    var n := DayCount(startMs, endMs);
    if ts == [] {
      NothingAddsUp(startMs, endMs, n);
    } else {
      var init, last := ts[..|ts| - 1], ts[|ts| - 1];
      DaysAddUp(init, startMs, endMs);
      OneMoreTrade(ts, startMs, endMs, n);
      DaysPartitionTheWindow(startMs, endMs, last.key.timeMs);
      NetOfAppend(TradesIn(init, startMs, endMs), last);
    }
  }

  lemma {:induction false} NothingAddsUp(startMs: int, endMs: int, n: nat)
    ensures CountTo([], startMs, endMs, n) == 0 && NetTo([], startMs, endMs, n) == 0.0
  {
    if n > 0 {
      NothingAddsUp(startMs, endMs, n - 1);
    }
  }

  function PointFor(ts: seq<Trade>, startMs: int, endMs: int, i: nat): Point {
    var b, day := BucketAt(startMs, endMs, i), TradesOn(ts, startMs, endMs, i);
    Point(b.dayEnd, b.dayStart, b.dayEnd, i + 1, NetTo(ts, startMs, endMs, i + 1), |day|, Recent(day), NetOf(day),
          VolumeOf(day), |day| == 0)
  }

  lemma {:induction false} NoneOn(ts: seq<Trade>, startMs: int, endMs: int, i: nat)
    requires forall t <- ts :: !InDay(startMs, endMs, i, t.key.timeMs)
    ensures TradesOn(ts, startMs, endMs, i) == []
  {
    if ts != [] {
      NoneOn(ts[..|ts| - 1], startMs, endMs, i);
      assert ts[|ts| - 1] in ts;
    }
  }

  lemma {:induction false} LaterTradesAddNothing(ts: seq<Trade>, n: nat, startMs: int, endMs: int, i: nat)
    requires n <= |ts| && forall k :: n <= k < |ts| ==> !InDay(startMs, endMs, i, ts[k].key.timeMs)
    ensures TradesOn(ts, startMs, endMs, i) == TradesOn(ts[..n], startMs, endMs, i)
  {
    if n < |ts| {
      LaterTradesAddNothing(ts[..|ts| - 1], n, startMs, endMs, i);
      assert ts[..|ts| - 1][..n] == ts[..n];
    } else {
      assert ts[..n] == ts;
    }
  }

  /** Before day `i` the walk has taken exactly the trades at or before the day's start (none before the first day). */
  ghost predicate TakenBefore(ts: seq<Trade>, next: nat, startMs: int, endMs: int, i: nat) {
    && next <= |ts|
    && (i == 0 ==> next == 0)
    && (i > 0 ==> forall k :: 0 <= k < next ==> ts[k].key.timeMs <= BucketAt(startMs, endMs, i).dayStart)
    && (i > 0 && next < |ts| ==> ts[next].key.timeMs > BucketAt(startMs, endMs, i).dayStart)
  }

  /** Takes the trades of one day off the front of what is left; trades before the window are passed over. */
  method TakeDay(ts: seq<Trade>, from: nat, startMs: int, endMs: int, i: nat) returns (bucket: seq<Trade>, next: nat)
    requires TimeOrdered(ts) && startMs < endMs && i < DayCount(startMs, endMs)
    requires TakenBefore(ts, from, startMs, endMs, i)
    ensures bucket == TradesOn(ts, startMs, endMs, i)
    ensures i + 1 < DayCount(startMs, endMs) ==> TakenBefore(ts, next, startMs, endMs, i + 1)
  {
    var b := BucketAt(startMs, endMs, i);
    DayIsNotEmpty(startMs, endMs, i);
    bucket, next := [], from;
    NoneOn(ts[..from], startMs, endMs, i);
    while next < |ts| && ts[next].key.timeMs <= b.dayEnd
      invariant from <= next <= |ts|
      invariant bucket == TradesOn(ts[..next], startMs, endMs, i)
      invariant forall k :: 0 <= k < next ==> ts[k].key.timeMs <= b.dayEnd
    {
      assert ts[..next + 1][..|ts[..next + 1]| - 1] == ts[..next];
      var t := ts[next];
      assert i > 0 ==> t.key.timeMs >= ts[from].key.timeMs > b.dayStart;
      if t.key.timeMs >= b.dayStart {
        bucket := bucket + [t];
      }
      next := next + 1;
    }
    LaterTradesAddNothing(ts, next, startMs, endMs, i);
  }

  lemma DayIsNotEmpty(startMs: int, endMs: int, i: nat)
    requires startMs < endMs && i < DayCount(startMs, endMs)
    ensures BucketAt(startMs, endMs, i).dayStart < BucketAt(startMs, endMs, i).dayEnd
    ensures i + 1 < DayCount(startMs, endMs) ==>
              BucketAt(startMs, endMs, i + 1).dayStart == BucketAt(startMs, endMs, i).dayEnd
  {
    var n := DayCount(startMs, endMs);
    assert endMs - startMs > (n - 1) * MS_PER_DAY;
  }

  method SumDay(day: seq<Trade>) returns (net: real, volume: real)
    ensures net == NetOf(day) && volume == VolumeOf(day)
  {
    net, volume := 0.0, 0.0;
    var i := 0;
    while i < |day|
      invariant 0 <= i <= |day| && net == NetOf(day[..i]) && volume == VolumeOf(day[..i])
    {
      assert day[..i + 1][..|day[..i + 1]| - 1] == day[..i];
      net := net + day[i].netPnl;
      volume := volume + day[i].totals.notional;
      i := i + 1;
    }
    assert day[..i] == day;
  }

  function PointsTo(ts: seq<Trade>, startMs: int, endMs: int, n: nat): seq<Point> {
    seq(n, i requires 0 <= i < n => PointFor(ts, startMs, endMs, i))
  }

  lemma OneMorePoint(ts: seq<Trade>, startMs: int, endMs: int, n: nat, cumulative: real, day: seq<Trade>, p: Point)
    requires cumulative == NetTo(ts, startMs, endMs, n) && day == TradesOn(ts, startMs, endMs, n)
    requires var b := BucketAt(startMs, endMs, n);
             p == Point(b.dayEnd, b.dayStart, b.dayEnd, n + 1, cumulative + NetOf(day), |day|, Recent(day), NetOf(day),
                        VolumeOf(day), |day| == 0)
    ensures PointsTo(ts, startMs, endMs, n + 1) == PointsTo(ts, startMs, endMs, n) + [p]
    ensures p.pnl == NetTo(ts, startMs, endMs, n + 1)
  {
    PointIs(ts, startMs, endMs, n, cumulative, day, p);
  }

  lemma PointIs(ts: seq<Trade>, startMs: int, endMs: int, n: nat, cumulative: real, day: seq<Trade>, p: Point)
    requires cumulative == NetTo(ts, startMs, endMs, n) && day == TradesOn(ts, startMs, endMs, n)
    requires var b := BucketAt(startMs, endMs, n);
             p == Point(b.dayEnd, b.dayStart, b.dayEnd, n + 1, cumulative + NetOf(day), |day|, Recent(day), NetOf(day),
                        VolumeOf(day), |day| == 0)
    ensures p == PointFor(ts, startMs, endMs, n)
    ensures p.pnl == NetTo(ts, startMs, endMs, n + 1)
  {
  }

  /** One turn of the walk: the point of day `i`, and where the next day's trades begin. */
  method WalkDay(ts: seq<Trade>, from: nat, startMs: int, endMs: int, i: nat, cumulative: real)
      returns (point: Point, next: nat)
    requires TimeOrdered(ts) && startMs < endMs && i < DayCount(startMs, endMs)
    requires TakenBefore(ts, from, startMs, endMs, i) && cumulative == NetTo(ts, startMs, endMs, i)
    ensures i + 1 < DayCount(startMs, endMs) ==> TakenBefore(ts, next, startMs, endMs, i + 1)
    ensures PointsTo(ts, startMs, endMs, i + 1) == PointsTo(ts, startMs, endMs, i) + [point]
    ensures point.pnl == NetTo(ts, startMs, endMs, i + 1)
  {
    var bucket;
    bucket, next := TakeDay(ts, from, startMs, endMs, i);
    point := DayPoint(bucket, cumulative, BucketAt(startMs, endMs, i), i);
    OneMorePoint(ts, startMs, endMs, i, cumulative, bucket, point);
  }

  method WalkDays(ts: seq<Trade>, startMs: int, endMs: int) returns (points: seq<Point>)
    requires TimeOrdered(ts) && startMs < endMs
    ensures points == PointsTo(ts, startMs, endMs, DayCount(startMs, endMs))
  {
    points := [];
    var next: nat := 0;
    var cumulative := 0.0;
    var i: nat := 0;
    var n := DayCount(startMs, endMs);
    while i < n
      invariant i <= n && points == PointsTo(ts, startMs, endMs, i)
      invariant cumulative == NetTo(ts, startMs, endMs, i)
      invariant i < n ==> TakenBefore(ts, next, startMs, endMs, i)
    {
      var point;
      point, next := WalkDay(ts, next, startMs, endMs, i, cumulative);
      cumulative := point.pnl;
      points := points + [point];
      i := i + 1;
    }
  }

  /** `daily_trade_points`: one point per day, with that day's trades and the running profit. */
  method DailyTradePoints(trades: seq<Trade>, startMs: int, endMs: int) returns (points: seq<Point>)
    ensures points == PointsTo(SortTrades(trades), startMs, endMs, DayCount(startMs, endMs))
    ensures startMs < endMs ==>
              |points| > 0 && points[|points| - 1].pnl == NetOf(TradesIn(SortTrades(trades), startMs, endMs))
  {
    if endMs <= startMs {
      return [];
    }
    SortTradesSorts(trades);
    points := WalkDays(SortTrades(trades), startMs, endMs);
    LastPoint(SortTrades(trades), startMs, endMs);
  }

  lemma LastPoint(ts: seq<Trade>, startMs: int, endMs: int)
    requires startMs < endMs
    ensures var n := DayCount(startMs, endMs);
            n > 0 && PointsTo(ts, startMs, endMs, n)[n - 1].pnl == NetOf(TradesIn(ts, startMs, endMs))
  {
    DaysAddUp(ts, startMs, endMs);
    DaysPartitionTheWindow(startMs, endMs, startMs);
  }

  method DayPoint(bucket: seq<Trade>, before: real, b: Bucket, i: nat) returns (p: Point)
    ensures p == Point(b.dayEnd, b.dayStart, b.dayEnd, i + 1, before + NetOf(bucket), |bucket|, Recent(bucket),
                       NetOf(bucket), VolumeOf(bucket), |bucket| == 0)
  {
    var net, volume := SumDay(bucket);
    p := Point(b.dayEnd, b.dayStart, b.dayEnd, i + 1, before + net, |bucket|, Recent(bucket), net, volume,
               |bucket| == 0);
  }

  // ---------- Account value by day ----------

  datatype Value = Value(timeMs: int, usd: real)

  predicate NoLater(a: Value, b: Value) { a.timeMs <= b.timeMs }

  ghost predicate ValuesOrdered(vs: seq<Value>) { Ordered(vs, NoLater) }

  /** A stable sort by time. */
  function SortValues(vs: seq<Value>): seq<Value> { Sort(vs, NoLater) }

  lemma SortValuesSorts(vs: seq<Value>)
    ensures ValuesOrdered(SortValues(vs)) && multiset(SortValues(vs)) == multiset(vs)
  {
    SortOrders(vs, NoLater);
    SortMembers(vs, NoLater);
  }

  datatype AccountRow = AccountRow(dayIndex: int, dayEnd: int, usd: real, accountDelta: real, tradeDelta: real,
                                   residual: real, available: bool, observed: bool)

  /** The last value at or before `t`. */
  function ValueAt(vs: seq<Value>, t: int): Option<real> {
    if vs == [] then None
    else if vs[|vs| - 1].timeMs <= t then Some(vs[|vs| - 1].usd) else ValueAt(vs[..|vs| - 1], t)
  }

  predicate ObservedIn(vs: seq<Value>, after: int, upTo: int) { exists v <- vs :: after < v.timeMs <= upTo }

  function TradePnl(points: seq<real>, i: nat): real { if i < |points| then points[i] else 0.0 }

  // What the walk carries from day to day: the account value and trade profit of the last observed day.
  datatype Carry = Carry(account: Option<real>, trade: real)

  function NextCarry(c: Carry, vs: seq<Value>, points: seq<real>, startMs: int, endMs: int, i: nat): Carry {
    var b := BucketAt(startMs, endMs, i);
    if ObservedIn(vs, b.dayStart, b.dayEnd) && ValueAt(vs, b.dayEnd).Some?
    then Carry(ValueAt(vs, b.dayEnd), TradePnl(points, i)) else c
  }

  function CarryAt(vs: seq<Value>, points: seq<real>, startMs: int, endMs: int, i: nat): Carry {
    if i == 0 then Carry(ValueAt(vs, startMs), 0.0)
    else NextCarry(CarryAt(vs, points, startMs, endMs, i - 1), vs, points, startMs, endMs, i - 1)
  }

  /** How a day with a known value is attributed, given what was carried into it. */
  function Attribute(c: Carry, b: Bucket, i: nat, value: real, observed: bool, pnl: real): AccountRow {
    var available := observed && c.account.Some?;
    var accountDelta := if available then value - c.account.value else 0.0;
    var tradeDelta := if available then pnl - c.trade else 0.0;
    AccountRow(i + 1, b.dayEnd, value, accountDelta, tradeDelta, accountDelta - tradeDelta, available, observed)
  }

  /** The row of day `i`, or none while no value is known yet. */
  function RowFor(vs: seq<Value>, points: seq<real>, startMs: int, endMs: int, i: nat): Option<AccountRow> {
    var b := BucketAt(startMs, endMs, i);
    var value := ValueAt(vs, b.dayEnd);
    if value.None? then None
    else Some(Attribute(CarryAt(vs, points, startMs, endMs, i), b, i, value.value, ObservedIn(vs, b.dayStart, b.dayEnd),
                        TradePnl(points, i)))
  }

  function RowsTo(vs: seq<Value>, points: seq<real>, startMs: int, endMs: int, n: nat): seq<AccountRow> {
    if n == 0 then []
    else
      var row := RowFor(vs, points, startMs, endMs, n - 1);
      RowsTo(vs, points, startMs, endMs, n - 1) + (if row.Some? then [row.value] else [])
  }

  /** The history pointer stands right after everything at or before `t`, and `last` is the value known then. */
  ghost predicate PointerAt(vs: seq<Value>, next: nat, last: Option<real>, t: int) {
    && next <= |vs| && last == ValueAt(vs, t)
    && (forall k :: 0 <= k < next ==> vs[k].timeMs <= t)
    && (forall k :: next <= k < |vs| ==> vs[k].timeMs > t)
  }

  /** Moves the history pointer over everything at or before `upTo`. */
  method AdvanceTo(vs: seq<Value>, from: nat, last: Option<real>, after: int, upTo: int)
    returns (next: nat, value: Option<real>, observed: nat)
    requires ValuesOrdered(vs) && after <= upTo && PointerAt(vs, from, last, after)
    ensures PointerAt(vs, next, value, upTo)
    ensures observed > 0 <==> ObservedIn(vs, after, upTo)
  {
    next, value, observed := from, last, 0;
    NothingLater(vs, from, after);
    SameValueLater(vs[..from], after, upTo);
    while next < |vs| && vs[next].timeMs <= upTo
      invariant from <= next <= |vs| && value == ValueAt(vs[..next], upTo)
      invariant forall k :: 0 <= k < next ==> vs[k].timeMs <= upTo
      invariant observed == next - from
    {
      assert vs[..next + 1][..|vs[..next + 1]| - 1] == vs[..next];
      value := Some(vs[next].usd);
      if vs[next].timeMs >= after {
        observed := observed + 1;
      }
      next := next + 1;
    }
    NothingLater(vs, next, upTo);
    if observed > 0 {
      assert vs[from] in vs;
    } else {
      forall v | v in vs ensures !(after < v.timeMs <= upTo) {
        var k :| 0 <= k < |vs| && vs[k] == v;
      }
    }
  }

  lemma {:induction false} NothingLater(vs: seq<Value>, n: nat, t: int)
    requires n <= |vs| && forall k :: n <= k < |vs| ==> vs[k].timeMs > t
    ensures ValueAt(vs, t) == ValueAt(vs[..n], t)
  {
    if n < |vs| {
      NothingLater(vs[..|vs| - 1], n, t);
      assert vs[..|vs| - 1][..n] == vs[..n];
    } else {
      assert vs[..n] == vs;
    }
  }

  lemma {:induction false} SameValueLater(vs: seq<Value>, s: int, t: int)
    requires s <= t && forall v <- vs :: v.timeMs <= s
    ensures ValueAt(vs, s) == ValueAt(vs, t)
  {
    if vs != [] {
      assert vs[|vs| - 1] in vs;
    }
  }

  /** `daily_account_value_points`; `points` are the cumulative trade profits of the days. */
  method DailyAccountValuePoints(values: seq<Value>, points: seq<real>, startMs: int, endMs: int)
    returns (rows: seq<AccountRow>)
    ensures rows == RowsTo(SortValues(values), points, startMs, endMs, DayCount(startMs, endMs))
  {
    rows := [];
    var vs := SortValues(values);
    SortValuesSorts(values);
    if endMs <= startMs {
      return;
    }
    if values == [] {
      NoValuesNoRows(points, startMs, endMs, DayCount(startMs, endMs));
      return;
    }
    var next: nat;
    var lastValue: Option<real>;
    next, lastValue := SkipTo(vs, startMs);
    var previous := Carry(lastValue, 0.0);
    var i: nat := 0;
    var n := DayCount(startMs, endMs);
    while i < n
      invariant i <= n
      invariant rows == RowsTo(vs, points, startMs, endMs, i)
      invariant previous == CarryAt(vs, points, startMs, endMs, i)
      invariant i < n ==> PointerAt(vs, next, lastValue, BucketAt(startMs, endMs, i).dayStart)
    {
      var b := BucketAt(startMs, endMs, i);
      DayIsNotEmpty(startMs, endMs, i);
      var observed;
      next, lastValue, observed := AdvanceTo(vs, next, lastValue, b.dayStart, b.dayEnd);
      if lastValue.Some? {
        rows := rows + [Attribute(previous, b, i, lastValue.value, observed > 0, TradePnl(points, i))];
        if observed > 0 {
          previous := Carry(lastValue, TradePnl(points, i));
        }
      } else {
        assert rows + [] == rows;
      }
      i := i + 1;
    }
  }

  /** Passes over the values at or before the window's start and returns the last of them. */
  method SkipTo(vs: seq<Value>, startMs: int) returns (next: nat, last: Option<real>)
    requires ValuesOrdered(vs)
    ensures PointerAt(vs, next, last, startMs)
  {
    next, last := 0, None;
    while next < |vs| && vs[next].timeMs <= startMs
      invariant next <= |vs| && last == ValueAt(vs[..next], startMs)
      invariant forall k :: 0 <= k < next ==> vs[k].timeMs <= startMs
    {
      assert vs[..next + 1][..|vs[..next + 1]| - 1] == vs[..next];
      last := Some(vs[next].usd);
      next := next + 1;
    }
    NothingLater(vs, next, startMs);
  }

  lemma {:induction false} NoValuesNoRows(points: seq<real>, startMs: int, endMs: int, n: nat)
    ensures RowsTo([], points, startMs, endMs, n) == []
  {
    if n > 0 {
      NoValuesNoRows(points, startMs, endMs, n - 1);
    }
  }

  // ---------- Rows in words ----------

  /** The value known at a time is that of the last observation not after it. */
  lemma {:induction false} LatestValue(vs: seq<Value>, t: int, k: nat)
    requires ValuesOrdered(vs) && k < |vs| && vs[k].timeMs <= t && (k + 1 < |vs| ==> vs[k + 1].timeMs > t)
    ensures ValueAt(vs, t) == Some(vs[k].usd)
  {
    if k + 1 < |vs| {
      assert NoLater(vs[k + 1], vs[|vs| - 1]) || k + 1 == |vs| - 1;
      LatestValue(vs[..|vs| - 1], t, k);
    }
  }

  lemma {:induction false} NothingKnown(vs: seq<Value>, t: int)
    requires forall v <- vs :: v.timeMs > t
    ensures ValueAt(vs, t) == None
  {
    if vs != [] {
      assert vs[|vs| - 1] in vs && forall v <- vs[..|vs| - 1] :: v in vs;
      NothingKnown(vs[..|vs| - 1], t);
    }
  }

  /** Day `i` of the account chart: no row before a value is known; else the value at the day's end and what changed. */
  lemma RowInWords(vs: seq<Value>, points: seq<real>, startMs: int, endMs: int, i: nat)
    ensures var b, row := BucketAt(startMs, endMs, i), RowFor(vs, points, startMs, endMs, i);
            var before := CarryAt(vs, points, startMs, endMs, i);
            && (row.None? <==> ValueAt(vs, b.dayEnd).None?)
            && (row.Some? ==>
                  var r := row.value;
                  var observed := exists v <- vs :: b.dayStart < v.timeMs <= b.dayEnd;
                  && r.dayIndex == i + 1 && r.dayEnd == b.dayEnd && Some(r.usd) == ValueAt(vs, b.dayEnd)
                  && r.observed == observed && r.available == (observed && before.account.Some?)
                  && r.residual == r.accountDelta - r.tradeDelta
                  && (if r.available then
                        && r.accountDelta == r.usd - before.account.value
                        && r.tradeDelta == (if i < |points| then points[i] else 0.0) - before.trade
                      else r.accountDelta == r.tradeDelta == 0.0))
  {
  }

  // ---------- Telescoping ----------

  function AccountSum(rows: seq<AccountRow>): real {
    if rows == [] then 0.0 else AccountSum(rows[..|rows| - 1]) + rows[|rows| - 1].accountDelta
  }

  function TradeSum(rows: seq<AccountRow>): real {
    if rows == [] then 0.0 else TradeSum(rows[..|rows| - 1]) + rows[|rows| - 1].tradeDelta
  }

  function ResidualSum(rows: seq<AccountRow>): real {
    if rows == [] then 0.0 else ResidualSum(rows[..|rows| - 1]) + rows[|rows| - 1].residual
  }

  /** Where the sums start: the value known at the window's start, or else the first observed day's. */
  function Anchor(vs: seq<Value>, points: seq<real>, startMs: int, endMs: int, n: nat): Carry {
    if n == 0 then CarryAt(vs, points, startMs, endMs, 0)
    else
      var before := Anchor(vs, points, startMs, endMs, n - 1);
      if before.account.Some? then before else CarryAt(vs, points, startMs, endMs, n)
  }

  /** The rows account for the way from the carry `first` to the carry `last`. */
  ghost predicate Telescopes(rows: seq<AccountRow>, first: Carry, last: Carry) {
    && (first.account.Some? <==> last.account.Some?)
    && (last.account.Some? ==> AccountSum(rows) == last.account.value - first.account.value
                               && TradeSum(rows) == last.trade - first.trade)
    && (last.account.None? ==> AccountSum(rows) == 0.0 && TradeSum(rows) == 0.0 && last.trade == 0.0)
    && ResidualSum(rows) == AccountSum(rows) - TradeSum(rows)
  }

  lemma SumsAppend(rows: seq<AccountRow>, row: AccountRow)
    ensures AccountSum(rows + [row]) == AccountSum(rows) + row.accountDelta
    ensures TradeSum(rows + [row]) == TradeSum(rows) + row.tradeDelta
    ensures ResidualSum(rows + [row]) == ResidualSum(rows) + row.residual
  {
    assert (rows + [row])[..|rows|] == rows;
  }

  /** One more day with a known value, observed or carried forward. */
  lemma DayTelescopes(rows: seq<AccountRow>, first: Carry, last: Carry, b: Bucket, i: nat, value: real,
                      observed: bool, pnl: real)
    requires Telescopes(rows, first, last)
    ensures var next := if observed then Carry(Some(value), pnl) else last;
            Telescopes(rows + [Attribute(last, b, i, value, observed, pnl)],
                       if first.account.Some? then first else next, next)
  {
    SumsAppend(rows, Attribute(last, b, i, value, observed, pnl));
  }

  /**
   Over any number of days the account changes add up to last observed value minus anchor, the trade changes to
   the matching profit difference, and the residuals to the difference of the two.
   */
  lemma {:induction false} DeltasTelescope(vs: seq<Value>, points: seq<real>, startMs: int, endMs: int, n: nat)
    requires ValuesOrdered(vs)
    ensures Telescopes(RowsTo(vs, points, startMs, endMs, n), Anchor(vs, points, startMs, endMs, n),
                       CarryAt(vs, points, startMs, endMs, n))
  {
    if n > 0 {
      var i := n - 1;
      DeltasTelescope(vs, points, startMs, endMs, i);
      var rows := RowsTo(vs, points, startMs, endMs, i);
      var b := BucketAt(startMs, endMs, i);
      var value := ValueAt(vs, b.dayEnd);
      if value.Some? {
        DayTelescopes(rows, Anchor(vs, points, startMs, endMs, i), CarryAt(vs, points, startMs, endMs, i),
                      b, i, value.value, ObservedIn(vs, b.dayStart, b.dayEnd), TradePnl(points, i));
      } else {
        assert rows + [] == rows;
      }
    }
  }

  /** A carried-forward day, and the first observed day without an anchor, contributes nothing. */
  lemma {:induction false} CarriedDaysAreZero(vs: seq<Value>, points: seq<real>, startMs: int, endMs: int, n: nat)
    ensures forall r <- RowsTo(vs, points, startMs, endMs, n) ::
              (!r.available ==> r.accountDelta == 0.0 && r.tradeDelta == 0.0 && r.residual == 0.0)
              && (r.available ==> r.observed)
  {
    if n > 0 {
      CarriedDaysAreZero(vs, points, startMs, endMs, n - 1);
    }
  }

  /** The last carried value is the account value known at the end of the walked days. */
  lemma {:induction false} CarryIsLastValue(vs: seq<Value>, points: seq<real>, startMs: int, endMs: int, n: nat)
    requires ValuesOrdered(vs) && startMs < endMs && n <= DayCount(startMs, endMs)
    ensures CarryAt(vs, points, startMs, endMs, n).account
            == ValueAt(vs, if n == 0 then startMs else BucketAt(startMs, endMs, n - 1).dayEnd)
  {
    if n > 0 {
      CarryIsLastValue(vs, points, startMs, endMs, n - 1);
      DayIsNotEmpty(startMs, endMs, n - 1);
      if n > 1 {
        DayIsNotEmpty(startMs, endMs, n - 2);
      }
      var b := BucketAt(startMs, endMs, n - 1);
      if ObservedIn(vs, b.dayStart, b.dayEnd) {
        KnownOnceObserved(vs, b.dayEnd);
      } else {
        QuietDayKeepsValue(vs, b.dayStart, b.dayEnd);
      }
    }
  }

  lemma {:induction false} KnownOnceObserved(vs: seq<Value>, t: int)
    requires exists v <- vs :: v.timeMs <= t
    ensures ValueAt(vs, t).Some?
  {
    if vs[|vs| - 1].timeMs > t {
      var v :| v in vs && v.timeMs <= t;
      assert vs == vs[..|vs| - 1] + [vs[|vs| - 1]];
      assert v in vs[..|vs| - 1];
      KnownOnceObserved(vs[..|vs| - 1], t);
    }
  }

  lemma {:induction false} QuietDayKeepsValue(vs: seq<Value>, s: int, t: int)
    requires s <= t && !ObservedIn(vs, s, t)
    ensures ValueAt(vs, s) == ValueAt(vs, t)
  {
    if vs != [] {
      assert vs[|vs| - 1] in vs;
      assert forall v <- vs[..|vs| - 1] :: v in vs;
      QuietDayKeepsValue(vs[..|vs| - 1], s, t);
    }
  }
}
