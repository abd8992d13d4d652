/**
 From fills to the daily chart. A trade carries the time of its fills, so every span of time holds whole groups,
 and each point of the chart is a statement about the kept fills of its day and of the window so far.
 */
module TradeChart {
  import opened Compaction
  import opened DayWalk

  // A stretch of time: a closed window, one day of the walk over a window, or what comes after one time up to another.
  datatype Span =
    | Window(startMs: int, endMs: int)
    | Day(startMs: int, endMs: int, i: nat)
    | Later(after: int, upTo: int)
  {
    predicate Covers(t: int) {
      match this
      case Window(s, e) => s <= t <= e
      case Day(s, e, i) => InDay(s, e, i, t)
      case Later(a, b) => a < t <= b
    }
  }

  function FillsIn(fills: seq<RawFill>, span: Span): seq<RawFill> {
    if fills == [] then []
    else
      var init, last := FillsIn(fills[..|fills| - 1], span), fills[|fills| - 1];
      if span.Covers(last.timeMs) then init + [last] else init
  }

  function TradesOver(ts: seq<Trade>, span: Span): seq<Trade> {
    if ts == [] then []
    else
      var init, last := TradesOver(ts[..|ts| - 1], span), ts[|ts| - 1];
      if span.Covers(last.key.timeMs) then init + [last] else init
  }

  lemma {:induction false} TradesOverDay(ts: seq<Trade>, startMs: int, endMs: int, i: nat)
    ensures TradesOn(ts, startMs, endMs, i) == TradesOver(ts, Day(startMs, endMs, i))
  {
    if ts != [] {
      TradesOverDay(ts[..|ts| - 1], startMs, endMs, i);
    }
  }

  // ---------- Compaction conserves every total ----------

  lemma SumsAppend(fills: seq<RawFill>, f: RawFill, k: GroupKey)
    ensures SumKept(fills + [f]) == if Keep(f) then SumKept(fills).Plus(Weight(f)) else SumKept(fills)
    ensures SumGroup(fills + [f], k)
            == if Keep(f) && KeyOf(f) == k then SumGroup(fills, k).Plus(Weight(f)) else SumGroup(fills, k)
  {
    assert (fills + [f])[..|fills|] == fills;
  }

  /** The fills outside one group. */
  function Others(fills: seq<RawFill>, k: GroupKey): seq<RawFill> {
    if fills == [] then []
    else
      var init, last := Others(fills[..|fills| - 1], k), fills[|fills| - 1];
      if KeyOf(last) == k then init else init + [last]
  }

  lemma {:induction false} OthersMembers(fills: seq<RawFill>, k: GroupKey)
    ensures forall f :: f in Others(fills, k) <==> f in fills && KeyOf(f) != k
  {
    if fills != [] {
      OthersMembers(fills[..|fills| - 1], k);
      assert fills == fills[..|fills| - 1] + [fills[|fills| - 1]];
    }
  }

  lemma {:induction false} OthersSums(fills: seq<RawFill>, k: GroupKey)
    ensures SumKept(fills) == SumGroup(fills, k).Plus(SumKept(Others(fills, k)))
  {
    if fills != [] {
      var init, last := fills[..|fills| - 1], fills[|fills| - 1];
      OthersSums(init, k);
      SumsAppend(Others(init, k), last, k);
    }
  }

  lemma {:induction false} OthersGroups(fills: seq<RawFill>, k: GroupKey, j: GroupKey)
    requires j != k
    ensures SumGroup(Others(fills, k), j) == SumGroup(fills, j)
  {
    if fills != [] {
      var init, last := fills[..|fills| - 1], fills[|fills| - 1];
      OthersGroups(init, k, j);
      SumsAppend(Others(init, k), last, j);
    }
  }

  /** Without one trade, the rest compact the fills outside its group. */
  lemma RestCompacts(trades: seq<Trade>, fills: seq<RawFill>)
    requires Compacts(trades, fills) && trades != []
    ensures Compacts(trades[1..], Others(fills, trades[0].key))
  {
    var k, rest, others := trades[0].key, trades[1..], Others(fills, trades[0].key);
    OthersMembers(fills, k);
    forall t | t in rest ensures HasGroup(others, t.key) && t == TradeOf(t.key, SumGroup(others, t.key)) {
      var i :| 0 <= i < |rest| && rest[i] == t;
      assert trades[i + 1] == t && t.key != k;
      OthersGroups(fills, k, t.key);
      var f :| f in fills && Keep(f) && KeyOf(f) == t.key;
      assert f in others;
    }
    forall f | f in others && Keep(f) ensures exists t <- rest :: t.key == KeyOf(f) {
      var t :| t in trades && t.key == KeyOf(f);
      assert t in rest;
    }
  }

  lemma {:induction false} NothingKept(fills: seq<RawFill>)
    requires forall f <- fills :: !Keep(f)
    ensures SumKept(fills) == ZERO
  {
    if fills != [] {
      NothingKept(fills[..|fills| - 1]);
      assert fills[|fills| - 1] in fills;
    }
  }

  /** Trades that compact some fills add up to exactly the kept fills, in every total. */
  lemma {:induction false} CompactsConserves(trades: seq<Trade>, fills: seq<RawFill>)
    requires Compacts(trades, fills)
    ensures SumTrades(trades) == SumKept(fills)
  {
    if trades == [] {
      NothingKept(fills);
    } else {
      assert trades[0] in trades && trades[0].totals == SumGroup(fills, trades[0].key);
      RestCompacts(trades, fills);
      CompactsConserves(trades[1..], Others(fills, trades[0].key));
      OthersSums(fills, trades[0].key);
    }
  }

  // ---------- A span holds whole groups ----------

  lemma {:induction false} FillsInMembers(fills: seq<RawFill>, span: Span)
    ensures forall f :: f in FillsIn(fills, span) <==> f in fills && span.Covers(f.timeMs)
  {
    if fills != [] {
      FillsInMembers(fills[..|fills| - 1], span);
      assert fills == fills[..|fills| - 1] + [fills[|fills| - 1]];
    }
  }

  lemma {:induction false} SpanKeepsGroup(fills: seq<RawFill>, span: Span, k: GroupKey)
    requires span.Covers(k.timeMs)
    ensures SumGroup(FillsIn(fills, span), k) == SumGroup(fills, k)
  {
    if fills != [] {
      var init, last := fills[..|fills| - 1], fills[|fills| - 1];
      SpanKeepsGroup(init, span, k);
      SumsAppend(FillsIn(init, span), last, k);
    }
  }

  ghost predicate KeysApart(ts: seq<Trade>) { forall i, j :: 0 <= i < j < |ts| ==> ts[i].key != ts[j].key }

  lemma {:induction false} TradesOverKeep(ts: seq<Trade>, span: Span)
    ensures forall t :: t in TradesOver(ts, span) <==> t in ts && span.Covers(t.key.timeMs)
    ensures KeysApart(ts) ==> KeysApart(TradesOver(ts, span))
  {
    if ts != [] {
      var init, last := ts[..|ts| - 1], ts[|ts| - 1];
      TradesOverKeep(init, span);
      assert ts == init + [last];
      if KeysApart(ts) {
        assert forall t <- init :: t.key != last.key;
      }
    }
  }

  /** The trades of a span compact the fills of the span. */
  lemma SpanCompacts(trades: seq<Trade>, fills: seq<RawFill>, span: Span)
    requires Compacts(trades, fills)
    ensures Compacts(TradesOver(trades, span), FillsIn(fills, span))
  {
    TradesOverKeep(trades, span);
    FillsInMembers(fills, span);
    forall t | t in TradesOver(trades, span)
      ensures HasGroup(FillsIn(fills, span), t.key) && t == TradeOf(t.key, SumGroup(FillsIn(fills, span), t.key))
    {
      SpanKeepsGroup(fills, span, t.key);
      var f :| f in fills && Keep(f) && KeyOf(f) == t.key;
      assert f in FillsIn(fills, span);
    }
  }

  /** So size, notional, closed profit, fees and number of fills come back to the fills of the span. */
  lemma SpanConserves(trades: seq<Trade>, fills: seq<RawFill>, span: Span)
    requires Compacts(trades, fills)
    ensures SumTrades(TradesOver(trades, span)) == SumKept(FillsIn(fills, span))
  {
    SpanCompacts(trades, fills, span);
    CompactsConserves(TradesOver(trades, span), FillsIn(fills, span));
  }

  /** The profit and volume of trades are those of their totals. */
  lemma {:induction false} NetIsTotals(ts: seq<Trade>)
    requires forall t <- ts :: t.netPnl == t.totals.closedPnl - t.totals.fee
    ensures NetOf(ts) == Net(SumTrades(ts)) && VolumeOf(ts) == SumTrades(ts).notional
  {
    if ts != [] {
      var init, last := ts[..|ts| - 1], ts[|ts| - 1];
      NetIsTotals(init);
      SumTradesAppend(init, last);
      assert ts == init + [last];
    }
  }

  function Net(t: Totals): real { t.closedPnl - t.fee }

  /** The groups that have a kept fill. */
  ghost function Groups(fills: seq<RawFill>): set<GroupKey> { set f | f in fills && Keep(f) :: KeyOf(f) }

  lemma {:induction false} KeysCount(ts: seq<Trade>)
    requires KeysApart(ts)
    ensures |set t | t in ts :: t.key| == |ts|
  {
    if ts != [] {
      var init, last := ts[..|ts| - 1], ts[|ts| - 1];
      KeysCount(init);
      assert ts == init + [last];
      assert last.key !in set t | t in init :: t.key;
      assert (set t | t in ts :: t.key) == (set t | t in init :: t.key) + {last.key};
    }
  }

  lemma OneTradePerGroup(trades: seq<Trade>, fills: seq<RawFill>)
    requires Compacts(trades, fills)
    ensures |trades| == |Groups(fills)|
  {
    KeysCount(trades);
    assert (set t | t in trades :: t.key) == Groups(fills);
  }

  // ---------- Days add up to the window so far ----------

  /** `whole` covers exactly what `a` and `b` cover, and nothing twice. */
  ghost predicate Splits(whole: Span, a: Span, b: Span) {
    forall t :: (whole.Covers(t) <==> a.Covers(t) || b.Covers(t)) && !(a.Covers(t) && b.Covers(t))
  }

  lemma PlusInside(x: Totals, y: Totals, w: Totals)
    ensures x.Plus(y).Plus(w) == x.Plus(w).Plus(y) == x.Plus(y.Plus(w))
  {
  }

  lemma SumFillsIn(init: seq<RawFill>, last: RawFill, span: Span)
    ensures SumKept(FillsIn(init + [last], span))
            == if Keep(last) && span.Covers(last.timeMs) then SumKept(FillsIn(init, span)).Plus(Weight(last))
               else SumKept(FillsIn(init, span))
  {
    assert (init + [last])[..|init|] == init;
    SumsAppend(FillsIn(init, span), last, KeyOf(last));
  }

  lemma {:induction false} SpansAddUp(fills: seq<RawFill>, a: Span, b: Span, whole: Span)
    requires Splits(whole, a, b)
    ensures SumKept(FillsIn(fills, whole)) == SumKept(FillsIn(fills, a)).Plus(SumKept(FillsIn(fills, b)))
  {
    if fills != [] {
      var init, last := fills[..|fills| - 1], fills[|fills| - 1];
      assert fills == init + [last];
      SpansAddUp(init, a, b, whole);
      SumFillsIn(init, last, whole);
      SumFillsIn(init, last, a);
      SumFillsIn(init, last, b);
      PlusInside(SumKept(FillsIn(init, a)), SumKept(FillsIn(init, b)), Weight(last));
      assert whole.Covers(last.timeMs) <==> a.Covers(last.timeMs) || b.Covers(last.timeMs);
    }
  }

  /** The part of the window that the first `n` days reach. */
  function Reached(startMs: int, endMs: int, n: nat): Span
    requires n > 0
  {
    Window(startMs, BucketAt(startMs, endMs, n - 1).dayEnd)
  }

  lemma DayExtendsReach(startMs: int, endMs: int, n: nat)
    requires startMs < endMs && 0 < n < DayCount(startMs, endMs)
    ensures Splits(Reached(startMs, endMs, n + 1), Reached(startMs, endMs, n), Day(startMs, endMs, n))
  {
    DayIsNotEmpty(startMs, endMs, n - 1);
    DayIsNotEmpty(startMs, endMs, n);
  }

  lemma ReachAddsDay(fills: seq<RawFill>, startMs: int, endMs: int, n: nat)
    requires startMs < endMs && 0 < n < DayCount(startMs, endMs)
    ensures Net(SumKept(FillsIn(fills, Reached(startMs, endMs, n + 1))))
            == Net(SumKept(FillsIn(fills, Reached(startMs, endMs, n))))
               + Net(SumKept(FillsIn(fills, Day(startMs, endMs, n))))
  {
    DayExtendsReach(startMs, endMs, n);
    SpansAddUp(fills, Reached(startMs, endMs, n), Day(startMs, endMs, n), Reached(startMs, endMs, n + 1));
  }

  lemma {:induction false} DaysReach(fills: seq<RawFill>, ts: seq<Trade>, startMs: int, endMs: int, n: nat)
    requires Compacts(ts, fills) && startMs < endMs && 0 < n <= DayCount(startMs, endMs)
    ensures NetTo(ts, startMs, endMs, n) == Net(SumKept(FillsIn(fills, Reached(startMs, endMs, n))))
  {
    var i := n - 1;
    DayNet(fills, ts, startMs, endMs, i);
    assert NetTo(ts, startMs, endMs, n) == NetTo(ts, startMs, endMs, i) + NetOf(TradesOn(ts, startMs, endMs, i));
    if i == 0 {
      FirstDay(fills, ts, startMs, endMs);
    } else {
      DaysReach(fills, ts, startMs, endMs, i);
      ReachAddsDay(fills, startMs, endMs, i);
    }
  }

  lemma FirstDay(fills: seq<RawFill>, ts: seq<Trade>, startMs: int, endMs: int)
    ensures NetTo(ts, startMs, endMs, 0) == 0.0
    ensures FillsIn(fills, Day(startMs, endMs, 0)) == FillsIn(fills, Reached(startMs, endMs, 1))
  {
    SameSpan(fills, Day(startMs, endMs, 0), Reached(startMs, endMs, 1));
  }

  lemma {:induction false} SameSpan(fills: seq<RawFill>, a: Span, b: Span)
    requires forall t :: a.Covers(t) <==> b.Covers(t)
    ensures FillsIn(fills, a) == FillsIn(fills, b)
  {
    if fills != [] {
      SameSpan(fills[..|fills| - 1], a, b);
    }
  }

  /** One day's trades against one day's fills. */
  lemma DayNet(fills: seq<RawFill>, ts: seq<Trade>, startMs: int, endMs: int, i: nat)
    requires Compacts(ts, fills)
    ensures var day, kept := TradesOn(ts, startMs, endMs, i), FillsIn(fills, Day(startMs, endMs, i));
            && NetOf(day) == Net(SumKept(kept)) && VolumeOf(day) == SumKept(kept).notional
            && SumTrades(day).count == SumKept(kept).count && |day| == |Groups(kept)|
  {
    var span := Day(startMs, endMs, i);
    TradesOverDay(ts, startMs, endMs, i);
    SpanCompacts(ts, fills, span);
    SpanConserves(ts, fills, span);
    NetIsTotals(TradesOver(ts, span));
    OneTradePerGroup(TradesOver(ts, span), FillsIn(fills, span));
  }

  // ---------- The chart ----------

  lemma SortStillCompacts(trades: seq<Trade>, fills: seq<RawFill>)
    requires Compacts(trades, fills)
    ensures Compacts(SortTrades(trades), fills)
  {
    SortTradesSorts(trades);
    DistinctSurvivesSort(trades, SortTrades(trades));
    forall f | f in fills && Keep(f) ensures exists t <- SortTrades(trades) :: t.key == KeyOf(f) {
      var t :| t in trades && t.key == KeyOf(f);
      assert t in SortTrades(trades);
    }
  }

  /** Point `i` of the chart, in terms of the kept fills alone. */
  ghost predicate Tells(p: Point, fills: seq<RawFill>, startMs: int, endMs: int, i: nat) {
    var today, soFar := FillsIn(fills, Day(startMs, endMs, i)), FillsIn(fills, Reached(startMs, endMs, i + 1));
    && p.pnl == Net(SumKept(soFar))
    && p.bucketNet == Net(SumKept(today)) && p.bucketVolume == SumKept(today).notional
    && p.orderCount == |Groups(today)| && (p.noTrade <==> Groups(today) == {})
  }

  lemma PointTells(fills: seq<RawFill>, ts: seq<Trade>, startMs: int, endMs: int, i: nat)
    requires Compacts(ts, fills) && startMs < endMs && i < DayCount(startMs, endMs)
    ensures Tells(PointFor(ts, startMs, endMs, i), fills, startMs, endMs, i)
  {
    DayNet(fills, ts, startMs, endMs, i);
    DaysReach(fills, ts, startMs, endMs, i + 1);
  }

  /** Where the point stands, and the day's orders it shows: the last twelve. */
  predicate Shows(p: Point, trades: seq<Trade>, startMs: int, endMs: int, i: nat) {
    var day := TradesOn(trades, startMs, endMs, i);
    && p.dayStart == startMs + i * (24 * 60 * 60 * 1000) && p.timeMs == p.dayEnd && p.dayIndex == i + 1
    && p.dayEnd == (if i + 1 < DayCount(startMs, endMs) then p.dayStart + 24 * 60 * 60 * 1000 else endMs)
    && p.orders == day[if |day| > 12 then |day| - 12 else 0..]
  }

  lemma PointShows(ts: seq<Trade>, startMs: int, endMs: int, i: nat)
    requires i < DayCount(startMs, endMs)
    ensures Shows(PointFor(ts, startMs, endMs, i), ts, startMs, endMs, i)
  {
    DaysInHours(startMs, endMs, i);
  }

  /** The day's trades are those of the list whose time falls in the day, in the order of the list. */
  lemma {:induction false} TradesOfDay(ts: seq<Trade>, startMs: int, endMs: int, i: nat)
    ensures forall t :: t in TradesOn(ts, startMs, endMs, i) <==> t in ts && Day(startMs, endMs, i).Covers(t.key.timeMs)
  {
    TradesOverDay(ts, startMs, endMs, i);
    TradesOverKeep(ts, Day(startMs, endMs, i));
  }

  /** A day covers the times after its start up to its end; the first also its start. */
  lemma DayCovers(startMs: int, endMs: int, i: nat, t: int)
    requires i < DayCount(startMs, endMs)
    ensures var from := startMs + i * (24 * 60 * 60 * 1000);
            var to := if i + 1 < DayCount(startMs, endMs) then from + 24 * 60 * 60 * 1000 else endMs;
            Day(startMs, endMs, i).Covers(t) <==> (from < t || (i == 0 && from == t)) && t <= to
  {
    DaysInHours(startMs, endMs, i);
  }

  /** The whole window is what its days reach. */
  lemma LastDayReaches(startMs: int, endMs: int)
    requires startMs < endMs
    ensures DayCount(startMs, endMs) > 0 && Reached(startMs, endMs, DayCount(startMs, endMs)) == Window(startMs, endMs)
  {
    DaysPartitionTheWindow(startMs, endMs, startMs);
  }

  lemma ShownTrades(trades: seq<Trade>, fills: seq<RawFill>, points: seq<Point>, startMs: int, endMs: int)
    requires Compacts(trades, fills)
    requires points == PointsTo(SortTrades(trades), startMs, endMs, DayCount(startMs, endMs))
    ensures exists ts ::
              TradesOf(ts, fills) && forall i: nat :: i < |points| ==> Shows(points[i], ts, startMs, endMs, i)
  {
    var ts := SortTrades(trades);
    SortTradesSorts(trades);
    SortStillCompacts(trades, fills);
    CompactedTrades(ts, fills);
    forall i: nat | i < |points| ensures Shows(points[i], ts, startMs, endMs, i) {
      PointShows(ts, startMs, endMs, i);
    }
  }

  /**
   `compact_fills` followed by `daily_trade_points`. Every point states the profit, volume and orders of its day's
   kept fills and the profit of all kept fills up to it; the last one is closed profit minus fees over the window.
   */
  method TradePnlChart(fills: seq<RawFill>, startMs: int, endMs: int) returns (points: seq<Point>)
    ensures |points| == DayCount(startMs, endMs)
    ensures forall i: nat :: i < |points| ==> Tells(points[i], fills, startMs, endMs, i)
    ensures exists trades :: TradesOf(trades, fills) && forall i: nat :: i < |points| ==>
              Shows(points[i], trades, startMs, endMs, i)
    ensures startMs < endMs ==>
              && |points| > 0
              && var kept := SumKept(FillsIn(fills, Window(startMs, endMs)));
              points[|points| - 1].pnl == kept.closedPnl - kept.fee
  {
    var trades := CompactFills(fills);
    points := DailyTradePoints(trades, startMs, endMs);
    if startMs < endMs {
      SortStillCompacts(trades, fills);
      forall i: nat | i < |points| ensures Tells(points[i], fills, startMs, endMs, i) {
        PointTells(fills, SortTrades(trades), startMs, endMs, i);
      }
      LastDayReaches(startMs, endMs);
    }
    ShownTrades(trades, fills, points, startMs, endMs);
  }
}
