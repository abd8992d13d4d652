/**
 The two charts together: account-value changes of a window, attributed with the profit of the very fills that lie
 between the observations.
 */
module AccountChart {
  import opened Outcomes
  import opened Compaction
  import opened DayWalk
  import opened TradeChart

  /** The end of the first `d` days; the window's start for none. */
  function EndOf(startMs: int, endMs: int, d: nat): int {
    if d == 0 then startMs else BucketAt(startMs, endMs, d - 1).dayEnd
  }

  /** The days up to and including the last one that observed an account value. */
  function LastDay(vs: seq<Value>, startMs: int, endMs: int, n: nat): nat {
    if n == 0 then 0
    else
      var b := BucketAt(startMs, endMs, n - 1);
      if ObservedIn(vs, b.dayStart, b.dayEnd) then n else LastDay(vs, startMs, endMs, n - 1)
  }

  /** The days up to the anchor: none if a value is known at the window's start, else up to the first observed day. */
  function AnchorDay(vs: seq<Value>, startMs: int, endMs: int, n: nat): nat {
    if n == 0 then 0
    else
      var before := AnchorDay(vs, startMs, endMs, n - 1);
      if ValueAt(vs, EndOf(startMs, endMs, before)).Some? then before else LastDay(vs, startMs, endMs, n)
  }

  lemma {:induction false} DaysInOrder(vs: seq<Value>, startMs: int, endMs: int, n: nat)
    ensures AnchorDay(vs, startMs, endMs, n) <= LastDay(vs, startMs, endMs, n) <= n
  {
    if n > 0 {
      DaysInOrder(vs, startMs, endMs, n - 1);
    }
  }

  /** The profit of the first `d` days as the trade chart has it. */
  function ProfitBy(points: seq<real>, d: nat): real { if 0 < d <= |points| then points[d - 1] else 0.0 }

  /** What the walk carries is the value and the profit at the end of the last observed day. */
  lemma {:induction false} CarryIsLastDay(vs: seq<Value>, points: seq<real>, startMs: int, endMs: int, n: nat)
    ensures var d := LastDay(vs, startMs, endMs, n);
            CarryAt(vs, points, startMs, endMs, n) == Carry(ValueAt(vs, EndOf(startMs, endMs, d)), ProfitBy(points, d))
  {
    if n > 0 {
      CarryIsLastDay(vs, points, startMs, endMs, n - 1);
      var b := BucketAt(startMs, endMs, n - 1);
      if ObservedIn(vs, b.dayStart, b.dayEnd) {
        KnownOnceObserved(vs, b.dayEnd);
      }
    }
  }

  lemma {:induction false} AnchorIsAnchorDay(vs: seq<Value>, points: seq<real>, startMs: int, endMs: int, n: nat)
    ensures var d := AnchorDay(vs, startMs, endMs, n);
            Anchor(vs, points, startMs, endMs, n) == Carry(ValueAt(vs, EndOf(startMs, endMs, d)), ProfitBy(points, d))
  {
    CarryIsLastDay(vs, points, startMs, endMs, n);
    if n > 0 {
      AnchorIsAnchorDay(vs, points, startMs, endMs, n - 1);
    }
  }

  // ---------- Profits between two days ----------

  /** The fills of the days after the first `a` and up to the first `b`. */
  function FillsBetween(fills: seq<RawFill>, startMs: int, endMs: int, a: nat, b: nat): seq<RawFill>
    requires a <= b
  {
    if a == b then []
    else if a == 0 then FillsIn(fills, Reached(startMs, endMs, b))
    else FillsIn(fills, Later(EndOf(startMs, endMs, a), EndOf(startMs, endMs, b)))
  }

  lemma LaterDaysSplit(startMs: int, endMs: int, a: nat, b: nat)
    requires startMs < endMs && 0 < a <= b
    ensures Splits(Reached(startMs, endMs, b), Reached(startMs, endMs, a),
                   Later(EndOf(startMs, endMs, a), EndOf(startMs, endMs, b)))
  {
  }

  /** Closed profit minus fees of the kept fills. */
  function NetKept(fills: seq<RawFill>): real {
    if fills == [] then 0.0
    else
      var init, last := NetKept(fills[..|fills| - 1]), fills[|fills| - 1];
      if Keep(last) then init + (last.closedPnl - last.fee) else init
  }

  lemma {:induction false} NetKeptIsTotals(fills: seq<RawFill>)
    ensures NetKept(fills) == Net(SumKept(fills))
  {
    if fills != [] {
      NetKeptIsTotals(fills[..|fills| - 1]);
    }
  }

  /** The trade chart's profits: of each day, the kept fills that the days up to it reach. */
  ghost predicate ProfitsOf(points: seq<real>, fills: seq<RawFill>, startMs: int, endMs: int) {
    forall i: nat :: i < |points| ==> points[i] == NetKept(FillsIn(fills, Reached(startMs, endMs, i + 1)))
  }

  lemma ReachSplits(fills: seq<RawFill>, startMs: int, endMs: int, a: nat, b: nat)
    requires startMs < endMs && 0 < a < b
    ensures NetKept(FillsIn(fills, Reached(startMs, endMs, b)))
            == NetKept(FillsIn(fills, Reached(startMs, endMs, a))) + NetKept(FillsBetween(fills, startMs, endMs, a, b))
  {
    var whole, first, later := Reached(startMs, endMs, b), Reached(startMs, endMs, a),
                               Later(EndOf(startMs, endMs, a), EndOf(startMs, endMs, b));
    LaterDaysSplit(startMs, endMs, a, b);
    SpansAddUp(fills, first, later, whole);
    NetKeptIsTotals(FillsIn(fills, whole));
    NetKeptIsTotals(FillsIn(fills, first));
    NetKeptIsTotals(FillsIn(fills, later));
  }

  lemma ProfitBetween(points: seq<real>, fills: seq<RawFill>, startMs: int, endMs: int, a: nat, b: nat)
    requires ProfitsOf(points, fills, startMs, endMs) && startMs < endMs && a <= b <= |points|
    ensures ProfitBy(points, b) - ProfitBy(points, a) == NetKept(FillsBetween(fills, startMs, endMs, a, b))
  {
    if 0 < a < b {
      ReachSplits(fills, startMs, endMs, a, b);
    }
  }

  // ---------- The charts of a window ----------

  /**
   The rows account for the way from the first value to the last: the change, the profit made in between, and as
   residual the one minus the other.
   */
  ghost predicate Attributes(rows: seq<AccountRow>, first: Option<real>, last: Option<real>, profit: real) {
    && (first.Some? <==> last.Some?)
    && (last.Some? ==>
          && AccountSum(rows) == last.value - first.value && TradeSum(rows) == profit
          && ResidualSum(rows) == last.value - first.value - profit)
    && (last.None? ==> AccountSum(rows) == 0.0 && TradeSum(rows) == 0.0 && ResidualSum(rows) == 0.0)
  }

  lemma CarriesAttribute(rows: seq<AccountRow>, first: Carry, last: Carry)
    requires Telescopes(rows, first, last)
    ensures Attributes(rows, first.account, last.account, last.trade - first.trade)
  {
  }

  lemma LastDayKnows(vs: seq<Value>, points: seq<real>, startMs: int, endMs: int)
    requires ValuesOrdered(vs) && startMs < endMs
    ensures ValueAt(vs, EndOf(startMs, endMs, LastDay(vs, startMs, endMs, DayCount(startMs, endMs))))
            == ValueAt(vs, endMs)
  {
    CarryIsLastDay(vs, points, startMs, endMs, DayCount(startMs, endMs));
    CarryIsLastValue(vs, points, startMs, endMs, DayCount(startMs, endMs));
    DaysPartitionTheWindow(startMs, endMs, startMs);
  }

  /**
   Over the whole window the rows attribute the change from the anchor to the last observed value with the profit of
   exactly the kept fills in between; the last observed value is the one known at the window's end.
   */
  ghost predicate WindowAttributed(rows: seq<AccountRow>, vs: seq<Value>, fills: seq<RawFill>, startMs: int,
                                   endMs: int) {
    var n := DayCount(startMs, endMs);
    var a, b := AnchorDay(vs, startMs, endMs, n), LastDay(vs, startMs, endMs, n);
    && a <= b
    && Attributes(rows, ValueAt(vs, EndOf(startMs, endMs, a)), ValueAt(vs, endMs),
                  NetKept(FillsBetween(fills, startMs, endMs, a, b)))
  }

  lemma RowsTelescope(vs: seq<Value>, points: seq<real>, startMs: int, endMs: int, n: nat)
    requires ValuesOrdered(vs)
    ensures var a, b := AnchorDay(vs, startMs, endMs, n), LastDay(vs, startMs, endMs, n);
            Attributes(RowsTo(vs, points, startMs, endMs, n), ValueAt(vs, EndOf(startMs, endMs, a)),
                       ValueAt(vs, EndOf(startMs, endMs, b)), ProfitBy(points, b) - ProfitBy(points, a))
  {
    DeltasTelescope(vs, points, startMs, endMs, n);
    CarryIsLastDay(vs, points, startMs, endMs, n);
    AnchorIsAnchorDay(vs, points, startMs, endMs, n);
    CarriesAttribute(RowsTo(vs, points, startMs, endMs, n), Anchor(vs, points, startMs, endMs, n),
                     CarryAt(vs, points, startMs, endMs, n));
  }

  lemma RowsAttribute(vs: seq<Value>, fills: seq<RawFill>, points: seq<real>, startMs: int, endMs: int)
    requires ValuesOrdered(vs) && startMs < endMs && |points| == DayCount(startMs, endMs)
    requires ProfitsOf(points, fills, startMs, endMs)
    ensures WindowAttributed(RowsTo(vs, points, startMs, endMs, DayCount(startMs, endMs)), vs, fills, startMs, endMs)
  {
    var n := DayCount(startMs, endMs);
    DaysInOrder(vs, startMs, endMs, n);
    RowsTelescope(vs, points, startMs, endMs, n);
    LastDayKnows(vs, points, startMs, endMs);
    ProfitBetween(points, fills, startMs, endMs, AnchorDay(vs, startMs, endMs, n), LastDay(vs, startMs, endMs, n));
  }

  method ProfitsOfPoints(points: seq<Point>) returns (profits: seq<real>)
    ensures |profits| == |points| && forall i :: 0 <= i < |points| ==> profits[i] == points[i].pnl
  {
    profits := seq(|points|, i requires 0 <= i < |points| => points[i].pnl);
  }

  /** The trade and account-value charts of `build_charts`, over the same window. */
  method Charts(fills: seq<RawFill>, values: seq<Value>, startMs: int, endMs: int)
    returns (points: seq<Point>, rows: seq<AccountRow>)
    ensures |points| == DayCount(startMs, endMs)
    ensures forall i: nat :: i < |points| ==> Tells(points[i], fills, startMs, endMs, i)
    ensures startMs < endMs ==> WindowAttributed(rows, SortValues(values), fills, startMs, endMs)
    ensures endMs <= startMs ==> rows == []
  {
    points := TradePnlChart(fills, startMs, endMs);
    var profits := ProfitsOfPoints(points);
    rows := DailyAccountValuePoints(values, profits, startMs, endMs);
    if startMs < endMs {
      SortValuesSorts(values);
      TellProfits(points, profits, fills, startMs, endMs);
      RowsAttribute(SortValues(values), fills, profits, startMs, endMs);
    }
  }

  lemma TellProfits(points: seq<Point>, profits: seq<real>, fills: seq<RawFill>, startMs: int, endMs: int)
    requires |profits| == |points| && forall i :: 0 <= i < |points| ==> profits[i] == points[i].pnl
    requires forall i: nat :: i < |points| ==> Tells(points[i], fills, startMs, endMs, i)
    ensures ProfitsOf(profits, fills, startMs, endMs)
  {
    forall i: nat | i < |profits| ensures profits[i] == NetKept(FillsIn(fills, Reached(startMs, endMs, i + 1))) {
      assert Tells(points[i], fills, startMs, endMs, i);
      NetKeptIsTotals(FillsIn(fills, Reached(startMs, endMs, i + 1)));
    }
  }
}
