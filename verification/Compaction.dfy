/**
 Fills of one order at one time are compacted into one trade. Nothing is lost: sizes, notionals, profits, fees
 and counts add up to those of the fills kept.
 */
module Compaction {
  import opened Sorting
  import opened KeyOrder

  datatype RawFill = RawFill(timeMs: int, coin: string, dir: string, side: string, orderId: string, txHash: string,
                             size: real, price: real, closedPnl: real, fee: real)

  datatype GroupKey = GroupKey(timeMs: int, coin: string, orderId: string, txHash: string, dir: string, side: string)

  datatype Totals = Totals(size: real, notional: real, closedPnl: real, fee: real, count: int)
  {
    function Plus(o: Totals): Totals {
      Totals(size + o.size, notional + o.notional, closedPnl + o.closedPnl, fee + o.fee, count + o.count)
    }
  }

  const ZERO := Totals(0.0, 0.0, 0.0, 0.0, 0)

  datatype Trade = Trade(key: GroupKey, totals: Totals, avgPrice: real, netPnl: real)

  predicate Keep(f: RawFill) { f.timeMs > 0 && f.coin != "" }

  function KeyOf(f: RawFill): GroupKey { GroupKey(f.timeMs, f.coin, f.orderId, f.txHash, f.dir, f.side) }

  function Weight(f: RawFill): Totals { Totals(f.size, f.size * f.price, f.closedPnl, f.fee, 1) }

  /** The totals of the kept fills. */
  function SumKept(fills: seq<RawFill>): Totals {
    if fills == [] then ZERO
    else
      var init, last := SumKept(fills[..|fills| - 1]), fills[|fills| - 1];
      if Keep(last) then init.Plus(Weight(last)) else init
  }

  /** The totals of the kept fills of one group. */
  function SumGroup(fills: seq<RawFill>, k: GroupKey): Totals {
    if fills == [] then ZERO
    else
      var init, last := SumGroup(fills[..|fills| - 1], k), fills[|fills| - 1];
      if Keep(last) && KeyOf(last) == k then init.Plus(Weight(last)) else init
  }

  ghost predicate HasGroup(fills: seq<RawFill>, k: GroupKey) { exists f <- fills :: Keep(f) && KeyOf(f) == k }

  function SumTrades(trades: seq<Trade>): Totals {
    if trades == [] then ZERO else trades[0].totals.Plus(SumTrades(trades[1..]))
  }

  function TradeOf(k: GroupKey, t: Totals): Trade {
    Trade(k, t, if t.size != 0.0 then t.notional / t.size else 0.0, t.closedPnl - t.fee)
  }

  // ---------- Sorting by (time, order id, coin) ----------

  function SortKey(t: Trade): Key { [Num(t.key.timeMs), Text(t.key.orderId), Text(t.key.coin)] }

  predicate TradeLe(a: Trade, b: Trade) { KeyLe(SortKey(a), SortKey(b)) }

  ghost predicate SortedTrades(ts: seq<Trade>) { Ordered(ts, TradeLe) }

  ghost predicate TimeOrdered(ts: seq<Trade>) {
    forall i, j :: 0 <= i < j < |ts| ==> ts[i].key.timeMs <= ts[j].key.timeMs
  }

  function SortTrades(ts: seq<Trade>): seq<Trade> { Sort(ts, TradeLe) }

  lemma KeyLeMeansTimeLe(a: Trade, b: Trade)
    requires KeyLe(SortKey(a), SortKey(b))
    ensures a.key.timeMs <= b.key.timeMs
  {
    assert SortKey(a)[0] == Num(a.key.timeMs) && SortKey(b)[0] == Num(b.key.timeMs);
  }

  lemma PlusIsCommutative(a: Totals, b: Totals, c: Totals)
    ensures a.Plus(b.Plus(c)) == b.Plus(a.Plus(c)) && a.Plus(b) == b.Plus(a)
  {
  }

  lemma {:induction false} InsertAddsTotals(t: Trade, ts: seq<Trade>)
    ensures SumTrades(Insert(t, ts, TradeLe)) == t.totals.Plus(SumTrades(ts))
  {
    if ts == [] || TradeLe(t, ts[0]) {
      assert ([t] + ts)[1..] == ts;
    } else {
      InsertAddsTotals(t, ts[1..]);
      var rest := Insert(t, ts[1..], TradeLe);
      assert ([ts[0]] + rest)[1..] == rest;
      PlusIsCommutative(ts[0].totals, t.totals, SumTrades(ts[1..]));
    }
  }

  lemma {:induction false} SortKeepsTotals(ts: seq<Trade>)
    ensures SumTrades(SortTrades(ts)) == SumTrades(ts)
  {
    if ts != [] {
      SortKeepsTotals(ts[1..]);
      InsertAddsTotals(ts[0], SortTrades(ts[1..]));
    }
  }

  lemma SortTradesSorts(ts: seq<Trade>)
    ensures SortedTrades(SortTrades(ts)) && multiset(SortTrades(ts)) == multiset(ts)
    ensures SumTrades(SortTrades(ts)) == SumTrades(ts)
    ensures TimeOrdered(SortTrades(ts))
    ensures forall x :: x in SortTrades(ts) <==> x in ts
  {
    KeysAreTotallyOrdered();
    SortOrders(ts, TradeLe);
    SortMembers(ts, TradeLe);
    SortKeepsTotals(ts);
    var s := SortTrades(ts);
    forall i, j | 0 <= i < j < |s| ensures s[i].key.timeMs <= s[j].key.timeMs {
      assert TradeLe(s[i], s[j]);
      KeyLeMeansTimeLe(s[i], s[j]);
    }
  }

  // ---------- Compaction ----------

  /** One trade per group that has a kept fill, carrying exactly that group's totals. */
  ghost predicate Compacts(trades: seq<Trade>, fills: seq<RawFill>) {
    && (forall i, j :: 0 <= i < j < |trades| ==> trades[i].key != trades[j].key)
    && (forall t <- trades :: HasGroup(fills, t.key) && t == TradeOf(t.key, SumGroup(fills, t.key)))
    && (forall f <- fills :: Keep(f) ==> exists t <- trades :: t.key == KeyOf(f))
  }

  ghost predicate Listed(order: seq<GroupKey>, grouped: map<GroupKey, Totals>, fills: seq<RawFill>) {
    && (forall i, j :: 0 <= i < j < |order| ==> order[i] != order[j])
    && (forall k :: k in order <==> k in grouped)
    && (forall k :: k in grouped <==> HasGroup(fills, k))
  }

  ghost predicate Summed(order: seq<GroupKey>, grouped: map<GroupKey, Totals>, fills: seq<RawFill>) {
    && (forall k <- grouped :: grouped[k] == SumGroup(fills, k))
    && SumOver(order, grouped) == SumKept(fills)
  }

  /** The groups in first-seen order, with their running totals. */
  ghost predicate Grouped(order: seq<GroupKey>, grouped: map<GroupKey, Totals>, fills: seq<RawFill>) {
    Listed(order, grouped, fills) && Summed(order, grouped, fills)
  }

  function SumOver(order: seq<GroupKey>, grouped: map<GroupKey, Totals>): Totals {
    if order == [] then ZERO
    else SumOver(order[..|order| - 1], grouped).Plus(
           if order[|order| - 1] in grouped then grouped[order[|order| - 1]] else ZERO)
  }

  lemma {:induction false} SumOverElsewhere(order: seq<GroupKey>, grouped: map<GroupKey, Totals>, k: GroupKey,
                                            t: Totals)
    requires k !in order
    ensures SumOver(order, grouped[k := t]) == SumOver(order, grouped)
  {
    if order != [] {
      SumOverElsewhere(order[..|order| - 1], grouped, k, t);
    }
  }

  lemma {:induction false} SumOverAdds(order: seq<GroupKey>, grouped: map<GroupKey, Totals>, k: GroupKey, w: Totals)
    requires k in order && k in grouped && forall i, j :: 0 <= i < j < |order| ==> order[i] != order[j]
    ensures SumOver(order, grouped[k := grouped[k].Plus(w)]) == SumOver(order, grouped).Plus(w)
  {
    var n := |order| - 1;
    if order[n] == k {
      SumOverElsewhere(order[..n], grouped, k, grouped[k].Plus(w));
    } else {
      assert order == order[..n] + [order[n]];
      SumOverAdds(order[..n], grouped, k, w);
    }
  }

  lemma {:induction false} NoGroupNoTotal(fills: seq<RawFill>, k: GroupKey)
    requires !HasGroup(fills, k)
    ensures SumGroup(fills, k) == ZERO
  {
    if fills != [] {
      assert fills[|fills| - 1] in fills;
      NoGroupNoTotal(fills[..|fills| - 1], k);
    }
  }

  /** One more kept fill adds its weight to its own group and to the total, and to nothing else. */
  lemma OneMoreFill(fills: seq<RawFill>, f: RawFill, g: GroupKey)
    requires Keep(f)
    ensures HasGroup(fills + [f], g) <==> HasGroup(fills, g) || g == KeyOf(f)
    ensures SumGroup(fills + [f], g) == if g == KeyOf(f) then SumGroup(fills, g).Plus(Weight(f)) else SumGroup(fills, g)
    ensures SumKept(fills + [f]) == SumKept(fills).Plus(Weight(f))
  {
    var more := fills + [f];
    assert more[..|more| - 1] == fills;
    assert f in more && forall x <- fills :: x in more;
  }

  lemma OldGroupStep(order: seq<GroupKey>, grouped: map<GroupKey, Totals>, fills: seq<RawFill>, f: RawFill)
    requires Grouped(order, grouped, fills) && Keep(f) && KeyOf(f) in grouped
    ensures Grouped(order, grouped[KeyOf(f) := grouped[KeyOf(f)].Plus(Weight(f))], fills + [f])
  {
    forall g ensures HasGroup(fills + [f], g) <==> HasGroup(fills, g) || g == KeyOf(f) {
      OneMoreFill(fills, f, g);
    }
    forall g | g in grouped && g != KeyOf(f) ensures SumGroup(fills + [f], g) == grouped[g] {
      OneMoreFill(fills, f, g);
    }
    OneMoreFill(fills, f, KeyOf(f));
    SumOverAdds(order, grouped, KeyOf(f), Weight(f));
  }

  lemma NewGroupStep(order: seq<GroupKey>, grouped: map<GroupKey, Totals>, fills: seq<RawFill>, f: RawFill)
    requires Grouped(order, grouped, fills) && Keep(f) && KeyOf(f) !in grouped
    ensures Grouped(order + [KeyOf(f)], grouped[KeyOf(f) := ZERO.Plus(Weight(f))], fills + [f])
  {
    NewGroupListed(order, grouped, fills, f);
    NewGroupSummed(order, grouped, fills, f);
  }

  lemma NewGroupListed(order: seq<GroupKey>, grouped: map<GroupKey, Totals>, fills: seq<RawFill>, f: RawFill)
    requires Listed(order, grouped, fills) && Keep(f) && KeyOf(f) !in grouped
    ensures Listed(order + [KeyOf(f)], grouped[KeyOf(f) := ZERO.Plus(Weight(f))], fills + [f])
  {
    forall g ensures HasGroup(fills + [f], g) <==> HasGroup(fills, g) || g == KeyOf(f) {
      OneMoreFill(fills, f, g);
    }
  }

  lemma NewGroupSummed(order: seq<GroupKey>, grouped: map<GroupKey, Totals>, fills: seq<RawFill>, f: RawFill)
    requires Grouped(order, grouped, fills) && Keep(f) && KeyOf(f) !in grouped
    ensures Summed(order + [KeyOf(f)], grouped[KeyOf(f) := ZERO.Plus(Weight(f))], fills + [f])
  {
    forall g | g in grouped ensures SumGroup(fills + [f], g) == grouped[g] {
      OneMoreFill(fills, f, g);
    }
    OneMoreFill(fills, f, KeyOf(f));
    NoGroupNoTotal(fills, KeyOf(f));
    SumOverNew(order, grouped, KeyOf(f), ZERO.Plus(Weight(f)));
  }

  lemma SumOverNew(order: seq<GroupKey>, grouped: map<GroupKey, Totals>, k: GroupKey, t: Totals)
    requires k !in order
    ensures SumOver(order + [k], grouped[k := t]) == SumOver(order, grouped).Plus(t)
  {
    SumOverElsewhere(order, grouped, k, t);
    assert (order + [k])[..|order|] == order;
  }

  method GroupFills(fills: seq<RawFill>) returns (order: seq<GroupKey>, grouped: map<GroupKey, Totals>)
    ensures Grouped(order, grouped, fills)
  {
    order, grouped := [], map[];
    var i := 0;
    while i < |fills|
      invariant 0 <= i <= |fills|
      invariant Grouped(order, grouped, fills[..i])
    {
      assert fills[..i + 1] == fills[..i] + [fills[i]];
      var f := fills[i];
      if Keep(f) {
        var k := KeyOf(f);
        if k in grouped {
          OldGroupStep(order, grouped, fills[..i], f);
          grouped := grouped[k := grouped[k].Plus(Weight(f))];
        } else {
          NewGroupStep(order, grouped, fills[..i], f);
          order := order + [k];
          grouped := grouped[k := ZERO.Plus(Weight(f))];
        }
      } else {
        SkippedStep(order, grouped, fills[..i], f);
      }
      i := i + 1;
    }
    assert fills[..i] == fills;
  }

  // ---------- What compaction does, field by field ----------

  /** A fill with a time and a coin; any other is dropped. */
  predicate Counts(f: RawFill) { f.timeMs > 0 && f.coin != [] }

  /** The two fills are parts of one order at one time: they agree in all six fields that name it. */
  predicate OneOrder(f: RawFill, g: RawFill) {
    && f.timeMs == g.timeMs && f.coin == g.coin && f.orderId == g.orderId && f.txHash == g.txHash
    && f.dir == g.dir && f.side == g.side
  }

  /** The trade names the fill's order. */
  predicate Holds(t: Trade, f: RawFill) {
    && t.key.timeMs == f.timeMs && t.key.coin == f.coin && t.key.orderId == f.orderId && t.key.txHash == f.txHash
    && t.key.dir == f.dir && t.key.side == f.side
  }

  /** The totals of the fills that count and that the trade holds. */
  function HeldTotals(t: Trade, fills: seq<RawFill>): Totals {
    if fills == [] then Totals(0.0, 0.0, 0.0, 0.0, 0)
    else
      var sum, f := HeldTotals(t, fills[..|fills| - 1]), fills[|fills| - 1];
      if Counts(f) && Holds(t, f)
      then Totals(sum.size + f.size, sum.notional + f.size * f.price, sum.closedPnl + f.closedPnl, sum.fee + f.fee,
                  sum.count + 1)
      else sum
  }

  /** A trade stands for the fills it holds, with their totals, average price and net profit. */
  ghost predicate StandsFor(t: Trade, fills: seq<RawFill>) {
    && (exists f <- fills :: Counts(f) && Holds(t, f))
    && t.totals == HeldTotals(t, fills)
    && (if t.totals.size == 0.0 then t.avgPrice == 0.0 else t.avgPrice * t.totals.size == t.totals.notional)
    && t.netPnl == t.totals.closedPnl - t.totals.fee
  }

  /** `a` is listed no later than `b`: by time, then order id, then coin. */
  ghost predicate ListedNoLater(a: Trade, b: Trade) {
    || a.key.timeMs < b.key.timeMs
    || (a.key.timeMs == b.key.timeMs
        && (TextBefore(a.key.orderId, b.key.orderId)
            || (a.key.orderId == b.key.orderId && !TextBefore(b.key.coin, a.key.coin))))
  }

  /** One trade for each order that counts, listed in order. */
  ghost predicate TradesOf(trades: seq<Trade>, fills: seq<RawFill>) {
    && (forall t <- trades :: StandsFor(t, fills))
    && (forall f <- fills :: Counts(f) ==> exists i :: 0 <= i < |trades| && Holds(trades[i], f))
    && (forall f <- fills, i, j ::
          0 <= i < |trades| && 0 <= j < |trades| && Holds(trades[i], f) && Holds(trades[j], f) ==> i == j)
    && (forall i, j :: 0 <= i < j < |trades| ==> ListedNoLater(trades[i], trades[j]))
  }

  lemma KeyNamesOrder(t: Trade, f: RawFill, g: RawFill)
    ensures t.key == KeyOf(f) <==> Holds(t, f)
    ensures KeyOf(f) == KeyOf(g) <==> OneOrder(f, g)
    ensures Keep(f) <==> Counts(f)
  {
  }

  lemma {:induction false} GroupIsHeld(t: Trade, fills: seq<RawFill>)
    ensures SumGroup(fills, t.key) == HeldTotals(t, fills)
  {
    if fills != [] {
      GroupIsHeld(t, fills[..|fills| - 1]);
      KeyNamesOrder(t, fills[|fills| - 1], fills[|fills| - 1]);
    }
  }

  lemma CompactedStandsFor(t: Trade, fills: seq<RawFill>)
    requires HasGroup(fills, t.key) && t == TradeOf(t.key, SumGroup(fills, t.key))
    ensures StandsFor(t, fills)
  {
    GroupIsHeld(t, fills);
    var f :| f in fills && Keep(f) && KeyOf(f) == t.key;
    KeyNamesOrder(t, f, f);
    if t.totals.size != 0.0 {
      AveragePrice(t.key, t.totals);
    }
  }

  lemma KeysListOrder(a: Trade, b: Trade)
    requires TradeLe(a, b)
    ensures ListedNoLater(a, b)
  {
    var k, l := SortKey(a), SortKey(b);
    NothingLeftDecides(l, k);
    TextsDecide(l, k, 2, b.key.coin, a.key.coin);
    TextsDecide(l, k, 1, b.key.orderId, a.key.orderId);
    NumbersDecide(l, k, 0, b.key.timeMs, a.key.timeMs);
    assert k[0..] == k && l[0..] == l;
    KeyIsOrdered(k, l);
    ComparesAsText(a.key.orderId, b.key.orderId);
    ComparesAsText(b.key.orderId, a.key.orderId);
    TextIsOrdered(a.key.orderId, b.key.orderId);
  }

  lemma CompactedTrades(trades: seq<Trade>, fills: seq<RawFill>)
    requires Compacts(trades, fills) && SortedTrades(trades)
    ensures TradesOf(trades, fills)
    ensures forall f <- fills, g <- fills :: Counts(f) && Counts(g) ==>
              (OneOrder(f, g) <==> exists t <- trades :: Holds(t, f) && Holds(t, g))
  {
    forall t | t in trades ensures StandsFor(t, fills) {
      CompactedStandsFor(t, fills);
    }
    forall f, i | f in fills && 0 <= i < |trades| ensures Holds(trades[i], f) <==> trades[i].key == KeyOf(f) {
      KeyNamesOrder(trades[i], f, f);
    }
    forall f | f in fills && Counts(f) ensures exists i :: 0 <= i < |trades| && Holds(trades[i], f) {
      var t :| t in trades && t.key == KeyOf(f);
      var i :| 0 <= i < |trades| && trades[i] == t;
      KeyNamesOrder(t, f, f);
    }
    forall i, j | 0 <= i < j < |trades| ensures ListedNoLater(trades[i], trades[j]) {
      KeysListOrder(trades[i], trades[j]);
    }
  }

  /** `compact_fills`: groups in one pass, then orders the trades by time, order id and coin. */
  method CompactFills(fills: seq<RawFill>) returns (trades: seq<Trade>)
    ensures Compacts(trades, fills) && SortedTrades(trades) && TimeOrdered(trades)
    ensures SumTrades(trades) == SumKept(fills)
    ensures TradesOf(trades, fills)
    ensures forall f <- fills, g <- fills :: Counts(f) && Counts(g) ==>
              (OneOrder(f, g) <==> exists t <- trades :: Holds(t, f) && Holds(t, g))
  {
    var order, grouped := GroupFills(fills);
    var unsorted := ListTrades(order, grouped);
    SortTradesSorts(unsorted);
    trades := SortTrades(unsorted);
    DistinctSurvivesSort(unsorted, trades);
    ListMembers(order, grouped, unsorted);
    GroupedCompacts(order, grouped, fills, trades);
    CompactedTrades(trades, fills);
  }

  lemma ListMembers(order: seq<GroupKey>, grouped: map<GroupKey, Totals>, ts: seq<Trade>)
    requires forall k <- order :: k in grouped
    requires |ts| == |order| && forall i :: 0 <= i < |order| ==> ts[i] == TradeOf(order[i], grouped[order[i]])
    ensures forall t :: t in ts <==> t.key in order && t.key in grouped && t == TradeOf(t.key, grouped[t.key])
  {
    forall t: Trade | t.key in order && t == TradeOf(t.key, grouped[t.key]) ensures t in ts {
      var i :| 0 <= i < |order| && order[i] == t.key;
      assert ts[i] == t;
    }
  }

  lemma SkippedStep(order: seq<GroupKey>, grouped: map<GroupKey, Totals>, fills: seq<RawFill>, f: RawFill)
    requires Grouped(order, grouped, fills) && !Keep(f)
    ensures Grouped(order, grouped, fills + [f])
  {
    var more := fills + [f];
    assert more[..|more| - 1] == fills;
    forall g ensures HasGroup(more, g) <==> HasGroup(fills, g) {
      if x :| x in fills && Keep(x) && KeyOf(x) == g {
        assert x in more;
      }
    }
  }

  method ListTrades(order: seq<GroupKey>, grouped: map<GroupKey, Totals>) returns (trades: seq<Trade>)
    requires forall k <- order :: k in grouped
    ensures |trades| == |order| && forall i :: 0 <= i < |order| ==> trades[i] == TradeOf(order[i], grouped[order[i]])
    ensures SumTrades(trades) == SumOver(order, grouped)
  {
    trades := [];
    var i := 0;
    while i < |order|
      invariant 0 <= i <= |order| && |trades| == i
      invariant forall k :: 0 <= k < i ==> trades[k] == TradeOf(order[k], grouped[order[k]])
      invariant SumTrades(trades) == SumOver(order[..i], grouped)
    {
      assert order[..i + 1][..|order[..i + 1]| - 1] == order[..i];
      var t := TradeOf(order[i], grouped[order[i]]);
      SumTradesAppend(trades, t);
      trades := trades + [t];
      i := i + 1;
    }
    assert order[..i] == order;
  }

  lemma {:induction false} SumTradesAppend(ts: seq<Trade>, t: Trade)
    ensures SumTrades(ts + [t]) == SumTrades(ts).Plus(t.totals)
  {
    if ts == [] {
      assert ts + [t] == [t] && [t][1..] == [];
    } else {
      assert (ts + [t])[1..] == ts[1..] + [t];
      SumTradesAppend(ts[1..], t);
    }
  }

  lemma DistinctSurvivesSort(a: seq<Trade>, b: seq<Trade>)
    requires multiset(a) == multiset(b)
    requires forall i, j :: 0 <= i < j < |a| ==> a[i].key != a[j].key
    ensures forall i, j :: 0 <= i < j < |b| ==> b[i].key != b[j].key
  {
    forall i, j | 0 <= i < j < |b| ensures b[i].key != b[j].key {
      if b[i] == b[j] {
        assert b == b[..i] + [b[i]] + b[i + 1..j] + [b[j]] + b[j + 1..];
        assert multiset(b)[b[i]] >= 2;
        OnlyOnce(a, b[i]);
      } else {
        assert b[i] in multiset(a) && b[j] in multiset(a);
        var x :| 0 <= x < |a| && a[x] == b[i];
        var y :| 0 <= y < |a| && a[y] == b[j];
        assert x != y;
      }
    }
  }

  lemma {:induction false} OnlyOnce(a: seq<Trade>, t: Trade)
    requires forall i, j :: 0 <= i < j < |a| ==> a[i].key != a[j].key
    ensures multiset(a)[t] <= 1
  {
    if a != [] {
      OnlyOnce(a[1..], t);
      assert a == [a[0]] + a[1..];
      assert forall i :: 1 <= i < |a| ==> a[0].key != a[i].key;
      assert a[0] !in a[1..];
    }
  }

  lemma GroupedCompacts(order: seq<GroupKey>, grouped: map<GroupKey, Totals>, fills: seq<RawFill>, trades: seq<Trade>)
    requires Grouped(order, grouped, fills)
    requires forall i, j :: 0 <= i < j < |trades| ==> trades[i].key != trades[j].key
    requires forall t :: t in trades <==> t.key in order && t.key in grouped && t == TradeOf(t.key, grouped[t.key])
    ensures Compacts(trades, fills)
  {
    forall f | f in fills && Keep(f) ensures exists t <- trades :: t.key == KeyOf(f) {
      assert HasGroup(fills, KeyOf(f));
      assert TradeOf(KeyOf(f), grouped[KeyOf(f)]) in trades;
    }
  }

  /** Where the size is not zero, average price times size is the notional. */
  lemma AveragePrice(k: GroupKey, t: Totals)
    requires t.size != 0.0
    ensures TradeOf(k, t).avgPrice * t.size == t.notional
  {
  }
}
