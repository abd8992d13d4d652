/**
 Live fills carry the position they started from. A frame's fills are checked as one chain against the
 current positions before anything is committed.
 */
module FillChain {
  import opened Outcomes
  import opened FillDedupe

  // A canonical market and the DEX it belongs to (empty for the default perp DEX).
  datatype Market = Market(dex: string, asset: string)

  datatype Position = Position(size: real, entryPx: Option<real>, leverage: Option<int>, updatedMs: int)

  type Positions = map<Market, Position>

  datatype Fill = Fill(
    account: string, market: Market, txHash: string, tid: string, timeMs: int, buy: bool, size: real, price: real,
    start: Option<real>, oid: Option<int>, receivedMs: int, epoch: nat, isSnapshot: bool)
  {
    function Identity(): FillId { FillId(account, txHash, tid) }

    function SignedSize(): real { if buy then size else -size }

    function Print(): Fingerprint { Fingerprint(market, timeMs, buy, size, price, start, oid) }

    function End(): real
      requires start.Some?
    {
      start.value + SignedSize()
    }
  }

  datatype Fingerprint = Fingerprint(market: Market, timeMs: int, buy: bool, size: real, price: real,
                                     start: Option<real>, oid: Option<int>)

  datatype ChainError = MissingStart | StartMismatch

  function SizeOf(ps: Positions, m: Market): real { if m in ps then ps[m].size else 0.0 }

  function Advanced(ps: Positions, f: Fill): Positions
    requires f.start.Some?
  {
    var prior := if f.market in ps then Some(ps[f.market]) else None;
    ps[f.market := Position(
         f.End(),
         if prior.Some? then prior.value.entryPx else Some(f.price),
         if prior.Some? then prior.value.leverage else None,
         f.timeMs)]
  }

  /** The current size already includes the fill. */
  predicate Reflected(ps: Positions, f: Fill)
    requires f.start.Some?
  {
    SizeOf(ps, f.market) == f.End()
  }

  function ChainStep(ps: Positions, f: Fill): Result<Positions, ChainError> {
    if f.start.None? then Err(MissingStart)
    else if Reflected(ps, f) then Ok(ps)
    else if SizeOf(ps, f.market) != f.start.value then Err(StartMismatch)
    else Ok(Advanced(ps, f))
  }

  function Chain(ps: Positions, fills: seq<Fill>): Result<Positions, ChainError>
    decreases fills
  {
    if fills == [] then Ok(ps)
    else
      var next := ChainStep(ps, fills[0]);
      if next.Err? then next else Chain(next.value, fills[1..])
  }

  /** `_validated_fill_positions`: works on a copy, so a bad row leaves the account as it was. */
  method ValidatedFillPositions(ps: Positions, fills: seq<Fill>) returns (r: Result<Positions, ChainError>)
    ensures r == Chain(ps, fills)
  {
    var next := ps;
    var i := 0;
    assert fills[0..] == fills;
    while i < |fills|
      invariant 0 <= i <= |fills|
      invariant Chain(ps, fills) == Chain(next, fills[i..])
    {
      var f := fills[i];
      assert fills[i..][1..] == fills[i + 1..];
      if f.start.None? {
        return Err(MissingStart);
      }
      var endPosition := f.start.value + f.SignedSize();
      var current := if f.market in next then next[f.market].size else 0.0;
      if current != endPosition {
        if current != f.start.value {
          return Err(StartMismatch);
        }
        next := Advanced(next, f);
      }
      i := i + 1;
    }
    r := Ok(next);
  }

  /** The signed sizes, in one market, of the fills that were not already reflected when their turn came. */
  function AppliedSum(ps: Positions, fills: seq<Fill>, m: Market): real
    requires Chain(ps, fills).Ok?
    decreases fills
  {
    if fills == [] then 0.0
    else
      var f := fills[0];
      (if f.market == m && !Reflected(ps, f) then f.SignedSize() else 0.0)
      + AppliedSum(ChainStep(ps, f).value, fills[1..], m)
  }

  /** Where a fill leaves its market: a buy above its start by its size, a sell below. */
  predicate StandsAfter(size: real, f: Fill) {
    f.start.Some? && size == if f.buy then f.start.value + f.size else f.start.value - f.size
  }

  /** The sizes of the buys (or sells) of one market that the position did not stand after already when they came. */
  function Taken(ps: Positions, fills: seq<Fill>, m: Market, buys: bool): real
    requires Chain(ps, fills).Ok?
    decreases fills
  {
    if fills == [] then 0.0
    else
      var f := fills[0];
      (if f.market == m && f.buy == buys && !StandsAfter(SizeOf(ps, m), f) then f.size else 0.0)
      + Taken(ChainStep(ps, f).value, fills[1..], m, buys)
  }

  /** The last fill of the frame in market `m`. */
  function LastIn(fills: seq<Fill>, m: Market): Option<Fill> {
    if fills == [] then None
    else
      var later := LastIn(fills[1..], m);
      if later.Some? then later else if fills[0].market == m then Some(fills[0]) else None
  }

  /**
   One fill, in plain numbers: refused without a start, or when the market stands neither at its start nor after it;
   ignored when the market stands after it; else it moves the market there, keeping entry price and leverage.
   */
  lemma FillMoves(ps: Positions, f: Fill)
    ensures var size := if f.market in ps then ps[f.market].size else 0.0;
            && (f.start.None? ==> ChainStep(ps, f) == Err(MissingStart))
            && (f.start.Some? && StandsAfter(size, f) ==> ChainStep(ps, f) == Ok(ps))
            && (f.start.Some? && !StandsAfter(size, f) && size != f.start.value ==>
                  ChainStep(ps, f) == Err(StartMismatch))
            && (f.start.Some? && !StandsAfter(size, f) && size == f.start.value ==>
                  && ChainStep(ps, f).Ok?
                  && var q := ChainStep(ps, f).value;
                  && (forall m :: m != f.market ==> (m in q <==> m in ps) && (m in ps ==> q[m] == ps[m]))
                  && f.market in q && StandsAfter(q[f.market].size, f) && q[f.market].updatedMs == f.timeMs
                  && q[f.market].size == (if f.buy then size + f.size else size - f.size)
                  && (f.market in ps ==> q[f.market].entryPx == ps[f.market].entryPx
                                         && q[f.market].leverage == ps[f.market].leverage)
                  && (f.market !in ps ==> q[f.market].entryPx == Some(f.price) && q[f.market].leverage == None))
  {
  }

  /**
   An accepted frame leaves each touched market at start plus signed size of its last fill, leaves the
   other markets exactly as they were, and moves each market by the sum of what was not yet reflected.
   */
  lemma {:induction false} ChainMeaning(ps: Positions, fills: seq<Fill>, m: Market)
    requires Chain(ps, fills).Ok?
    ensures var q, last := Chain(ps, fills).value, LastIn(fills, m);
            && (last.Some? ==> last.value in fills && last.value.market == m && last.value.start.Some?
                               && SizeOf(q, m) == last.value.End())
            && (last.None? ==> (m in q <==> m in ps) && (m in ps ==> q[m] == ps[m]))
            && (last.Some? ==> StandsAfter(SizeOf(q, m), last.value))
            && SizeOf(q, m) - SizeOf(ps, m) == AppliedSum(ps, fills, m)
               == Taken(ps, fills, m, true) - Taken(ps, fills, m, false)
    decreases fills
  {
    if fills != [] {
      FillMoves(ps, fills[0]);
      ChainMeaning(ChainStep(ps, fills[0]).value, fills[1..], m);
    }
  }

  lemma {:induction false} LastInIsNone(fills: seq<Fill>, m: Market)
    ensures LastIn(fills, m).None? <==> forall f <- fills :: f.market != m
  {
    if fills != [] {
      LastInIsNone(fills[1..], m);
      assert fills == [fills[0]] + fills[1..];
    }
  }

  /** Fills that follow on from each other and from the current position. */
  ghost predicate Continuous(fills: seq<Fill>, m: Market, at: real) {
    fills == [] ||
    var f := fills[0];
    if f.market != m then Continuous(fills[1..], m, at)
    else f.start == Some(at) && Continuous(fills[1..], m, f.End())
  }

  /** A frame that continues every market from its current size is accepted, and moves it by all its fills. */
  lemma {:induction false} ContinuousIsAccepted(ps: Positions, fills: seq<Fill>)
    requires forall f <- fills :: f.size > 0.0
    requires forall m :: Continuous(fills, m, SizeOf(ps, m))
    ensures Chain(ps, fills).Ok?
    ensures forall m :: AppliedSum(ps, fills, m) == SumIn(fills, m)
    decreases fills
  {
    if fills != [] {
      var f := fills[0];
      assert Continuous(fills, f.market, SizeOf(ps, f.market));
      var q := ChainStep(ps, f).value;
      forall m
        ensures Continuous(fills[1..], m, SizeOf(q, m))
      {
        assert Continuous(fills, m, SizeOf(ps, m));
      }
      ContinuousIsAccepted(q, fills[1..]);
    }
  }

  function SumIn(fills: seq<Fill>, m: Market): real {
    if fills == [] then 0.0
    else (if fills[0].market == m then fills[0].SignedSize() else 0.0) + SumIn(fills[1..], m)
  }
}
