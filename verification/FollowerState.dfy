/**
 The follower's projected positions while actions are in flight. Fills arrive as cumulative totals per
 action; every accepted observation projects only what is new.
 */
module FollowerState {
  import opened Outcomes

  type Cloid = nat
  type Market = string

  datatype Kind = OrderAction | LeverageAction(target: int)

  datatype Inflight = Inflight(market: Market, original: real, cumulative: real, remaining: real, kind: Kind,
                               state: string)

  datatype Projected = Projected(size: real, leverage: Option<int>)

  datatype Revision = Revision(
    revision: int,
    projected: map<Market, Projected>,
    inflight: map<Cloid, Inflight>,
    leverageBlocks: map<Market, string>)

  function SizeOf(r: Revision, m: Market): real { if m in r.projected then r.projected[m].size else 0.0 }

  function PositionOf(r: Revision, m: Market): Projected {
    if m in r.projected then r.projected[m] else Projected(0.0, None)
  }

  function Abs(x: real): real { if x >= 0.0 then x else -x }

  // The quantity `amount` in the direction of the order.
  function Signed(original: real, amount: real): real { if original >= 0.0 then amount else -amount }

  // ---------- The operations ----------

  function WithInflightAction(r: Revision, c: Cloid, m: Market, qty: real, kind: Kind, state: string): Revision {
    r.(revision := r.revision + 1, inflight := r.inflight[c := Inflight(m, qty, 0.0, qty, kind, state)])
  }

  /** Refused (`None`) for an unknown action, a negative or shrinking total, or one beyond the order size. */
  function ApplyActionObservation(r: Revision, c: Cloid, cumulative: real, state: string,
                                  terminal: bool): Option<Revision> {
    if c !in r.inflight || cumulative < 0.0 then None
    else
      var prior := r.inflight[c];
      if cumulative < prior.cumulative || cumulative > Abs(prior.original) then None
      else
        var increment := Signed(prior.original, cumulative - prior.cumulative);
        var position := PositionOf(r, prior.market);
        var projected := if increment == 0.0 then r.projected
                         else r.projected[prior.market := position.(size := position.size + increment)];
        var inflight := if terminal then r.inflight - {c}
                        else
                          var remaining := Signed(prior.original, Abs(prior.original) - cumulative);
                          r.inflight[c := prior.(cumulative := cumulative, state := state, remaining := remaining)];
        Some(r.(revision := r.revision + 1, projected := projected, inflight := inflight))
  }

  function ApplyLeverageObservation(r: Revision, c: Cloid, accepted: bool, terminal: bool, state: string,
                                    block: Option<string>, clearBlock: bool): Option<Revision>
  {
    if c !in r.inflight || !r.inflight[c].kind.LeverageAction? then None
    else
      var prior := r.inflight[c];
      var m := prior.market;
      Some(Revision(
             r.revision + 1,
             if accepted then r.projected[m := PositionOf(r, m).(leverage := Some(prior.kind.target))] else r.projected,
             if terminal then r.inflight - {c} else r.inflight[c := prior.(state := state)],
             if clearBlock then r.leverageBlocks - {m}
             else if block.Some? then r.leverageBlocks[m := block.value] else r.leverageBlocks))
  }

  function WithoutInflightAction(r: Revision, c: Cloid): Revision {
    r.(revision := r.revision + 1, inflight := r.inflight - {c})
  }

  // ---------- Each operation field by field ----------

  /** The revision after `r`. */
  predicate NextOf(r: Revision, q: Revision) { q.revision == r.revision + 1 }

  /** Only the action `c` changed, or left. */
  ghost predicate OnlyAction(r: Revision, q: Revision, c: Cloid) {
    forall d :: d != c ==>
      (d in q.inflight <==> d in r.inflight) && (d in r.inflight ==> q.inflight[d] == r.inflight[d])
  }

  ghost predicate OnlyMarket(r: Revision, q: Revision, m: Market) {
    forall n :: n != m ==>
      (n in q.projected <==> n in r.projected) && (n in r.projected ==> q.projected[n] == r.projected[n])
  }

  /** A registered action has its whole quantity open and moves nothing yet. */
  ghost predicate RegisteredAs(r: Revision, q: Revision, c: Cloid, m: Market, qty: real, kind: Kind, state: string) {
    && NextOf(r, q) && OnlyAction(r, q, c) && q.projected == r.projected && q.leverageBlocks == r.leverageBlocks
    && c in q.inflight
    && var a := q.inflight[c];
       && a.market == m && a.original == a.remaining == qty && a.cumulative == 0.0 && a.kind == kind && a.state == state
  }

  /** The action after an accepted total: what is open is the rest of the order, in the order's direction. */
  predicate ActionAfter(a: Inflight, b: Inflight, cumulative: real, state: string) {
    && b.market == a.market && b.original == a.original && b.kind == a.kind
    && b.cumulative == cumulative && b.state == state
    && b.remaining == (if a.original >= 0.0 then a.original - cumulative else a.original + cumulative)
  }

  /** The market after an accepted total: a buy order adds what is new in it, a sell order takes it off. */
  ghost predicate MarketAfter(r: Revision, q: Revision, a: Inflight, cumulative: real) {
    var size := if a.market in r.projected then r.projected[a.market].size else 0.0;
    && OnlyMarket(r, q, a.market)
    && if cumulative == a.cumulative then q.projected == r.projected
       else
         && a.market in q.projected
         && q.projected[a.market].size
            == (if a.original >= 0.0 then size + (cumulative - a.cumulative) else size - (cumulative - a.cumulative))
         && q.projected[a.market].leverage == (if a.market in r.projected then r.projected[a.market].leverage else None)
  }

  /** A total is accepted if it neither falls nor exceeds the order. */
  predicate AcceptsTotal(r: Revision, c: Cloid, cumulative: real) {
    && c in r.inflight && 0.0 <= cumulative && r.inflight[c].cumulative <= cumulative
    && (cumulative <= r.inflight[c].original || cumulative <= -r.inflight[c].original)
  }

  ghost predicate ObservedAs(r: Revision, q: Revision, c: Cloid, cumulative: real, state: string, terminal: bool)
    requires c in r.inflight
  {
    && NextOf(r, q) && OnlyAction(r, q, c) && q.leverageBlocks == r.leverageBlocks
    && MarketAfter(r, q, r.inflight[c], cumulative)
    && (terminal ==> c !in q.inflight)
    && (!terminal ==> c in q.inflight && ActionAfter(r.inflight[c], q.inflight[c], cumulative, state))
  }

  /** Only an accepted leverage report sets the target, only a terminal one ends the action. */
  ghost predicate LeveragedAs(r: Revision, q: Revision, c: Cloid, accepted: bool, terminal: bool, state: string,
                              block: Option<string>, clearBlock: bool)
    requires c in r.inflight && r.inflight[c].kind.LeverageAction?
  {
    var a := r.inflight[c];
    && NextOf(r, q) && OnlyAction(r, q, c) && OnlyMarket(r, q, a.market)
    && (if accepted then
          && a.market in q.projected && q.projected[a.market].leverage == Some(a.kind.target)
          && SizeOf(q, a.market) == SizeOf(r, a.market)
        else q.projected == r.projected)
    && (terminal ==> c !in q.inflight)
    && (!terminal ==> c in q.inflight && q.inflight[c] == a.(state := state))
    && (clearBlock ==> q.leverageBlocks == r.leverageBlocks - {a.market})
    && (!clearBlock && block.Some? ==> q.leverageBlocks == r.leverageBlocks[a.market := block.value])
    && (!clearBlock && block.None? ==> q.leverageBlocks == r.leverageBlocks)
  }

  lemma ObservationInWords(r: Revision, c: Cloid, cumulative: real, state: string, terminal: bool)
    ensures var out := ApplyActionObservation(r, c, cumulative, state, terminal);
            && (out.Some? <==> AcceptsTotal(r, c, cumulative))
            && (out.Some? ==> ObservedAs(r, out.value, c, cumulative, state, terminal))
  {
  }

  lemma LeverageInWords(r: Revision, c: Cloid, accepted: bool, terminal: bool, state: string, block: Option<string>,
                        clearBlock: bool)
    ensures var out := ApplyLeverageObservation(r, c, accepted, terminal, state, block, clearBlock);
            && (out.Some? <==> c in r.inflight && r.inflight[c].kind.LeverageAction?)
            && (out.Some? ==> LeveragedAs(r, out.value, c, accepted, terminal, state, block, clearBlock))
  {
  }

  /** Every call has exactly this effect; a refused one has none. */
  ghost predicate CallEffect(r: Revision, q: Revision, op: Op) {
    match op
    case Register(c, m, qty, kind, state) => RegisteredAs(r, q, c, m, qty, kind, state)
    case Observe(c, cumulative, state, terminal) =>
      if AcceptsTotal(r, c, cumulative) then ObservedAs(r, q, c, cumulative, state, terminal) else q == r
    case ObserveLeverage(c, accepted, terminal, state, block, clearBlock) =>
      if c in r.inflight && r.inflight[c].kind.LeverageAction?
      then LeveragedAs(r, q, c, accepted, terminal, state, block, clearBlock) else q == r
    case Drop(c) =>
      && NextOf(r, q) && OnlyAction(r, q, c) && c !in q.inflight
      && q.projected == r.projected && q.leverageBlocks == r.leverageBlocks
  }

  lemma CallInWords(r: Revision, op: Op)
    ensures CallEffect(r, Step(r, op), op)
  {
    match op
    case Observe(c, cumulative, state, terminal) => ObservationInWords(r, c, cumulative, state, terminal);
    case ObserveLeverage(c, accepted, terminal, state, block, clearBlock) =>
      LeverageInWords(r, c, accepted, terminal, state, block, clearBlock);
    case _ =>
  }

  // ---------- Exposure: projected size plus what is still in flight ----------

  ghost function Sum(f: map<Cloid, real>): real
    decreases f.Keys
  {
    if f.Keys == {} then 0.0
    else
      var c :| c in f.Keys;
      f[c] + Sum(f - {c})
  }

  /** Any entry can be counted first. */
  lemma {:induction false} SumSplits(f: map<Cloid, real>, c: Cloid)
    requires c in f
    ensures Sum(f) == f[c] + Sum(f - {c})
    decreases f.Keys
  {
    var d :| d in f.Keys && Sum(f) == f[d] + Sum(f - {d});
    if d != c {
      SumSplits(f - {d}, c);
      SumSplits(f - {c}, d);
      assert f - {d} - {c} == f - {c} - {d};
    }
  }

  lemma SumAfterPut(f: map<Cloid, real>, c: Cloid, x: real)
    ensures Sum(f[c := x]) == Sum(f) + x - if c in f then f[c] else 0.0
  {
    SumSplits(f[c := x], c);
    if c in f {
      SumSplits(f, c);
      assert f[c := x] - {c} == f - {c};
    } else {
      assert f[c := x] - {c} == f;
    }
  }

  /** The remaining quantity of each action in flight, counted for one market. */
  function RemainingIn(inflight: map<Cloid, Inflight>, m: Market): map<Cloid, real> {
    map c | c in inflight :: if inflight[c].market == m then inflight[c].remaining else 0.0
  }

  ghost function Exposure(r: Revision, m: Market): real { SizeOf(r, m) + Sum(RemainingIn(r.inflight, m)) }

  /** Each action in flight has a total within its size, and the rest of it remaining. */
  ghost predicate InflightOk(r: Revision) {
    forall c <- r.inflight ::
      && 0.0 <= r.inflight[c].cumulative <= Abs(r.inflight[c].original)
      && r.inflight[c].remaining == Signed(r.inflight[c].original,
                                           Abs(r.inflight[c].original) - r.inflight[c].cumulative)
  }

  /**
   A non-terminal observation leaves every market's exposure unchanged; a terminal one lowers the action's
   market by exactly the unfilled remainder, and no other.
   */
  lemma ObservationConservesExposure(r: Revision, c: Cloid, cumulative: real, state: string, terminal: bool, m: Market)
    requires InflightOk(r) && ApplyActionObservation(r, c, cumulative, state, terminal).Some?
    ensures var q, a := ApplyActionObservation(r, c, cumulative, state, terminal).value, r.inflight[c];
            Exposure(q, m) == Exposure(r, m)
            - if terminal && m == a.market then Signed(a.original, Abs(a.original) - cumulative) else 0.0
  {
    var q, a := ApplyActionObservation(r, c, cumulative, state, terminal).value, r.inflight[c];
    StepMovesSize(r, Observe(c, cumulative, state, terminal), m);
    if terminal {
      SumSplits(RemainingIn(r.inflight, m), c);
      assert RemainingIn(r.inflight - {c}, m) == RemainingIn(r.inflight, m) - {c};
    } else {
      RemainingAfterPut(r.inflight, c, q.inflight[c], m);
    }
  }

  lemma RemainingAfterPut(inflight: map<Cloid, Inflight>, c: Cloid, a: Inflight, m: Market)
    requires c in inflight && inflight[c].market == a.market
    ensures Sum(RemainingIn(inflight[c := a], m))
            == Sum(RemainingIn(inflight, m)) + if a.market == m then a.remaining - inflight[c].remaining else 0.0
  {
    var rest := RemainingIn(inflight[c := a], m);
    SumAfterPut(RemainingIn(inflight, m), c, rest[c]);
    assert rest == RemainingIn(inflight, m)[c := rest[c]];
  }

  /** Reporting a total in two steps projects the same as reporting it at once; repeating a report adds nothing. */
  lemma SplitReportsAgree(r: Revision, c: Cloid, first: real, total: real, s1: string, s2: string, terminal: bool)
    requires InflightOk(r) && c in r.inflight
    requires r.inflight[c].cumulative <= first <= total <= Abs(r.inflight[c].original)
    ensures ApplyActionObservation(r, c, first, s1, false).Some?
    ensures var half := ApplyActionObservation(r, c, first, s1, false).value;
            var split, whole := ApplyActionObservation(half, c, total, s2, terminal),
                ApplyActionObservation(r, c, total, s2, terminal);
            && split.Some? && whole.Some?
            && (forall m :: SizeOf(split.value, m) == SizeOf(whole.value, m))
            && split.value.inflight == whole.value.inflight
            && (first == total ==> split.value.projected == half.projected)
            && split.value.revision == whole.value.revision + 1
  {
    var half := ApplyActionObservation(r, c, first, s1, false).value;
    var split, whole := ApplyActionObservation(half, c, total, s2, terminal).value,
        ApplyActionObservation(r, c, total, s2, terminal).value;
    var a := r.inflight[c];
    assert half.inflight[c].original == a.original && half.inflight[c].market == a.market;
    if terminal {
      assert half.inflight - {c} == r.inflight - {c};
    } else {
      assert half.inflight[c := split.inflight[c]] == r.inflight[c := whole.inflight[c]];
    }
  }

  // ---------- Runs over actions registered once ----------

  datatype Op =
    | Register(cloid: Cloid, market: Market, qty: real, kind: Kind, state: string)
    | Observe(cloid: Cloid, cumulative: real, state: string, terminal: bool)
    | ObserveLeverage(cloid: Cloid, accepted: bool, terminal: bool, state: string, block: Option<string>,
                      clearBlock: bool)
    | Drop(cloid: Cloid)

  /** The next revision; a refused call raises and publishes none. */
  function Step(r: Revision, op: Op): Revision {
    match op
    case Register(c, m, qty, kind, state) => WithInflightAction(r, c, m, qty, kind, state)
    case Observe(c, cumulative, state, terminal) =>
      var q := ApplyActionObservation(r, c, cumulative, state, terminal); if q.Some? then q.value else r
    case ObserveLeverage(c, accepted, terminal, state, block, clearBlock) =>
      var q := ApplyLeverageObservation(r, c, accepted, terminal, state, block, clearBlock);
      if q.Some? then q.value else r
    case Drop(c) => WithoutInflightAction(r, c)
  }

  function Run(r: Revision, ops: seq<Op>): Revision {
    if ops == [] then r else Step(Run(r, ops[..|ops| - 1]), ops[|ops| - 1])
  }

  /** Every action of the run: those in flight at the start and those registered since. */
  function Actions(r0: Revision, ops: seq<Op>): map<Cloid, Inflight> {
    if ops == [] then r0.inflight
    else
      var before, last := Actions(r0, ops[..|ops| - 1]), ops[|ops| - 1];
      if last.Register? then before[last.cloid := Inflight(last.market, last.qty, 0.0, last.qty, last.kind, last.state)]
      else before
  }

  /** No client id is registered twice, and none that was in flight at the start. */
  ghost predicate FreshCloids(r0: Revision, ops: seq<Op>) {
    forall i :: 0 <= i < |ops| && ops[i].Register? ==> ops[i].cloid !in Actions(r0, ops[..i])
  }

  /** The last call is an accepted observation of action `c`. */
  predicate Reports(r0: Revision, ops: seq<Op>, c: Cloid)
    requires ops != []
  {
    var last := ops[|ops| - 1];
    && last.Observe? && last.cloid == c
    && ApplyActionObservation(Run(r0, ops[..|ops| - 1]), c, last.cumulative, last.state, last.terminal).Some?
  }

  /** The last accepted total of an action; before any, its total at the start (zero if registered later). */
  function FinalFill(r0: Revision, ops: seq<Op>, c: Cloid): real {
    if ops == [] then StartFill(r0, c)
    else if Reports(r0, ops, c) then ops[|ops| - 1].cumulative
    else FinalFill(r0, ops[..|ops| - 1], c)
  }

  function StartFill(r0: Revision, c: Cloid): real { if c in r0.inflight then r0.inflight[c].cumulative else 0.0 }

  /** What an action has filled in one market since the start, signed by its direction. */
  function FilledBy(r0: Revision, ops: seq<Op>, c: Cloid, a: Inflight, m: Market): real {
    if a.market == m then Signed(a.original, FinalFill(r0, ops, c) - StartFill(r0, c)) else 0.0
  }

  function FilledIn(r0: Revision, ops: seq<Op>, m: Market): map<Cloid, real> {
    var actions := Actions(r0, ops);
    map c | c in actions :: FilledBy(r0, ops, c, actions[c], m)
  }

  /** An action in flight mirrors its registration and its last accepted total. */
  ghost predicate Mirrors(r0: Revision, ops: seq<Op>) {
    var inflight, actions := Run(r0, ops).inflight, Actions(r0, ops);
    && InflightOk(Run(r0, ops))
    && forall c <- inflight ::
         && c in actions && actions[c].market == inflight[c].market && actions[c].original == inflight[c].original
         && inflight[c].cumulative == FinalFill(r0, ops, c)
  }

  lemma FreshPrefix(r0: Revision, ops: seq<Op>)
    requires FreshCloids(r0, ops) && ops != []
    ensures FreshCloids(r0, ops[..|ops| - 1])
    ensures ops[|ops| - 1].Register? ==> ops[|ops| - 1].cloid !in Actions(r0, ops[..|ops| - 1])
  {
    var init := ops[..|ops| - 1];
    forall i | 0 <= i < |init| && init[i].Register? ensures init[i].cloid !in Actions(r0, init[..i]) {
      assert init[..i] == ops[..i] && init[i] == ops[i];
    }
  }

  /** Nothing is reported for an action that was never registered. */
  lemma {:induction false} NoFillBeforeRegister(r0: Revision, ops: seq<Op>, c: Cloid)
    requires c !in Actions(r0, ops)
    ensures c !in Run(r0, ops).inflight && c !in r0.inflight && FinalFill(r0, ops, c) == 0.0
  {
    if ops != [] {
      NoFillBeforeRegister(r0, ops[..|ops| - 1], c);
    }
  }

  lemma StepKeepsInflightOk(r: Revision, op: Op)
    requires InflightOk(r)
    ensures InflightOk(Step(r, op))
  {
  }

  lemma {:induction false} RunMirrors(r0: Revision, ops: seq<Op>)
    requires InflightOk(r0) && FreshCloids(r0, ops)
    ensures Mirrors(r0, ops)
  {
    if ops != [] {
      var init, last := ops[..|ops| - 1], ops[|ops| - 1];
      FreshPrefix(r0, ops);
      RunMirrors(r0, init);
      StepKeepsInflightOk(Run(r0, init), last);
      if last.Register? {
        NoFillBeforeRegister(r0, init, last.cloid);
      }
    }
  }

  /** A registration adds an action that has filled nothing. */
  lemma RegisterFillsNothing(r0: Revision, ops: seq<Op>, m: Market)
    requires ops != [] && FreshCloids(r0, ops) && ops[|ops| - 1].Register?
    ensures Sum(FilledIn(r0, ops, m)) == Sum(FilledIn(r0, ops[..|ops| - 1], m))
  {
    var init, c := ops[..|ops| - 1], ops[|ops| - 1].cloid;
    FreshPrefix(r0, ops);
    NoFillBeforeRegister(r0, init, c);
    SumAfterPut(FilledIn(r0, init, m), c, 0.0);
    assert FilledIn(r0, ops, m) == FilledIn(r0, init, m)[c := 0.0];
  }

  /** Only an accepted observation of an action changes what it has filled. */
  lemma FilledByStep(r0: Revision, ops: seq<Op>, c: Cloid, a: Inflight, m: Market)
    requires ops != []
    ensures var init := ops[..|ops| - 1];
            FilledBy(r0, ops, c, a, m) == FilledBy(r0, init, c, a, m)
            + if Reports(r0, ops, c) && a.market == m
              then Signed(a.original, ops[|ops| - 1].cumulative - FinalFill(r0, init, c)) else 0.0
  {
  }

  /** An accepted observation changes the filled quantity of its own action only. */
  lemma ReportFillsIncrement(r0: Revision, ops: seq<Op>, c: Cloid, m: Market)
    requires ops != [] && Reports(r0, ops, c) && c in Actions(r0, ops)
    ensures var init, a := ops[..|ops| - 1], Actions(r0, ops)[c];
            Sum(FilledIn(r0, ops, m)) == Sum(FilledIn(r0, init, m))
            + if a.market == m then Signed(a.original, ops[|ops| - 1].cumulative - FinalFill(r0, init, c)) else 0.0
  {
    var init, actions := ops[..|ops| - 1], Actions(r0, ops);
    assert actions == Actions(r0, init);
    var now, before := FilledIn(r0, ops, m), FilledIn(r0, init, m);
    forall d | d in actions && d != c ensures now[d] == before[d] {
      FilledByStep(r0, ops, d, actions[d], m);
      assert !Reports(r0, ops, d);
    }
    SumAfterPut(before, c, now[c]);
    assert now == before[c := now[c]];
    FilledByStep(r0, ops, c, actions[c], m);
  }

  lemma OtherwiseNothingFilled(r0: Revision, ops: seq<Op>, m: Market)
    requires ops != [] && !ops[|ops| - 1].Register? && !Reports(r0, ops, ops[|ops| - 1].cloid)
    ensures FilledIn(r0, ops, m) == FilledIn(r0, ops[..|ops| - 1], m)
  {
    var actions := Actions(r0, ops);
    forall d | d in actions
      ensures FilledBy(r0, ops, d, actions[d], m) == FilledBy(r0, ops[..|ops| - 1], d, actions[d], m)
    {
      FilledByStep(r0, ops, d, actions[d], m);
    }
  }

  /** Only an accepted observation moves a projected size, and only by what is new in its total. */
  lemma StepMovesSize(r: Revision, op: Op, m: Market)
    ensures SizeOf(Step(r, op), m) == SizeOf(r, m)
            + if op.Observe? && ApplyActionObservation(r, op.cloid, op.cumulative, op.state, op.terminal).Some?
                 && r.inflight[op.cloid].market == m
              then Signed(r.inflight[op.cloid].original, op.cumulative - r.inflight[op.cloid].cumulative) else 0.0
  {
  }

  /**
   Over any run over fresh client ids, the projected size of every market is its initial size plus the signed
   quantity each of its actions has filled since, however the totals were split, repeated or refused.
   */
  lemma {:induction false} ProjectedIsInitialPlusFills(r0: Revision, ops: seq<Op>, m: Market)
    requires InflightOk(r0) && FreshCloids(r0, ops)
    ensures SizeOf(Run(r0, ops), m) == SizeOf(r0, m) + Sum(FilledIn(r0, ops, m))
  {
    if ops == [] {
      NothingFilled(FilledIn(r0, ops, m));
    } else {
      var init, last := ops[..|ops| - 1], ops[|ops| - 1];
      FreshPrefix(r0, ops);
      ProjectedIsInitialPlusFills(r0, init, m);
      RunMirrors(r0, init);
      StepMovesSize(Run(r0, init), last, m);
      if last.Register? {
        RegisterFillsNothing(r0, ops, m);
      } else if Reports(r0, ops, last.cloid) {
        ReportFillsIncrement(r0, ops, last.cloid, m);
      } else {
        OtherwiseNothingFilled(r0, ops, m);
      }
    }
  }

  lemma {:induction false} NothingFilled(f: map<Cloid, real>)
    requires forall c <- f :: f[c] == 0.0
    ensures Sum(f) == 0.0
    decreases f.Keys
  {
    if f.Keys != {} {
      var c :| c in f.Keys;
      SumSplits(f, c);
      NothingFilled(f - {c});
    }
  }

  /** Every published revision is one above the one before. */
  lemma StepAdvancesByOne(r: Revision, op: Op)
    ensures Step(r, op) == r || Step(r, op).revision == r.revision + 1
  {
  }
}
