/**
 Shadow sizing of copy policies over scorecard rows: targets below the minimum notional collect as dust until a
 bucket reaches the minimum. No sized notional is ever lost, and a recovery blocks all further sizing.
 */
module ShadowSizing {
  import opened Outcomes

  // ---------- Dust ----------

  datatype BucketKey = BucketKey(coin: string, side: string, reduceOnly: bool)

  datatype Dust = Dust(pending: real, accumulatedEvents: nat, executedEvents: nat, totalAccumulated: real,
                       totalExecuted: real)

  const EMPTY_DUST := Dust(0.0, 0, 0, 0.0, 0.0)

  /** The bucket after adding `amount`: it empties when it reaches the minimum. */
  function Added(d: Dust, amount: real, minNotional: real): Dust {
    var pending := d.pending + amount;
    var grown := d.(pending := pending, totalAccumulated := d.totalAccumulated + amount,
                    accumulatedEvents := d.accumulatedEvents + 1);
    if pending >= minNotional
    then grown.(pending := 0.0, totalExecuted := d.totalExecuted + pending, executedEvents := d.executedEvents + 1)
    else grown
  }

  function Released(d: Dust, amount: real, minNotional: real): real {
    if d.pending + amount >= minNotional then d.pending + amount else 0.0
  }

  predicate DustOk(d: Dust, minNotional: real) {
    0.0 <= d.pending < minNotional && d.totalAccumulated == d.pending + d.totalExecuted
  }

  /**
   A bucket stays below the minimum, splits what it collected into pending and executed, and releases within
   [min, 2 min).
   */
  lemma AddKeepsDust(d: Dust, amount: real, minNotional: real)
    requires DustOk(d, minNotional) && 0.0 < amount < minNotional
    ensures DustOk(Added(d, amount, minNotional), minNotional)
    ensures d.pending + amount == Added(d, amount, minNotional).pending + Released(d, amount, minNotional)
    ensures var r := Released(d, amount, minNotional); r == 0.0 || minNotional <= r < 2.0 * minNotional
    ensures Released(d, amount, minNotional) > 0.0 <==>
            Added(d, amount, minNotional).executedEvents == d.executedEvents + 1
  {
  }

  class DustBucket {
    const key: BucketKey
    var value: Dust

    constructor (key: BucketKey)
      ensures this.key == key && value == EMPTY_DUST
    {
      this.key := key;
      value := EMPTY_DUST;
    }

    method Add(amount: real, minNotional: real) returns (sent: bool, before: real, after: real, executed: real)
      modifies this
      ensures value == Added(old(value), amount, minNotional)
      ensures executed == Released(old(value), amount, minNotional)
      ensures before == old(value).pending && after == value.pending
      ensures sent <==> old(value).pending + amount >= minNotional
    {
      before := value.pending;
      value := value.(pending := value.pending + amount, totalAccumulated := value.totalAccumulated + amount,
                      accumulatedEvents := value.accumulatedEvents + 1);
      if value.pending >= minNotional {
        executed := value.pending;
        value := value.(totalExecuted := value.totalExecuted + executed, executedEvents := value.executedEvents + 1,
                        pending := 0.0);
        return true, before, value.pending, executed;
      }
      return false, before, value.pending, 0.0;
    }
  }

  // ---------- Rows and the shared context ----------

  datatype Confidence = Unseen | Low | Medium | High

  datatype Row =
    | RestSnapshot(accountValue: Option<real>, errorCount: Option<int>)
    | OtherRefresh
    | AccountState
    | Recovery
    | Copyable(key: BucketKey, notional: Option<real>, netPnl: Option<real>)
    | Inert   // passive snapshots, state-only actions, control rows and unknown rows size nothing

  datatype Context = Context(accountValue: Option<real>, confidence: Confidence, recoveryPending: bool,
                             recoveryEvents: nat, refreshesAfterRecovery: nat, clears: nat)

  const START_CONTEXT := Context(None, Unseen, false, 0, 0, 0)

  predicate Positive(x: Option<real>) { x.Some? && x.value > 0.0 }

  function Refreshed(c: Context, clearAfterRest: bool, row: Row): Context
    requires row.RestSnapshot?
  {
    if row.errorCount.Some? && row.errorCount.value > 0 then c.(confidence := Low)
    else if Positive(row.accountValue) then
      var seen := c.(accountValue := row.accountValue, confidence := High);
      if clearAfterRest && c.recoveryPending then seen.(recoveryPending := false, clears := c.clears + 1) else seen
    else c.(confidence := Medium)
  }

  function NextContext(c: Context, clearAfterRest: bool, row: Row): Context {
    match row
    case RestSnapshot(_, _) => Refreshed(Counted(c), clearAfterRest, row)
    case OtherRefresh => Counted(c)
    case AccountState => if c.confidence.High? || c.confidence.Unseen? then c.(confidence := Medium) else c
    case Recovery => c.(recoveryPending := true, recoveryEvents := c.recoveryEvents + 1)
    case _ => c
  }

  function Counted(c: Context): Context {
    if c.recoveryPending then c.(refreshesAfterRecovery := c.refreshesAfterRecovery + 1) else c
  }

  // ---------- Policies ----------

  datatype Decision =
    | BlockedByRecovery | NoAccountValue | LowConfidence | NoNotional | NoEquity | SendNow | SendDust | Accumulate

  datatype Policy = Policy(
    fixedRisk: bool, initialEquity: real, budget: Option<real>, minNotional: real,
    equity: real, realized: real, copied: real, sent: real, dust: real,
    buckets: map<BucketKey, Dust>, decisions: seq<Decision>)

  function SizingEquity(p: Policy): real {
    if !p.fixedRisk then p.equity
    else
      var budget := if p.budget.Some? && p.budget.value != 0.0 then p.budget.value else p.initialEquity;
      if p.equity <= budget then p.equity else budget
  }

  function BucketOf(p: Policy, k: BucketKey): Dust { if k in p.buckets then p.buckets[k] else EMPTY_DUST }

  /** The target a copyable row is sized to, or the reason it is not sized. */
  function Target(p: Policy, c: Context, row: Row): Result<real, Decision>
    requires row.Copyable?
  {
    if c.recoveryPending then Err(BlockedByRecovery)
    else if !Positive(c.accountValue) then Err(NoAccountValue)
    else if c.confidence.Low? then Err(LowConfidence)
    else if !Positive(row.notional) then Err(NoNotional)
    else if SizingEquity(p) <= 0.0 then Err(NoEquity)
    else Ok(row.notional.value * (SizingEquity(p) / c.accountValue.value))
  }

  function Ratio(p: Policy, c: Context): real
    requires Positive(c.accountValue)
  {
    SizingEquity(p) / c.accountValue.value
  }

  /** What goes out for a target: the target itself, the released dust, or nothing. */
  function Executed(p: Policy, k: BucketKey, target: real): real {
    if target >= p.minNotional then target else Released(BucketOf(p, k), target, p.minNotional)
  }

  function DecisionFor(p: Policy, k: BucketKey, target: real): Decision {
    if target >= p.minNotional then SendNow
    else if BucketOf(p, k).pending + target >= p.minNotional then SendDust
    else Accumulate
  }

  /** The dust buckets after a target is sized. */
  function BucketsWith(p: Policy, k: BucketKey, target: real): map<BucketKey, Dust> {
    if target >= p.minNotional then p.buckets else p.buckets[k := Added(BucketOf(p, k), target, p.minNotional)]
  }

  /** Books a sized row: what went out, and the realized profit scaled by the copy ratio if something did. */
  function Booked(p: Policy, row: Row, target: real, ratio: real, buckets: map<BucketKey, Dust>, decision: Decision,
                  executed: real): Policy
    requires row.Copyable? && row.notional.Some?
  {
    var gain := if decision.Accumulate? || row.netPnl.None? then 0.0 else row.netPnl.value * ratio;
    p.(decisions := p.decisions + [decision],
       copied := p.copied + row.notional.value,
       sent := p.sent + executed,
       dust := if target >= p.minNotional then p.dust else p.dust + target,
       buckets := buckets,
       equity := p.equity + gain,
       realized := p.realized + gain)
  }

  function Evaluated(p: Policy, c: Context, row: Row): Policy
    requires row.Copyable?
  {
    var t := Target(p, c, row);
    if t.Err? then p.(decisions := p.decisions + [t.error])
    else Booked(p, row, t.value, Ratio(p, c), BucketsWith(p, row.key, t.value), DecisionFor(p, row.key, t.value),
                Executed(p, row.key, t.value))
  }

  lemma SizingIgnoresBuckets(p: Policy, buckets: map<BucketKey, Dust>, c: Context, row: Row)
    requires row.Copyable?
    ensures Target(p.(buckets := buckets), c, row) == Target(p, c, row)
    ensures Positive(c.accountValue) ==> Ratio(p.(buckets := buckets), c) == Ratio(p, c)
  {
    assert SizingEquity(p.(buckets := buckets)) == SizingEquity(p);
  }

  lemma BucketsDoNotSize(p: Policy, buckets: map<BucketKey, Dust>, row: Row, target: real, ratio: real,
                         decision: Decision, executed: real)
    requires row.Copyable? && row.notional.Some?
    ensures Booked(p.(buckets := buckets), row, target, ratio, buckets, decision, executed)
            == Booked(p, row, target, ratio, buckets, decision, executed)
  {
  }

  // ---------- What every policy keeps ----------

  ghost function Pending(buckets: map<BucketKey, Dust>): real
    decreases buckets.Keys
  {
    if buckets.Keys == {} then 0.0
    else
      var k :| k in buckets.Keys;
      buckets[k].pending + Pending(buckets - {k})
  }

  lemma {:induction false} PendingSplits(buckets: map<BucketKey, Dust>, k: BucketKey)
    requires k in buckets
    ensures Pending(buckets) == buckets[k].pending + Pending(buckets - {k})
    decreases buckets.Keys
  {
    var l :| l in buckets.Keys && Pending(buckets) == buckets[l].pending + Pending(buckets - {l});
    if l != k {
      PendingSplits(buckets - {l}, k);
      PendingSplits(buckets - {k}, l);
      assert buckets - {l} - {k} == buckets - {k} - {l};
    }
  }

  lemma PendingAfterPut(buckets: map<BucketKey, Dust>, k: BucketKey, d: Dust)
    ensures Pending(buckets[k := d]) == Pending(buckets) + d.pending - if k in buckets then buckets[k].pending else 0.0
  {
    PendingSplits(buckets[k := d], k);
    if k in buckets {
      PendingSplits(buckets, k);
      assert buckets[k := d] - {k} == buckets - {k};
    } else {
      assert buckets[k := d] - {k} == buckets;
    }
  }

  ghost predicate PolicyOk(p: Policy) {
    && p.minNotional > 0.0
    && p.equity == p.initialEquity + p.realized
    && forall k <- p.buckets :: DustOk(p.buckets[k], p.minNotional)
  }

  /** The notional the row is sized to, zero if it is not sized. */
  function SizedNotional(p: Policy, c: Context, row: Row): real {
    if row.Copyable? && Target(p, c, row).Ok? then Target(p, c, row).value else 0.0
  }

  function NextPolicy(p: Policy, c: Context, row: Row): Policy { if row.Copyable? then Evaluated(p, c, row) else p }

  lemma TargetIsPositive(p: Policy, c: Context, row: Row)
    requires row.Copyable? && Target(p, c, row).Ok?
    ensures Target(p, c, row).value > 0.0
  {
    var r := SizingEquity(p) / c.accountValue.value;
    assert r > 0.0;
    assert row.notional.value * r > 0.0;
  }

  /** One row: the sized notional is exactly what was sent plus what pending dust grew by. */
  lemma RowConservesNotional(p: Policy, c: Context, row: Row)
    requires PolicyOk(p)
    ensures var q := NextPolicy(p, c, row);
            && PolicyOk(q)
            && SizedNotional(p, c, row) == (q.sent - p.sent) + (Pending(q.buckets) - Pending(p.buckets))
            && q.minNotional == p.minNotional && q.initialEquity == p.initialEquity
            && (c.recoveryPending ==> q.sent == p.sent && q.equity == p.equity && q.buckets == p.buckets)
  {
    if row.Copyable? && Target(p, c, row).Ok? {
      var target := Target(p, c, row).value;
      TargetIsPositive(p, c, row);
      if target < p.minNotional {
        AddKeepsDust(BucketOf(p, row.key), target, p.minNotional);
        PendingAfterPut(p.buckets, row.key, Added(BucketOf(p, row.key), target, p.minNotional));
      }
    }
  }

  /** Whatever a row sends is zero or at least the minimum, and released dust stays below twice the minimum. */
  lemma SentAmounts(p: Policy, c: Context, row: Row)
    requires PolicyOk(p) && row.Copyable? && Target(p, c, row).Ok?
    ensures var out := NextPolicy(p, c, row).sent - p.sent;
            && (out == 0.0 || out >= p.minNotional)
            && (Target(p, c, row).value < p.minNotional ==> out < 2.0 * p.minNotional)
  {
    TargetIsPositive(p, c, row);
    if Target(p, c, row).value < p.minNotional {
      AddKeepsDust(BucketOf(p, row.key), Target(p, c, row).value, p.minNotional);
    }
  }

  // ---------- Runs ----------

  function ContextAfter(c: Context, clearAfterRest: bool, rows: seq<Row>): Context {
    if rows == [] then c
    else NextContext(ContextAfter(c, clearAfterRest, rows[..|rows| - 1]), clearAfterRest, rows[|rows| - 1])
  }

  function PolicyAfter(p: Policy, c: Context, clearAfterRest: bool, rows: seq<Row>): Policy {
    if rows == [] then p
    else
      var init := rows[..|rows| - 1];
      NextPolicy(PolicyAfter(p, c, clearAfterRest, init), ContextAfter(c, clearAfterRest, init), rows[|rows| - 1])
  }

  function SizedSum(p: Policy, c: Context, clearAfterRest: bool, rows: seq<Row>): real {
    if rows == [] then 0.0
    else
      var init := rows[..|rows| - 1];
      SizedSum(p, c, clearAfterRest, init)
      + SizedNotional(PolicyAfter(p, c, clearAfterRest, init), ContextAfter(c, clearAfterRest, init), rows[|rows| - 1])
  }

  function StartPolicy(fixedRisk: bool, initialEquity: real, budget: Option<real>, minNotional: real): Policy {
    Policy(fixedRisk, initialEquity, budget, minNotional, initialEquity, 0.0, 0.0, 0.0, 0.0, map[], [])
  }

  /** Over any rows, everything sized was sent or is pending dust, and equity is initial plus realized. */
  lemma {:induction false} NotionalIsConserved(p: Policy, c: Context, clearAfterRest: bool, rows: seq<Row>)
    requires PolicyOk(p)
    ensures var q := PolicyAfter(p, c, clearAfterRest, rows);
            && PolicyOk(q)
            && q.minNotional == p.minNotional && q.initialEquity == p.initialEquity
            && SizedSum(p, c, clearAfterRest, rows) == (q.sent - p.sent) + (Pending(q.buckets) - Pending(p.buckets))
  {
    if rows != [] {
      var init := rows[..|rows| - 1];
      NotionalIsConserved(p, c, clearAfterRest, init);
      RowConservesNotional(PolicyAfter(p, c, clearAfterRest, init), ContextAfter(c, clearAfterRest, init),
                           rows[|rows| - 1]);
    }
  }

  /** From a fresh policy: the sum of all sized targets is what was sent plus what is pending. */
  lemma SizedIsSentPlusPending(fixedRisk: bool, equity: real, budget: Option<real>, minNotional: real,
                               clearAfterRest: bool, rows: seq<Row>)
    requires minNotional > 0.0
    ensures var p := StartPolicy(fixedRisk, equity, budget, minNotional);
            var q := PolicyAfter(p, START_CONTEXT, clearAfterRest, rows);
            SizedSum(p, START_CONTEXT, clearAfterRest, rows) == q.sent + Pending(q.buckets)
            && q.equity == equity + q.realized
  {
    NotionalIsConserved(StartPolicy(fixedRisk, equity, budget, minNotional), START_CONTEXT, clearAfterRest, rows);
  }

  /** Without the analysis flag, once recovery is pending nothing is sent and equity does not move, whatever follows. */
  lemma {:induction false} RecoveryBlocksForGood(p: Policy, c: Context, rows: seq<Row>)
    requires PolicyOk(p) && c.recoveryPending
    ensures var q := PolicyAfter(p, c, false, rows);
            && ContextAfter(c, false, rows).recoveryPending
            && q.sent == p.sent && q.equity == p.equity && q.buckets == p.buckets
  {
    if rows != [] {
      var init := rows[..|rows| - 1];
      RecoveryBlocksForGood(p, c, init);
      NotionalIsConserved(p, c, false, init);
      RowConservesNotional(PolicyAfter(p, c, false, init), ContextAfter(c, false, init), rows[|rows| - 1]);
    }
  }

  lemma {:induction false} RunsCompose(p: Policy, c: Context, clear: bool, a: seq<Row>, b: seq<Row>)
    ensures ContextAfter(c, clear, a + b) == ContextAfter(ContextAfter(c, clear, a), clear, b)
    ensures PolicyAfter(p, c, clear, a + b) == PolicyAfter(PolicyAfter(p, c, clear, a), ContextAfter(c, clear, a),
                                                           clear, b)
  {
    if b == [] {
      assert a + b == a;
    } else {
      assert (a + b)[..|a + b| - 1] == a + b[..|b| - 1];
      RunsCompose(p, c, clear, a, b[..|b| - 1]);
    }
  }

  /** With the flag off a recovery row freezes sent notional and equity at what they were before it. */
  lemma AfterRecoveryNothingMoves(p: Policy, before: seq<Row>, after: seq<Row>)
    requires PolicyOk(p)
    ensures var q := PolicyAfter(p, START_CONTEXT, false, before + ([Recovery] + after));
            var r := PolicyAfter(p, START_CONTEXT, false, before);
            q.sent == r.sent && q.equity == r.equity && Pending(q.buckets) == Pending(r.buckets)
  {
    RunsCompose(p, START_CONTEXT, false, before, [Recovery] + after);
    var r, c := PolicyAfter(p, START_CONTEXT, false, before), ContextAfter(START_CONTEXT, false, before);
    RunsCompose(r, c, false, [Recovery], after);
    assert [Recovery][..0] == [];
    assert PolicyAfter(r, c, false, [Recovery]) == NextPolicy(PolicyAfter(r, c, false, []),
                                                              ContextAfter(c, false, []), Recovery) == r;
    assert ContextAfter(c, false, [Recovery]) == NextContext(ContextAfter(c, false, []), false, Recovery);
    NotionalIsConserved(p, START_CONTEXT, false, before);
    RecoveryBlocksForGood(r, ContextAfter(c, false, [Recovery]), after);
  }

  // ---------- One row in plain numbers ----------

  /** The equity a policy sizes with: its current one, but under a fixed risk never more than the budget. */
  predicate SizesWith(p: Policy, used: real) {
    if !p.fixedRisk then used == p.equity
    else
      var budget := if p.budget == None || p.budget == Some(0.0) then p.initialEquity else p.budget.value;
      used <= p.equity && used <= budget && (used == p.equity || used == budget)
  }

  /** Why a row is not sized, the first reason that applies. */
  predicate RefusedFor(c: Context, row: Row, used: real, d: Decision)
    requires row.Copyable?
  {
    if c.recoveryPending then d == BlockedByRecovery
    else if c.accountValue == None || c.accountValue.value <= 0.0 then d == NoAccountValue
    else if c.confidence == Low then d == LowConfidence
    else if row.notional == None || row.notional.value <= 0.0 then d == NoNotional
    else used <= 0.0 && d == NoEquity
  }

  predicate CanSize(c: Context, row: Row, used: real)
    requires row.Copyable?
  {
    && !c.recoveryPending && c.accountValue.Some? && c.accountValue.value > 0.0 && c.confidence != Low
    && row.notional.Some? && row.notional.value > 0.0 && used > 0.0
  }

  /** `part` is to the policy's equity what `whole` is to the source's account value. */
  predicate InProportion(part: real, used: real, whole: real, accountValue: real) {
    part * accountValue == whole * used
  }

  /** The profit the policy takes over from a row it sent something for. */
  predicate Gains(gain: real, c: Context, row: Row, used: real, sent: bool)
    requires row.Copyable? && c.accountValue.Some?
  {
    if sent && row.netPnl.Some? then InProportion(gain, used, row.netPnl.value, c.accountValue.value) else gain == 0.0
  }

  /** The bucket after `target` was collected; `released` is what left it. */
  predicate Collected(was: Dust, now: Dust, target: real, released: real) {
    && now.pending == was.pending + target - released
    && now.totalAccumulated == was.totalAccumulated + target && now.totalExecuted == was.totalExecuted + released
    && now.accumulatedEvents == was.accumulatedEvents + 1
    && now.executedEvents == was.executedEvents + if released == 0.0 then 0 else 1
  }

  function HeldDust(p: Policy, k: BucketKey): Dust {
    if k in p.buckets then p.buckets[k] else Dust(0.0, 0, 0, 0.0, 0.0)
  }

  /** What a sized row sends, and what becomes of the bucket of its key. */
  predicate SendsFor(p: Policy, q: Policy, row: Row, target: real, d: Decision)
    requires row.Copyable?
  {
    var pending := HeldDust(p, row.key).pending;
    if target >= p.minNotional then
      d == SendNow && q.sent == p.sent + target && q.dust == p.dust && q.buckets == p.buckets
    else
      && q.dust == p.dust + target
      && row.key in q.buckets && q.buckets == p.buckets[row.key := q.buckets[row.key]]
      && if pending + target >= p.minNotional
         then d == SendDust && q.sent == p.sent + pending + target
              && Collected(HeldDust(p, row.key), q.buckets[row.key], target, pending + target)
         else d == Accumulate && q.sent == p.sent && Collected(HeldDust(p, row.key), q.buckets[row.key], target, 0.0)
  }

  /** A row sized to `target`: what it copies, sends, collects and gains. */
  predicate SizedAs(p: Policy, q: Policy, c: Context, row: Row, d: Decision, used: real, target: real, gain: real)
    requires row.Copyable? && CanSize(c, row, used)
  {
    && InProportion(target, used, row.notional.value, c.accountValue.value)
    && SendsFor(p, q, row, target, d)
    && Gains(gain, c, row, used, d == SendNow || d == SendDust)
    && q.equity == p.equity + gain && q.realized == p.realized + gain
    && q.copied == p.copied + row.notional.value
  }

  /** The whole effect of one copyable row on one policy. */
  ghost predicate RowEffect(p: Policy, q: Policy, c: Context, row: Row, d: Decision)
    requires row.Copyable?
  {
    && q.decisions == p.decisions + [d]
    && q.fixedRisk == p.fixedRisk && q.initialEquity == p.initialEquity && q.budget == p.budget
    && q.minNotional == p.minNotional
    && exists used :: SizesWith(p, used) &&
         if CanSize(c, row, used) then exists target, gain :: SizedAs(p, q, c, row, d, used, target, gain)
         else RefusedFor(c, row, used, d) && q == p.(decisions := p.decisions + [d])
  }

  lemma ScaleBack(whole: real, used: real, accountValue: real)
    requires accountValue > 0.0
    ensures InProportion(whole * (used / accountValue), used, whole, accountValue)
  {
    var ratio := used / accountValue;
    assert ratio * accountValue == used;
    assert whole * ratio * accountValue == whole * (ratio * accountValue);
  }

  /** The target of a row, and the reason where there is none. */
  lemma TargetInNumbers(p: Policy, c: Context, row: Row)
    requires row.Copyable?
    ensures var used, t := SizingEquity(p), Target(p, c, row);
            && SizesWith(p, used)
            && (t.Ok? <==> CanSize(c, row, used))
            && (t.Ok? ==> InProportion(t.value, used, row.notional.value, c.accountValue.value)
                          && SizedNotional(p, c, row) == t.value)
            && (t.Err? ==> RefusedFor(c, row, used, t.error) && SizedNotional(p, c, row) == 0.0)
  {
    if Target(p, c, row).Ok? {
      ScaleBack(row.notional.value, SizingEquity(p), c.accountValue.value);
    }
  }

  lemma BookedSends(p: Policy, row: Row, target: real, ratio: real)
    requires PolicyOk(p) && row.Copyable? && row.notional.Some? && target > 0.0
    ensures var d := DecisionFor(p, row.key, target);
            SendsFor(p, Booked(p, row, target, ratio, BucketsWith(p, row.key, target), d, Executed(p, row.key, target)),
                     row, target, d)
  {
  }

  lemma BookedGains(p: Policy, c: Context, row: Row, target: real, buckets: map<BucketKey, Dust>, d: Decision,
                    executed: real)
    requires row.Copyable? && row.notional.Some? && c.accountValue.Some? && c.accountValue.value > 0.0
    requires d == SendNow || d == SendDust || d == Accumulate
    ensures var q := Booked(p, row, target, Ratio(p, c), buckets, d, executed);
            && Gains(q.equity - p.equity, c, row, SizingEquity(p), d != Accumulate)
            && q.realized == p.realized + (q.equity - p.equity) && q.copied == p.copied + row.notional.value
  {
    if row.netPnl.Some? {
      ScaleBack(row.netPnl.value, SizingEquity(p), c.accountValue.value);
    }
  }

  lemma SizedRowEffect(p: Policy, c: Context, row: Row)
    requires PolicyOk(p) && row.Copyable? && Target(p, c, row).Ok?
    ensures var q, used, target := Evaluated(p, c, row), SizingEquity(p), Target(p, c, row).value;
            && CanSize(c, row, used)
            && SizedAs(p, q, c, row, DecisionFor(p, row.key, target), used, target, q.equity - p.equity)
  {
    var target := Target(p, c, row).value;
    TargetInNumbers(p, c, row);
    TargetIsPositive(p, c, row);
    BookedSends(p, row, target, Ratio(p, c));
    BookedGains(p, c, row, target, BucketsWith(p, row.key, target), DecisionFor(p, row.key, target),
                Executed(p, row.key, target));
  }

  /** Every copyable row has exactly this effect. */
  lemma EvaluatedInNumbers(p: Policy, c: Context, row: Row, d: Decision)
    requires PolicyOk(p) && row.Copyable? && Evaluated(p, c, row).decisions == p.decisions + [d]
    ensures RowEffect(p, Evaluated(p, c, row), c, row, d)
  {
    var q := Evaluated(p, c, row);
    assert q.decisions[|p.decisions|] == d;
    TargetInNumbers(p, c, row);
    if Target(p, c, row).Ok? {
      SizedRowEffect(p, c, row);
    }
  }

  /** What a row that sizes nothing does to the shared context. */
  predicate ContextEffect(c: Context, d: Context, clearAfterRest: bool, row: Row) {
    && d.recoveryEvents == c.recoveryEvents + (if row.Recovery? then 1 else 0)
    && d.refreshesAfterRecovery
       == c.refreshesAfterRecovery + (if (row.RestSnapshot? || row.OtherRefresh?) && c.recoveryPending then 1 else 0)
    && match row
       case RestSnapshot(accountValue, errorCount) =>
         var failed := errorCount.Some? && errorCount.value > 0;
         var seen := !failed && accountValue.Some? && accountValue.value > 0.0;
         var cleared := seen && clearAfterRest && c.recoveryPending;
         && d.accountValue == (if seen then accountValue else c.accountValue)
         && d.confidence == (if failed then Low else if seen then High else Medium)
         && d.recoveryPending == (c.recoveryPending && !cleared)
         && d.clears == c.clears + (if cleared then 1 else 0)
       case AccountState =>
         && d.confidence == (if c.confidence == Low then Low else Medium)
         && d.accountValue == c.accountValue && d.recoveryPending == c.recoveryPending && d.clears == c.clears
       case Recovery =>
         d.recoveryPending && d.accountValue == c.accountValue && d.confidence == c.confidence && d.clears == c.clears
       case _ =>
         && d.recoveryPending == c.recoveryPending && d.accountValue == c.accountValue
         && d.confidence == c.confidence && d.clears == c.clears
  }

  lemma ContextInWords(c: Context, clearAfterRest: bool, row: Row)
    ensures ContextEffect(c, NextContext(c, clearAfterRest, row), clearAfterRest, row)
  {
  }

  /** A policy that has seen nothing. */
  predicate Untouched(p: Policy, fixedRisk: bool, equity: real, budget: Option<real>, minNotional: real) {
    && p.fixedRisk == fixedRisk && p.initialEquity == p.equity == equity && p.budget == budget
    && p.minNotional == minNotional && p.realized == p.copied == p.sent == p.dust == 0.0
    && p.buckets == map[] && p.decisions == []
  }

  // ---------- The comparator ----------

  /** One policy's mutable state; its dust buckets are objects of their own. */
  class PolicyState {
    var scalars: Policy   // everything but the buckets
    var dust: map<BucketKey, DustBucket>

    ghost predicate Valid()
      reads this, dust.Values
    {
      && (forall k <- dust :: dust[k].key == k)
      && PolicyOk(Now())
    }

    ghost function Now(): Policy
      reads this, dust.Values
    {
      scalars.(buckets := map k | k in dust :: dust[k].value)
    }

    constructor (fixedRisk: bool, initialEquity: real, budget: Option<real>, minNotional: real)
      requires minNotional > 0.0
      ensures Valid() && Now() == StartPolicy(fixedRisk, initialEquity, budget, minNotional) && dust == map[]
      ensures Untouched(Now(), fixedRisk, initialEquity, budget, minNotional)
    {
      scalars := StartPolicy(fixedRisk, initialEquity, budget, minNotional);
      dust := map[];
    }

    /** The bucket of a key, made on first use. */
    method Bucket(k: BucketKey) returns (b: DustBucket)
      requires Valid()
      modifies this
      ensures scalars == old(scalars) && k in dust && b == dust[k] && b.key == k
      ensures k in old(dust) ==> dust == old(dust)
      ensures k !in old(dust) ==> fresh(b) && b.value == EMPTY_DUST && dust == old(dust)[k := b]
    {
      if k !in dust {
        var made := new DustBucket(k);
        dust := dust[k := made];
      }
      b := dust[k];
    }

    method AddDust(k: BucketKey, target: real) returns (sent: bool, executed: real)
      requires Valid()
      modifies this, dust.Values
      ensures fresh(dust.Values - old(dust.Values)) && scalars == old(scalars)
      ensures forall l <- dust :: dust[l].key == l
      ensures Now() == old(Now()).(
                buckets := old(Now()).buckets[k := Added(BucketOf(old(Now()), k), target, scalars.minNotional)])
      ensures executed == Released(BucketOf(old(Now()), k), target, scalars.minNotional)
      ensures sent <==> BucketOf(old(Now()), k).pending + target >= scalars.minNotional
    {
      ghost var was := Now();
      var b := Bucket(k);
      assert b.value == BucketOf(was, k);
      var before, after;
      sent, before, after, executed := b.Add(target, scalars.minNotional);
      forall l | l in dust && l != k ensures dust[l] != b {
        assert dust[l].key == l;
      }
    }

    /** Sends the target, or adds it to its bucket, and books the outcome. */
    method SizeAndBook(row: Row, target: real, ratio: real) returns (decision: Decision, executed: real)
      requires Valid() && row.Copyable? && row.notional.Some?
      modifies this, dust.Values
      ensures fresh(dust.Values - old(dust.Values)) && forall l <- dust :: dust[l].key == l
      ensures decision == DecisionFor(old(Now()), row.key, target) && executed == Executed(old(Now()), row.key, target)
      ensures Now() == Booked(old(Now()), row, target, ratio, BucketsWith(old(Now()), row.key, target), decision,
                              executed)
    {
      ghost var was := Now();
      if target >= scalars.minNotional {
        decision, executed := SendNow, target;
      } else {
        var sent;
        sent, executed := AddDust(row.key, target);
        decision := if sent then SendDust else Accumulate;
      }
      ghost var mid := Now();
      assert mid == was.(buckets := BucketsWith(was, row.key, target));
      Book(row, target, ratio, decision, executed);
      BucketsDoNotSize(was, mid.buckets, row, target, ratio, decision, executed);
    }

    method Book(row: Row, target: real, ratio: real, decision: Decision, executed: real)
      requires row.Copyable? && row.notional.Some?
      modifies this`scalars
      ensures Now() == Booked(old(Now()), row, target, ratio, old(Now()).buckets, decision, executed)
    {
      scalars := Booked(scalars, row, target, ratio, scalars.buckets, decision, executed);
    }

    /** `_evaluate_policy`. */
    method Evaluate(c: Context, row: Row) returns (decision: Decision, executed: real)
      requires Valid() && row.Copyable?
      modifies this, dust.Values
      ensures Valid() && fresh(dust.Values - old(dust.Values))
      ensures Now() == Evaluated(old(Now()), c, row)
      ensures executed == Now().sent - old(Now()).sent
      ensures Now().decisions == old(Now()).decisions + [decision]
      ensures RowEffect(old(Now()), Now(), c, row, decision)
    {
      ghost var was := Now();
      RowConservesNotional(Now(), c, row);
      SizingIgnoresBuckets(Now(), scalars.buckets, c, row);
      assert scalars == Now().(buckets := scalars.buckets);
      var target := Target(scalars, c, row);
      if target.Err? {
        decision, executed := target.error, 0.0;
        scalars := scalars.(decisions := scalars.decisions + [decision]);
      } else {
        decision, executed := SizeAndBook(row, target.value, Ratio(scalars, c));
      }
      EvaluatedInNumbers(was, c, row, decision);
    }
  }

  class Comparator {
    const clearAfterRest: bool
    const pure: PolicyState
    const fixedRisk: PolicyState
    var context: Context

    ghost predicate Valid()
      reads this, pure, fixedRisk, pure.dust.Values, fixedRisk.dust.Values
    {
      pure != fixedRisk && pure.Valid() && fixedRisk.Valid() && pure.dust.Values !! fixedRisk.dust.Values
    }

    constructor (initialEquity: real, budget: real, minNotional: real, clearAfterRest: bool)
      requires initialEquity > 0.0 && budget > 0.0 && minNotional > 0.0
      ensures Valid() && fresh(pure) && fresh(fixedRisk)
      ensures pure.Now() == StartPolicy(false, initialEquity, None, minNotional)
      ensures fixedRisk.Now() == StartPolicy(true, initialEquity, Some(budget), minNotional)
      ensures context == START_CONTEXT && this.clearAfterRest == clearAfterRest
      ensures Untouched(pure.Now(), false, initialEquity, None, minNotional)
      ensures Untouched(fixedRisk.Now(), true, initialEquity, Some(budget), minNotional)
      ensures !context.recoveryPending && context.accountValue == None && context.confidence == Unseen
      ensures context.recoveryEvents == context.refreshesAfterRecovery == context.clears == 0
    {
      this.clearAfterRest := clearAfterRest;
      pure := new PolicyState(false, initialEquity, None, minNotional);
      fixedRisk := new PolicyState(true, initialEquity, Some(budget), minNotional);
      context := START_CONTEXT;
    }

    /** `_observe_copyable_action`: every policy evaluates the row. */
    method ObserveCopyable(row: Row)
      requires Valid() && row.Copyable?
      modifies pure, fixedRisk, pure.dust.Values, fixedRisk.dust.Values
      ensures Valid()
      ensures fresh(pure.dust.Values - old(pure.dust.Values))
              && fresh(fixedRisk.dust.Values - old(fixedRisk.dust.Values))
      ensures pure.Now() == Evaluated(old(pure.Now()), context, row)
      ensures fixedRisk.Now() == Evaluated(old(fixedRisk.Now()), context, row)
    {
      var d1, e1 := pure.Evaluate(context, row);
      var d2, e2 := fixedRisk.Evaluate(context, row);
    }

    /** The rows that only move the shared context. */
    method ObserveContext(row: Row)
      requires !row.Copyable?
      modifies this`context
      ensures context == NextContext(old(context), clearAfterRest, row)
      ensures ContextEffect(old(context), context, clearAfterRest, row)
    {
      ContextInWords(context, clearAfterRest, row);
      match row {
        case RestSnapshot(_, _) =>
          CountRefresh();
          context := Refreshed(context, clearAfterRest, row);
        case OtherRefresh =>
          CountRefresh();
        case AccountState =>
          if context.confidence.High? || context.confidence.Unseen? {
            context := context.(confidence := Medium);
          }
        case Recovery =>
          context := context.(recoveryPending := true, recoveryEvents := context.recoveryEvents + 1);
        case Inert =>
      }
    }

    method Observe(row: Row)
      requires Valid()
      modifies this`context, pure, fixedRisk, pure.dust.Values, fixedRisk.dust.Values
      ensures Valid()
      ensures fresh(pure.dust.Values - old(pure.dust.Values))
              && fresh(fixedRisk.dust.Values - old(fixedRisk.dust.Values))
      ensures context == NextContext(old(context), clearAfterRest, row)
      ensures pure.Now() == NextPolicy(old(pure.Now()), old(context), row)
      ensures fixedRisk.Now() == NextPolicy(old(fixedRisk.Now()), old(context), row)
    {
      if row.Copyable? {
        ObserveCopyable(row);
      } else {
        ObserveContext(row);
      }
    }

    method CountRefresh()
      modifies this`context
      ensures context == Counted(old(context))
    {
      if context.recoveryPending {
        context := context.(refreshesAfterRecovery := context.refreshesAfterRecovery + 1);
      }
    }

    /** A whole scorecard: both policies end as the run functions say. */
    method ObserveAll(rows: seq<Row>)
      requires Valid()
      modifies this`context, pure, fixedRisk, pure.dust.Values, fixedRisk.dust.Values
      ensures Valid()
      ensures context == ContextAfter(old(context), clearAfterRest, rows)
      ensures pure.Now() == PolicyAfter(old(pure.Now()), old(context), clearAfterRest, rows)
      ensures fixedRisk.Now() == PolicyAfter(old(fixedRisk.Now()), old(context), clearAfterRest, rows)
    {
      var i := 0;
      while i < |rows|
        invariant 0 <= i <= |rows| && Valid()
        invariant fresh(pure.dust.Values - old(pure.dust.Values))
                  && fresh(fixedRisk.dust.Values - old(fixedRisk.dust.Values))
        invariant context == ContextAfter(old(context), clearAfterRest, rows[..i])
        invariant pure.Now() == PolicyAfter(old(pure.Now()), old(context), clearAfterRest, rows[..i])
        invariant fixedRisk.Now() == PolicyAfter(old(fixedRisk.Now()), old(context), clearAfterRest, rows[..i])
      {
        assert rows[..i + 1][..|rows[..i + 1]| - 1] == rows[..i];
        Observe(rows[i]);
        i := i + 1;
      }
      assert rows[..i] == rows;
    }
  }
}
