/**
 What holds over every run of the reducer: any mix of connections, scope changes, and accepted or refused
 frames of every channel.
 */
module StreamRuns {
  import opened Outcomes
  import opened FillDedupe
  import opened FillChain
  import opened OpenOrders
  import opened AccountStream

  datatype Input =
    | Begin(receivedMs: int)
    | Note(epoch: nat, receivedMs: int)
    | Rescope(next: Scopes)
    | Deliver(frame: Frame, epoch: nat, receivedMs: int)

  ghost function OutcomeOf(cfg: Config, st: State, input: Input): Outcome {
    if input.Deliver? then Reduce(cfg, st, input.frame, input.epoch, input.receivedMs) else Refused
  }

  ghost function After(cfg: Config, st: State, input: Input): State {
    match input
    case Begin(receivedMs) => Begun(st, receivedMs)
    case Note(epoch, receivedMs) => Noted(st, epoch, receivedMs)
    case Rescope(next) => Rescoped(cfg, st, next)
    case Deliver(_, _, _) => var out := OutcomeOf(cfg, st, input); if out.Accepted? then out.state else st
  }

  function Start(scopes: Scopes): State { State(0, 0, EMPTY_ACCOUNT, EMPTY_ACCOUNT, [], map[], scopes) }

  ghost function RunFrom(cfg: Config, st: State, inputs: seq<Input>): State {
    if inputs == [] then st
    else After(cfg, RunFrom(cfg, st, inputs[..|inputs| - 1]), inputs[|inputs| - 1])
  }

  // ---------- The identity memory ----------

  /** The unique records of a fill frame, as they are read in state `st`. */
  ghost function FrameFills(cfg: Config, st: State, input: Input): seq<Fill>
    requires input.Deliver? && input.frame.FillsFrame?
  {
    var f := input.frame;
    var role := RoleOf(cfg, f.account);
    if role.None? then []
    else
      var flag := SnapshotFlag(f.declared, (if f.twap then TwapPart else FillsPart) in st.Of(role.value).receivedMs);
      if flag.None? then []
      else Unique(Records(cfg, st.scopes, role.value, Reading(f.account, input.receivedMs, st.epoch, flag.value),
                          f.rows))
  }

  /** What one input touches: the identities of an accepted fill frame, and whether it was live. */
  ghost function Touches(cfg: Config, st: State, input: Input): seq<Touched> {
    var out := OutcomeOf(cfg, st, input);
    if out.Accepted? && input.frame.FillsFrame?
    then [Touched(Ids(FrameFills(cfg, st, input)), !out.update.initialSnapshot)]
    else []
  }

  ghost function TouchLog(cfg: Config, st: State, inputs: seq<Input>): seq<Touched> {
    if inputs == [] then []
    else
      var init, last := inputs[..|inputs| - 1], inputs[|inputs| - 1];
      TouchLog(cfg, st, init) + Touches(cfg, RunFrom(cfg, st, init), last)
  }

  /** The identities handed to the caller as new fills by one input. */
  ghost function Handed(cfg: Config, st: State, input: Input): seq<FillId> {
    var out := OutcomeOf(cfg, st, input);
    if out.Accepted? then Ids(out.update.newFills) else []
  }

  ghost function HandedLog(cfg: Config, st: State, inputs: seq<Input>): seq<FillId> {
    if inputs == [] then []
    else
      var init, last := inputs[..|inputs| - 1], inputs[|inputs| - 1];
      HandedLog(cfg, st, init) + Handed(cfg, RunFrom(cfg, st, init), last)
  }

  lemma {:induction false} NewRecordsAreNewOf(unique: seq<Fill>, prints: map<FillId, Fingerprint>, order: seq<FillId>)
    requires forall id :: id in order <==> id in prints
    ensures Ids(NewRecords(unique, prints)) == NewOf(order, Ids(unique))
  {
    if unique == [] {
    } else {
      var n := |unique| - 1;
      NewRecordsAreNewOf(unique[..n], prints, order);
      assert unique == unique[..n] + [unique[n]];
      IdsAppend(unique[..n], unique[n]);
      IdsAppend(NewRecords(unique[..n], prints), unique[n]);
      NewOfAppend(order, Ids(unique[..n]), unique[n].Identity());
      assert NewRecords(unique, prints)
             == NewRecords(unique[..n], prints) + if unique[n].Identity() in prints then [] else [unique[n]];
    }
  }

  lemma {:induction false} NewOfAppend(memory: seq<FillId>, ids: seq<FillId>, id: FillId)
    ensures NewOf(memory, ids + [id]) == NewOf(memory, ids) + if id in memory then [] else [id]
  {
    if ids == [] {
      assert ids + [id] == [id];
    } else {
      assert (ids + [id])[1..] == ids[1..] + [id];
      NewOfAppend(memory, ids[1..], id);
      var here, end := if ids[0] in memory then [] else [ids[0]], if id in memory then [] else [id];
      assert here + (NewOf(memory, ids[1..]) + end) == (here + NewOf(memory, ids[1..])) + end;
    }
  }

  /**
   The outcome touched the memory with the unique identities of its frame and hands over the new ones if live.
   */
  ghost predicate FillEffect(cfg: Config, st: State, unique: seq<Fill>, out: Outcome) {
    && out.Accepted?
    && NoRepeats(Ids(unique))
    && out.state.order == Newest(cfg.capacity, TouchAll(st.order, Ids(unique)))
    && out.update.newFills == (if out.update.initialSnapshot then [] else NewRecords(unique, st.prints))
    && StateOk(cfg, out.state)
  }

  lemma RecordsEffect(cfg: Config, st: State, role: Role, part: Component, isSnapshot: bool, records: seq<Fill>, t: int)
    requires StateOk(cfg, st) && ReduceRecords(cfg, st, role, part, isSnapshot, records, t).Accepted?
    ensures FillEffect(cfg, st, Unique(records), ReduceRecords(cfg, st, role, part, isSnapshot, records, t))
  {
    UniqueMeans(records);
    MemoryStaysOk(cfg, st, records);
    var out := ReduceRecords(cfg, st, role, part, isSnapshot, records, t);
    assert out.update.initialSnapshot == isSnapshot;
    assert StateOk(cfg, out.state);
  }

  /** A fill frame that is accepted comes to what its records come to. */
  lemma FillsComeToRecords(cfg: Config, st: State, frame: Frame, t: int)
    requires frame.FillsFrame? && ReduceFills(cfg, st, frame, t).Accepted?
    ensures var role, part := RoleOf(cfg, frame.account), if frame.twap then TwapPart else FillsPart;
            && role.Some?
            && var flag := SnapshotFlag(frame.declared, part in st.Of(role.value).receivedMs);
            && flag.Some?
            && var records := Records(cfg, st.scopes, role.value, Reading(frame.account, t, st.epoch, flag.value),
                                      frame.rows);
            && ReduceFills(cfg, st, frame, t) == ReduceRecords(cfg, st, role.value, part, flag.value, records, t)
  {
  }

  /** An accepted fill frame touches the memory with its unique identities and hands over the new ones if live. */
  lemma FillFrameEffect(cfg: Config, st: State, input: Input)
    requires StateOk(cfg, st) && OutcomeOf(cfg, st, input).Accepted? && input.frame.FillsFrame?
    ensures FillEffect(cfg, st, FrameFills(cfg, st, input), OutcomeOf(cfg, st, input))
    ensures var update := OutcomeOf(cfg, st, input).update;
            Ids(update.newFills) == if update.initialSnapshot then []
                else NewOf(st.order, Ids(FrameFills(cfg, st, input)))
  {
    var f := input.frame;
    FillsComeToRecords(cfg, st, f, input.receivedMs);
    var role := RoleOf(cfg, f.account).value;
    var part := if f.twap then TwapPart else FillsPart;
    var flag := SnapshotFlag(f.declared, part in st.Of(role).receivedMs).value;
    var records := Records(cfg, st.scopes, role, Reading(f.account, input.receivedMs, st.epoch, flag), f.rows);
    RecordsEffect(cfg, st, role, part, flag, records, input.receivedMs);
    var out := ReduceFills(cfg, st, f, input.receivedMs);
    ActivityLeavesEffect(cfg, st, Unique(records), out, Max(out.state.lastActivityMs, input.receivedMs));
    NewRecordsAreNewOf(Unique(records), st.prints, st.order);
  }

  lemma ActivityLeavesEffect(cfg: Config, st: State, unique: seq<Fill>, out: Outcome, t: int)
    requires FillEffect(cfg, st, unique, out)
    ensures FillEffect(cfg, st, unique, out.(state := out.state.(lastActivityMs := t)))
  {
  }

  /** The frame left the memory alone, handed nothing over, and moved no clock of either account back. */
  ghost predicate Quiet(cfg: Config, st: State, out: Outcome) {
    out.Accepted? ==>
      && out.state.order == st.order && out.state.prints == st.prints
      && out.update.newFills == []
      && StateOk(cfg, out.state)
      && ClocksGrow(st.source, out.state.source) && ClocksGrow(st.follower, out.state.follower)
  }

  lemma SpotIsQuiet(cfg: Config, st: State, frame: Frame, receivedMs: int)
    requires StateOk(cfg, st) && frame.SpotFrame?
    ensures Quiet(cfg, st, ReduceSpot(cfg, st, frame, receivedMs))
  {
  }

  lemma OpenOrdersAreQuiet(cfg: Config, st: State, frame: Frame, receivedMs: int)
    requires StateOk(cfg, st) && frame.OpenOrdersFrame?
    ensures Quiet(cfg, st, ReduceOpenOrders(cfg, st, frame, receivedMs))
  {
  }

  lemma OrderUpdatesAreQuiet(cfg: Config, st: State, frame: Frame, receivedMs: int)
    requires StateOk(cfg, st) && frame.OrderUpdatesFrame?
    ensures Quiet(cfg, st, ReduceOrderUpdates(cfg, st, frame, receivedMs))
  {
    if EditAll(st.follower.openOrders, frame.updates).Ok? {
      UpdatesKeepIdsApart(st.follower.openOrders, frame.updates);
    }
  }

  lemma PositionsAreQuiet(cfg: Config, st: State, frame: Frame, receivedMs: int)
    requires StateOk(cfg, st) && frame.PositionsFrame?
    ensures Quiet(cfg, st, ReducePositions(cfg, st, frame, receivedMs))
  {
    if ReducePositions(cfg, st, frame, receivedMs).Accepted? {
      PositionFrameClocks(cfg, st, frame, receivedMs);
    }
  }

  lemma OtherFramesAreQuiet(cfg: Config, st: State, input: Input)
    requires StateOk(cfg, st) && input.Deliver? && !input.frame.FillsFrame?
    ensures Quiet(cfg, st, OutcomeOf(cfg, st, input))
  {
    if FrameFits(st, input.epoch, input.receivedMs) {
      match input.frame
      case PositionsFrame(_, _) => PositionsAreQuiet(cfg, st, input.frame, input.receivedMs);
      case SpotFrame(_, _, _, _) => SpotIsQuiet(cfg, st, input.frame, input.receivedMs);
      case OpenOrdersFrame(_, _) => OpenOrdersAreQuiet(cfg, st, input.frame, input.receivedMs);
      case OrderUpdatesFrame(_) => OrderUpdatesAreQuiet(cfg, st, input.frame, input.receivedMs);
      case MalformedFrame =>
    }
  }

  lemma OtherInputsKeepMemory(cfg: Config, st: State, input: Input)
    requires StateOk(cfg, st)
    requires OutcomeOf(cfg, st, input).Accepted? ==> !input.frame.FillsFrame?
    ensures After(cfg, st, input).order == st.order
    ensures Handed(cfg, st, input) == [] && Touches(cfg, st, input) == []
    ensures StateOk(cfg, After(cfg, st, input))
  {
    if OutcomeOf(cfg, st, input).Accepted? {
      OtherFramesAreQuiet(cfg, st, input);
      assert Ids([]) == [];
    }
  }

  lemma TouchLogAppend(log: seq<Touched>, t: Touched)
    ensures History(log + [t]) == History(log) + t.ids
    ensures forall cap :: Deliveries(cap, log + [t])
                          == Deliveries(cap, log) + if t.live then NewOf(Newest(cap, Recency(History(log))), t.ids)
                              else []
  {
    assert (log + [t])[..|log|] == log;
  }

  ghost predicate MemoryMirrors(cfg: Config, st: State, log: seq<Touched>, handed: seq<FillId>)
    requires cfg.capacity > 0
  {
    && StateOk(cfg, st)
    && st.order == Newest(cfg.capacity, Recency(History(log)))
    && handed == Deliveries(cfg.capacity, log)
    && (forall t <- log :: NoRepeats(t.ids))
  }

  lemma MemoryStep(cfg: Config, st: State, log: seq<Touched>, handed: seq<FillId>, input: Input)
    requires cfg.capacity > 0 && MemoryMirrors(cfg, st, log, handed)
    ensures MemoryMirrors(cfg, After(cfg, st, input), log + Touches(cfg, st, input), handed + Handed(cfg, st, input))
  {
    var out := OutcomeOf(cfg, st, input);
    if out.Accepted? && input.frame.FillsFrame? {
      FillFrameEffect(cfg, st, input);
      var t := Touched(Ids(FrameFills(cfg, st, input)), !out.update.initialSnapshot);
      FrameExtendsHistory(cfg.capacity, History(log), t.ids);
      TouchLogAppend(log, t);
    } else {
      OtherInputsKeepMemory(cfg, st, input);
      assert log + [] == log && handed + [] == handed;
    }
  }

  /**
   In every run the memory is exactly the `capacity` most recently touched distinct identities of the whole
   history, over both fill channels and all connections, and what is handed over is what that memory calls new.
   The held orders never share an id.
   */
  lemma {:induction false} MemoryIsMostRecent(cfg: Config, scopes: Scopes, inputs: seq<Input>)
    requires cfg.capacity > 0
    ensures MemoryMirrors(cfg, RunFrom(cfg, Start(scopes), inputs), TouchLog(cfg, Start(scopes), inputs),
                          HandedLog(cfg, Start(scopes), inputs))
  {
    if inputs != [] {
      var init, last := inputs[..|inputs| - 1], inputs[|inputs| - 1];
      MemoryIsMostRecent(cfg, scopes, init);
      MemoryStep(cfg, RunFrom(cfg, Start(scopes), init), TouchLog(cfg, Start(scopes), init),
                 HandedLog(cfg, Start(scopes), init), last);
    }
  }

  /**
   A fill identity is handed over again only if at least `capacity` other identities were touched in between;
   while no more than `capacity` identities appear at all, each is handed over at most once.
   */
  lemma FillsAreHandedOverOnce(cfg: Config, scopes: Scopes, inputs: seq<Input>)
    requires cfg.capacity > 0
    ensures |Distinct(History(TouchLog(cfg, Start(scopes), inputs)))| <= cfg.capacity
            ==> NoRepeats(HandedLog(cfg, Start(scopes), inputs))
  {
    MemoryIsMostRecent(cfg, scopes, inputs);
    if |Distinct(History(TouchLog(cfg, Start(scopes), inputs)))| <= cfg.capacity {
      DeliveredAtMostOnce(cfg.capacity, TouchLog(cfg, Start(scopes), inputs));
    }
  }

  /** A fill handed over now either never appeared before or was pushed out by `capacity` other identities. */
  lemma HandedOverAgainIff(cfg: Config, scopes: Scopes, past: seq<Input>, input: Input, id: FillId)
    requires cfg.capacity > 0
    requires var st := RunFrom(cfg, Start(scopes), past);
             OutcomeOf(cfg, st, input).Accepted? && input.frame.FillsFrame?
             && !OutcomeOf(cfg, st, input).update.initialSnapshot && id in Ids(FrameFills(cfg, st, input))
    ensures var st, history := RunFrom(cfg, Start(scopes), past), History(TouchLog(cfg, Start(scopes), past));
            id in Handed(cfg, st, input)
            <==> (id !in history || |Distinct(SinceLast(history, id))| >= cfg.capacity)
  {
    var st, history := RunFrom(cfg, Start(scopes), past), History(TouchLog(cfg, Start(scopes), past));
    MemoryIsMostRecent(cfg, scopes, past);
    FillFrameEffect(cfg, st, input);
    NewOfMembers(st.order, Ids(FrameFills(cfg, st, input)));
    NewIff(cfg.capacity, history, id);
  }

  // ---------- Positions ----------

  lemma LiveRecordsChain(cfg: Config, st: State, role: Role, part: Component, records: seq<Fill>, receivedMs: int)
    requires ReduceRecords(cfg, st, role, part, false, records, receivedMs).Accepted?
    ensures var out := ReduceRecords(cfg, st, role, part, false, records, receivedMs);
            var chain := Chain(st.Of(role).positions, out.update.newFills);
            && out.update.role == role && !out.update.initialSnapshot
            && chain.Ok? && out.state.Of(role).positions == chain.value
            && out.state.Of(Other(role)) == st.Of(Other(role))
  {
    MovedChains(st.Of(role), NewRecords(Unique(records), st.prints), receivedMs);
  }

  lemma MovedChains(a: Account, added: seq<Fill>, receivedMs: int)
    ensures var moved, chain := Moved(a, false, added, receivedMs), Chain(a.positions, added);
            (moved.Some? <==> chain.Ok?) && (moved.Some? ==> moved.value.positions == chain.value)
  {
  }

  lemma LiveFrameChains(cfg: Config, st: State, input: Input)
    requires StateOk(cfg, st) && OutcomeOf(cfg, st, input).Accepted? && input.frame.FillsFrame?
    requires !OutcomeOf(cfg, st, input).update.initialSnapshot
    ensures var out := OutcomeOf(cfg, st, input);
            var role := out.update.role;
            var chain := Chain(st.Of(role).positions, out.update.newFills);
            && chain.Ok? && out.state.Of(role).positions == chain.value
            && out.state.Of(Other(role)) == st.Of(Other(role))
  {
    var f := input.frame;
    var role := RoleOf(cfg, f.account).value;
    var part := if f.twap then TwapPart else FillsPart;
    var flag := SnapshotFlag(f.declared, part in st.Of(role).receivedMs).value;
    var records := Records(cfg, st.scopes, role, Reading(f.account, input.receivedMs, st.epoch, flag), f.rows);
    assert !flag;
    LiveRecordsChain(cfg, st, role, part, records, input.receivedMs);
  }

  function Other(role: Role): Role { if role.Source? then Follower else Source }

  /**
   An accepted live fill frame moves exactly the markets of its new fills: each ends at start plus signed size
   of its last new fill and moves by the sizes not yet reflected. The other account does not change.
   */
  lemma LiveFillsMovePositions(cfg: Config, st: State, input: Input, m: Market)
    requires StateOk(cfg, st) && OutcomeOf(cfg, st, input).Accepted? && input.frame.FillsFrame?
    requires !OutcomeOf(cfg, st, input).update.initialSnapshot
    ensures var out := OutcomeOf(cfg, st, input);
            var role, added := out.update.role, out.update.newFills;
            var before, after := st.Of(role).positions, out.state.Of(role).positions;
            var last := LastIn(added, m);
            && Chain(before, added).Ok?
            && SizeOf(after, m) - SizeOf(before, m) == AppliedSum(before, added, m)
            && (last.None? <==> forall f <- added :: f.market != m)
            && (last.None? ==> (m in after <==> m in before) && (m in before ==> after[m] == before[m]))
            && (last.Some? ==> last.value.start.Some? && SizeOf(after, m) == last.value.End())
            && (last.Some? && last.value.buy ==> SizeOf(after, m) == last.value.start.value + last.value.size)
            && (last.Some? && !last.value.buy ==> SizeOf(after, m) == last.value.start.value - last.value.size)
            && SizeOf(after, m) - SizeOf(before, m) == Taken(before, added, m, true) - Taken(before, added, m, false)
            && out.state.Of(Other(role)) == st.Of(Other(role))
  {
    LiveFrameChains(cfg, st, input);
    var out := OutcomeOf(cfg, st, input);
    ChainMeaning(st.Of(out.update.role).positions, out.update.newFills, m);
    LastInIsNone(out.update.newFills, m);
  }

  // ---------- Clocks within one connection ----------

  lemma {:induction false} ClocksWithGrow(clocks: map<string, int>, fills: seq<Fill>)
    ensures forall dex <- clocks :: dex in ClocksWith(clocks, fills) && clocks[dex] <= ClocksWith(clocks, fills)[dex]
    ensures forall f <- fills ::
              f.market.dex in ClocksWith(clocks, fills) && f.timeMs <= ClocksWith(clocks, fills)[f.market.dex]
  {
    if fills != [] {
      var n := |fills| - 1;
      ClocksWithGrow(clocks, fills[..n]);
      assert fills == fills[..n] + [fills[n]];
    }
  }

  lemma {:induction false} ClocksFromKeep(clocks: map<string, int>, dexes: seq<DexState>)
    requires Apart(dexes)
    ensures forall d <- dexes :: d.dex in ClocksFrom(clocks, dexes) && ClocksFrom(clocks, dexes)[d.dex] == d.observedMs
    ensures forall dex :: (forall d <- dexes :: d.dex != dex) ==>
              (dex in ClocksFrom(clocks, dexes) <==> dex in clocks)
              && (dex in clocks ==> ClocksFrom(clocks, dexes)[dex] == clocks[dex])
  {
    if dexes != [] {
      var n := |dexes| - 1;
      ClocksFromKeep(clocks, dexes[..n]);
      assert dexes == dexes[..n] + [dexes[n]];
    }
  }

  ghost predicate ClocksGrow(a: Account, b: Account) {
    forall dex <- a.dexObservedMs :: dex in b.dexObservedMs && a.dexObservedMs[dex] <= b.dexObservedMs[dex]
  }

  lemma PositionFrameClocks(cfg: Config, st: State, frame: Frame, receivedMs: int)
    requires frame.PositionsFrame? && ReducePositions(cfg, st, frame, receivedMs).Accepted?
    ensures var out := ReducePositions(cfg, st, frame, receivedMs);
            var a, b := st.Of(out.update.role), out.state.Of(out.update.role);
            && ClocksGrow(a, b)
            && (forall d <- frame.dexes :: d.observedMs >= a.DexClock(d.dex))
  {
    var a := st.Of(RoleOf(cfg, frame.account).value);
    ClocksFromKeep(a.dexObservedMs, frame.dexes);
    forall dex | dex in a.dexObservedMs
      ensures dex in ClocksFrom(a.dexObservedMs, frame.dexes)
              && a.dexObservedMs[dex] <= ClocksFrom(a.dexObservedMs, frame.dexes)[dex]
    {
      if d :| d in frame.dexes && d.dex == dex {
        assert ClocksAllow(a, d);
      }
    }
  }

  lemma FillFrameClocks(cfg: Config, st: State, input: Input)
    requires StateOk(cfg, st) && OutcomeOf(cfg, st, input).Accepted? && input.frame.FillsFrame?
    ensures var out := OutcomeOf(cfg, st, input);
            var a, b := st.Of(out.update.role), out.state.Of(out.update.role);
            && ClocksGrow(a, b)
            && (forall f <- out.update.newFills ::
                  f.market.dex in b.dexObservedMs && f.timeMs <= b.dexObservedMs[f.market.dex])
            && out.state.Of(Other(out.update.role)) == st.Of(Other(out.update.role))
  {
    var out := OutcomeOf(cfg, st, input);
    ClocksWithGrow(st.Of(out.update.role).dexObservedMs, out.update.newFills);
    if !out.update.initialSnapshot {
      LiveFrameChains(cfg, st, input);
    }
  }

  /** Short of a reconnect no input ever moves a DEX clock back. */
  lemma StepKeepsClocks(cfg: Config, st: State, input: Input, role: Role)
    requires StateOk(cfg, st) && !input.Begin?
    ensures ClocksGrow(st.Of(role), After(cfg, st, input).Of(role))
  {
    var out := OutcomeOf(cfg, st, input);
    if out.Accepted? {
      if input.frame.FillsFrame? {
        FillFrameClocks(cfg, st, input);
      } else {
        OtherFramesAreQuiet(cfg, st, input);
      }
    }
  }

  lemma StepKeepsOk(cfg: Config, st: State, input: Input)
    requires StateOk(cfg, st)
    ensures StateOk(cfg, After(cfg, st, input))
  {
    if OutcomeOf(cfg, st, input).Accepted? && input.frame.FillsFrame? {
      FillFrameEffect(cfg, st, input);
    } else {
      OtherInputsKeepMemory(cfg, st, input);
    }
  }

  lemma {:induction false} RunKeepsClocks(cfg: Config, st: State, inputs: seq<Input>, role: Role)
    requires StateOk(cfg, st) && forall i <- inputs :: !i.Begin?
    ensures StateOk(cfg, RunFrom(cfg, st, inputs))
    ensures ClocksGrow(st.Of(role), RunFrom(cfg, st, inputs).Of(role))
  {
    if inputs != [] {
      var init, last := inputs[..|inputs| - 1], inputs[|inputs| - 1];
      RunKeepsClocks(cfg, st, init, role);
      StepKeepsClocks(cfg, RunFrom(cfg, st, init), last, role);
      StepKeepsOk(cfg, RunFrom(cfg, st, init), last);
      assert last in inputs;
    }
  }

  /**
   Within one connection no accepted position snapshot of a DEX is older than any live fill of that DEX
   applied before it, however many other inputs come in between.
   */
  lemma SnapshotsNeverPredateFills(cfg: Config, st: State, fill: Input, between: seq<Input>, snapshot: Input, f: Fill,
                                   d: DexState)
    requires StateOk(cfg, st)
    requires OutcomeOf(cfg, st, fill).Accepted? && f in OutcomeOf(cfg, st, fill).update.newFills
    requires forall i <- between :: !i.Begin?
    requires var later := RunFrom(cfg, After(cfg, st, fill), between);
             && OutcomeOf(cfg, later, snapshot).Accepted? && snapshot.frame.PositionsFrame?
             && OutcomeOf(cfg, later, snapshot).update.role == OutcomeOf(cfg, st, fill).update.role
    requires d in snapshot.frame.dexes && d.dex == f.market.dex
    ensures d.observedMs >= f.timeMs
  {
    var role := OutcomeOf(cfg, st, fill).update.role;
    var next := After(cfg, st, fill);
    if !fill.frame.FillsFrame? {
      OtherFramesAreQuiet(cfg, st, fill);
    } else {
      StepKeepsOk(cfg, st, fill);
      FillFrameClocks(cfg, st, fill);
      RunKeepsClocks(cfg, next, between, role);
      PositionFrameClocks(cfg, RunFrom(cfg, next, between), snapshot.frame, snapshot.receivedMs);
    }
  }

  /** An accepted snapshot leaves exactly the positions its DEX states list. */
  lemma SnapshotSetsPositions(cfg: Config, st: State, input: Input, m: Market, d: DexState)
    requires OutcomeOf(cfg, st, input).Accepted? && input.frame.PositionsFrame? && d in input.frame.dexes
    ensures var after := OutcomeOf(cfg, st, input).state.Of(OutcomeOf(cfg, st, input).update.role).positions;
            && (m in d.positions ==> m in after && after[m] == d.positions[m])
            && (m in after ==> exists e <- input.frame.dexes :: m in e.positions && after[m] == e.positions[m])
  {
    MergedKeeps(input.frame.dexes, d);
    if m in Merged(input.frame.dexes) {
      var e := MergedComesFrom(input.frame.dexes, m);
      MergedKeeps(input.frame.dexes, e);
    }
  }

  // ---------- A standard source's equity always belongs to its current scope ----------

  /** No value is negative and one is positive, so the total is positive. */
  ghost predicate SoundEquity(equity: map<string, real>) {
    (forall d <- equity :: equity[d] >= 0.0) && exists d <- equity :: equity[d] > 0.0
  }

  /** Equity that counts as received covers exactly the DEXes of the current scope, and is positive in total. */
  ghost predicate EquityFits(cfg: Config, st: State) {
    cfg.standard && PerpEquityPart in st.source.receivedMs ==>
      st.source.perpEquity.Keys == DexSet(st.scopes) && SoundEquity(st.source.perpEquity)
  }

  lemma {:induction false} PositiveSumHasPositive(dexes: seq<DexState>, names: seq<string>) returns (n: string)
    requires EquitySum(dexes, names) > 0.0
    ensures n in names && DexNamed(dexes, n).Some? && DexNamed(dexes, n).value.equity.Some?
    ensures DexNamed(dexes, n).value.equity.value > 0.0
  {
    var d := DexNamed(dexes, names[0]);
    if d.Some? && d.value.equity.Some? && d.value.equity.value > 0.0 {
      n := names[0];
    } else {
      n := PositiveSumHasPositive(dexes, names[1..]);
    }
  }

  /** The equity a frame may set is sound and covers the names asked for. */
  lemma AllowedEquityIsSound(dexes: seq<DexState>, positions: Positions, names: seq<string>)
    requires EquityAllows(dexes, positions, names)
    ensures SoundEquity(EquityMap(dexes, names)) && forall n :: n in EquityMap(dexes, names) <==> n in names
  {
    var equity := EquityMap(dexes, names);
    forall n | n in names ensures n in equity && equity[n] >= 0.0 {
      assert EquityKnown(dexes, positions, n);
    }
    var n := PositiveSumHasPositive(dexes, names);
    assert equity[n] > 0.0;
  }

  lemma PositionsKeepEquityFit(cfg: Config, st: State, frame: Frame, receivedMs: int)
    requires EquityFits(cfg, st) && frame.PositionsFrame?
    ensures var out := ReducePositions(cfg, st, frame, receivedMs); out.Accepted? ==> EquityFits(cfg, out.state)
  {
    var out := ReducePositions(cfg, st, frame, receivedMs);
    var names := SourceDexes(st.scopes);
    if out.Accepted? && RoleOf(cfg, frame.account) == Some(Source) && cfg.standard {
      AllowedEquityIsSound(frame.dexes, Merged(frame.dexes), names);
      assert EquityMap(frame.dexes, names).Keys == DexSet(st.scopes);
    }
  }

  lemma MovedKeepsEquity(a: Account, isSnapshot: bool, added: seq<Fill>, receivedMs: int)
    ensures var moved := Moved(a, isSnapshot, added, receivedMs);
            moved.Some? ==> moved.value.perpEquity == a.perpEquity
                            && (PerpEquityPart in moved.value.receivedMs <==> PerpEquityPart in a.receivedMs)
  {
  }

  lemma RecordsKeepEquity(cfg: Config, st: State, role: Role, part: Component, isSnapshot: bool, records: seq<Fill>,
                          receivedMs: int)
    requires part == FillsPart || part == TwapPart
    ensures var out := ReduceRecords(cfg, st, role, part, isSnapshot, records, receivedMs);
            out.Accepted? ==> out.state.source.perpEquity == st.source.perpEquity && out.state.scopes == st.scopes
                              && (PerpEquityPart in out.state.source.receivedMs
                                  <==> PerpEquityPart in st.source.receivedMs)
  {
    MovedKeepsEquity(st.Of(role), isSnapshot, NewRecords(Unique(records), st.prints), receivedMs);
  }

  lemma FillsKeepEquityFit(cfg: Config, st: State, frame: Frame, receivedMs: int)
    requires EquityFits(cfg, st) && frame.FillsFrame?
    ensures var out := ReduceFills(cfg, st, frame, receivedMs); out.Accepted? ==> EquityFits(cfg, out.state)
  {
    var out := ReduceFills(cfg, st, frame, receivedMs);
    if out.Accepted? {
      var role := RoleOf(cfg, frame.account).value;
      var part := if frame.twap then TwapPart else FillsPart;
      var flag := SnapshotFlag(frame.declared, part in st.Of(role).receivedMs).value;
      var records := Records(cfg, st.scopes, role, Reading(frame.account, receivedMs, st.epoch, flag), frame.rows);
      RecordsKeepEquity(cfg, st, role, part, flag, records, receivedMs);
    }
  }

  lemma StepKeepsEquityFit(cfg: Config, st: State, input: Input)
    requires EquityFits(cfg, st)
    ensures EquityFits(cfg, After(cfg, st, input))
  {
    if input.Deliver? && OutcomeOf(cfg, st, input).Accepted? {
      match input.frame
      case PositionsFrame(_, _) => PositionsKeepEquityFit(cfg, st, input.frame, input.receivedMs);
      case FillsFrame(_, _, _, _) => FillsKeepEquityFit(cfg, st, input.frame, input.receivedMs);
      case _ =>
    }
  }

  /** In every run, through scope changes and reconnects, received equity belongs to the current scope. */
  lemma {:induction false} EquityAlwaysFitsScope(cfg: Config, scopes: Scopes, inputs: seq<Input>)
    ensures EquityFits(cfg, RunFrom(cfg, Start(scopes), inputs))
  {
    if inputs != [] {
      EquityAlwaysFitsScope(cfg, scopes, inputs[..|inputs| - 1]);
      StepKeepsEquityFit(cfg, RunFrom(cfg, Start(scopes), inputs[..|inputs| - 1]), inputs[|inputs| - 1]);
    }
  }

  // ---------- Good live frames go through ----------

  lemma {:induction false} DistinctRecordsStand(records: seq<Fill>)
    requires NoRepeats(Ids(records))
    ensures Unique(records) == records
  {
    if records != [] {
      var n := |records| - 1;
      var init, last := records[..n], records[n];
      assert records == init + [last];
      IdsAppend(init, last);
      NoRepeatsConcat(Ids(init), [last.Identity()]);
      DistinctRecordsStand(init);
      FindMeans(init, last.Identity());
    }
  }

  lemma DistinctRecordsAgree(records: seq<Fill>)
    requires NoRepeats(Ids(records))
    ensures !SelfConflict(records)
  {
    forall x | x in records ensures SameContents(Find(records, x.Identity()), x) {
      var k :| 0 <= k < |records| && records[k] == x;
      assert Ids(records)[k] == x.Identity();
      FindMeans(records, x.Identity());
      var y := Find(records, x.Identity()).value;
      var j :| 0 <= j < |records| && records[j] == y;
      assert Ids(records)[j] == y.Identity();
    }
  }

  lemma {:induction false} UnseenAreNew(records: seq<Fill>, prints: map<FillId, Fingerprint>)
    requires forall x <- records :: x.Identity() !in prints
    ensures NewRecords(records, prints) == records && !MemoryConflict(records, prints)
  {
    if records != [] {
      var n := |records| - 1;
      UnseenAreNew(records[..n], prints);
      assert records == records[..n] + [records[n]];
    }
  }

  lemma {:induction false} RecordsHaveSize(cfg: Config, scopes: Scopes, role: Role, how: Reading, rows: seq<FillRow>)
    requires forall row <- rows :: !BadRow(cfg, scopes, role, row)
    ensures forall f <- Records(cfg, scopes, role, how, rows) :: f.size > 0.0
  {
    if rows != [] {
      RecordsHaveSize(cfg, scopes, role, how, rows[..|rows| - 1]);
      assert rows[|rows| - 1] in rows;
    }
  }

  /** The fills a live frame of the current connection comes to. */
  ghost function LiveRecords(cfg: Config, st: State, role: Role, frame: Frame, t: int): seq<Fill>
    requires frame.FillsFrame?
  {
    Records(cfg, st.scopes, role, Reading(frame.account, t, st.epoch, false), frame.rows)
  }

  /** Unseen, distinct fills that continue the account's positions. */
  ghost predicate Good(st: State, role: Role, records: seq<Fill>) {
    && NoRepeats(Ids(records))
    && (forall x <- records :: x.Identity() !in st.prints)
    && forall m :: Continuous(records, m, SizeOf(st.Of(role).positions, m))
  }

  lemma GoodRecordsAreAccepted(cfg: Config, st: State, role: Role, part: Component, records: seq<Fill>, t: int)
    requires Good(st, role, records) && forall f <- records :: f.size > 0.0
    ensures var out := ReduceRecords(cfg, st, role, part, false, records, t);
            out.Accepted? && out.update.newFills == records && !out.update.initialSnapshot
                && out.update.duplicateFills == 0
  {
    DistinctRecordsStand(records);
    DistinctRecordsAgree(records);
    UnseenAreNew(records, st.prints);
    ContinuousIsAccepted(st.Of(role).positions, records);
  }

  /** After its feed's snapshot, a live frame of good fills is never refused: every fill is handed over and applied. */
  lemma GoodLiveFrameIsAccepted(cfg: Config, st: State, role: Role, frame: Frame, t: int, m: Market)
    requires frame.FillsFrame? && FrameFits(st, st.epoch, t) && RoleOf(cfg, frame.account) == Some(role)
    requires (if frame.twap then TwapPart else FillsPart) in st.Of(role).receivedMs && frame.declared != Some(true)
    requires forall row <- frame.rows :: !BadRow(cfg, st.scopes, role, row)
    requires Good(st, role, LiveRecords(cfg, st, role, frame, t))
    ensures var out := OutcomeOf(cfg, st, Deliver(frame, st.epoch, t));
            out.Accepted? && out.update.newFills == LiveRecords(cfg, st, role, frame, t) && !out.update.initialSnapshot
    ensures AppliedSum(st.Of(role).positions, LiveRecords(cfg, st, role, frame, t), m)
            == SumIn(LiveRecords(cfg, st, role, frame, t), m)
  {
    var records := LiveRecords(cfg, st, role, frame, t);
    RecordsHaveSize(cfg, st.scopes, role, Reading(frame.account, t, st.epoch, false), frame.rows);
    GoodRecordsAreAccepted(cfg, st, role, if frame.twap then TwapPart else FillsPart, records, t);
    ContinuousIsAccepted(st.Of(role).positions, records);
  }
}
