/**
 The follower's order list over whole runs: snapshots and updates arrive among frames of every other channel,
 refused frames, scope changes and reconnects.
 */
module OrderRuns {
  import opened Outcomes
  import opened OpenOrders
  import opened AccountStream
  import opened StreamRuns

  // The latest snapshot of the current connection (empty before the first) and the updates accepted since.
  datatype Log = Log(snapshot: seq<OpenOrder>, since: seq<OrderUpdate>)

  ghost function NextLog(cfg: Config, at: State, input: Input, log: Log): Log {
    if input.Begin? then (if input.receivedMs < 0 then log else Log([], []))
    else if !OutcomeOf(cfg, at, input).Accepted? then log
    else
      match input.frame
      case OpenOrdersFrame(_, orders) => Log(orders, [])
      case OrderUpdatesFrame(updates) => Log(log.snapshot, log.since + updates)
      case _ => log
  }

  ghost function OrderLog(cfg: Config, st: State, inputs: seq<Input>): Log {
    if inputs == [] then Log(st.follower.openOrders, [])
    else
      var init, last := inputs[..|inputs| - 1], inputs[|inputs| - 1];
      NextLog(cfg, RunFrom(cfg, st, init), last, OrderLog(cfg, st, init))
  }

  /** The held list is the snapshot of the log edited by its updates. */
  ghost predicate Explains(log: Log, held: seq<OpenOrder>) {
    EditAll(log.snapshot, log.since) == Ok(held) && NoSharedIds(log.snapshot)
  }

  lemma FillsKeepOrders(cfg: Config, st: State, frame: Frame, t: int)
    requires frame.FillsFrame? && ReduceFills(cfg, st, frame, t).Accepted?
    ensures ReduceFills(cfg, st, frame, t).state.follower.openOrders == st.follower.openOrders
  {
    FillsComeToRecords(cfg, st, frame, t);
  }

  lemma PositionsKeepOrders(cfg: Config, st: State, frame: Frame, t: int)
    requires frame.PositionsFrame? && ReducePositions(cfg, st, frame, t).Accepted?
    ensures ReducePositions(cfg, st, frame, t).state.follower.openOrders == st.follower.openOrders
  {
  }

  lemma SpotKeepsOrders(cfg: Config, st: State, frame: Frame, t: int)
    requires frame.SpotFrame? && ReduceSpot(cfg, st, frame, t).Accepted?
    ensures ReduceSpot(cfg, st, frame, t).state.follower.openOrders == st.follower.openOrders
  {
  }

  lemma UpdatesExtendLog(log: Log, held: seq<OpenOrder>, updates: seq<OrderUpdate>)
    requires Explains(log, held) && EditAll(held, updates).Ok?
    ensures Explains(Log(log.snapshot, log.since + updates), EditAll(held, updates).value)
  {
    EditsCompose(log.snapshot, log.since, updates);
  }

  lemma DeliverKeepsLog(cfg: Config, st: State, input: Input, log: Log)
    requires Explains(log, st.follower.openOrders) && input.Deliver? && OutcomeOf(cfg, st, input).Accepted?
    ensures Explains(NextLog(cfg, st, input, log), After(cfg, st, input).follower.openOrders)
  {
    match input.frame
    case PositionsFrame(_, _) => PositionsKeepOrders(cfg, st, input.frame, input.receivedMs);
    case SpotFrame(_, _, _, _) => SpotKeepsOrders(cfg, st, input.frame, input.receivedMs);
    case OpenOrdersFrame(_, orders) =>
    case OrderUpdatesFrame(updates) => UpdatesExtendLog(log, st.follower.openOrders, updates);
    case FillsFrame(_, _, _, _) => FillsKeepOrders(cfg, st, input.frame, input.receivedMs);
    case MalformedFrame =>
  }

  /** In every run the held list is the latest snapshot edited by exactly the updates accepted since. */
  lemma {:induction false} HeldFollowsLog(cfg: Config, scopes: Scopes, inputs: seq<Input>)
    ensures Explains(OrderLog(cfg, Start(scopes), inputs), RunFrom(cfg, Start(scopes), inputs).follower.openOrders)
  {
    if inputs != [] {
      var init, last := inputs[..|inputs| - 1], inputs[|inputs| - 1];
      HeldFollowsLog(cfg, scopes, init);
      var st := RunFrom(cfg, Start(scopes), init);
      if last.Deliver? && OutcomeOf(cfg, st, last).Accepted? {
        DeliverKeepsLog(cfg, st, last, OrderLog(cfg, Start(scopes), init));
      }
    }
  }

  /**
   In every run whose updates pair each order id with one client id: an order is held exactly when the latest update of
   its id since the last snapshot was open and is that order, or it was in that snapshot and has no later update.
   */
  lemma HeldSinceSnapshotIff(cfg: Config, scopes: Scopes, inputs: seq<Input>, pair: Pairing, o: OpenOrder)
    requires IsPairing(pair) && o.oid.Some?
    requires var log := OrderLog(cfg, Start(scopes), inputs);
             AllPaired(log.snapshot, pair) && UpdatesPaired(log.since, pair)
    ensures var log := OrderLog(cfg, Start(scopes), inputs);
            var latest := LatestFor(log.since, o.oid.value);
            o in RunFrom(cfg, Start(scopes), inputs).follower.openOrders
            <==> if latest.Some? then latest.value.status.Open? && latest.value.order == o else o in log.snapshot
  {
    var log := OrderLog(cfg, Start(scopes), inputs);
    HeldFollowsLog(cfg, scopes, inputs);
    AcceptedAreProper(log.snapshot, log.since);
    HeldIff(log.snapshot, log.since, pair, o);
  }
}
