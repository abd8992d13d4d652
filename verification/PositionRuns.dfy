/**
 An account's positions over whole runs: snapshots and live fills of both feeds arrive among frames of every other
 channel, refused frames, scope changes and reconnects.
 */
module PositionRuns {
  import opened Outcomes
  import opened FillChain
  import opened AccountStream
  import opened StreamRuns

  // The latest position snapshot of the connection (empty before the first) and the fills handed over since.
  datatype Log = Log(snapshot: Positions, since: seq<Fill>)

  ghost function NextLog(cfg: Config, role: Role, at: State, input: Input, log: Log): Log {
    var out := OutcomeOf(cfg, at, input);
    if input.Begin? then (if input.receivedMs < 0 then log else Log(map[], []))
    else if !out.Accepted? || out.update.role != role then log
    else
      match input.frame
      case PositionsFrame(_, dexes) => Log(Merged(dexes), [])
      case FillsFrame(_, _, _, _) => Log(log.snapshot, log.since + out.update.newFills)
      case _ => log
  }

  ghost function PositionLog(cfg: Config, role: Role, scopes: Scopes, inputs: seq<Input>): Log {
    if inputs == [] then Log(map[], [])
    else
      var init, last := inputs[..|inputs| - 1], inputs[|inputs| - 1];
      NextLog(cfg, role, RunFrom(cfg, Start(scopes), init), last, PositionLog(cfg, role, scopes, init))
  }

  /** The positions are the snapshot of the log moved by its fills, which form one valid chain. */
  ghost predicate Explains(log: Log, positions: Positions) { Chain(log.snapshot, log.since) == Ok(positions) }

  /** Moving by one frame's fills and then by another's is moving by both. */
  lemma {:induction false} ChainsCompose(ps: Positions, a: seq<Fill>, b: seq<Fill>)
    ensures Chain(ps, a + b) == if Chain(ps, a).Ok? then Chain(Chain(ps, a).value, b) else Chain(ps, a)
    decreases a
  {
    if a == [] {
      assert a + b == b;
    } else {
      assert (a + b)[1..] == a[1..] + b;
      if ChainStep(ps, a[0]).Ok? {
        ChainsCompose(ChainStep(ps, a[0]).value, a[1..], b);
      }
    }
  }

  lemma FillsExtendLog(log: Log, positions: Positions, added: seq<Fill>)
    requires Explains(log, positions) && Chain(positions, added).Ok?
    ensures Explains(Log(log.snapshot, log.since + added), Chain(positions, added).value)
  {
    ChainsCompose(log.snapshot, log.since, added);
  }

  /** A fill frame moves its own account by the fills it hands over, and the other account not at all. */
  lemma RecordsMove(cfg: Config, st: State, role: Role, part: Component, isSnapshot: bool, records: seq<Fill>, t: int)
    requires ReduceRecords(cfg, st, role, part, isSnapshot, records, t).Accepted?
    ensures var out := ReduceRecords(cfg, st, role, part, isSnapshot, records, t);
            && out.update.role == role
            && Chain(st.Of(role).positions, out.update.newFills) == Ok(out.state.Of(role).positions)
            && out.state.Of(Other(role)) == st.Of(Other(role))
  {
    if !isSnapshot {
      LiveRecordsChain(cfg, st, role, part, records, t);
    }
  }

  lemma FillsMove(cfg: Config, st: State, frame: Frame, t: int)
    requires frame.FillsFrame? && ReduceFills(cfg, st, frame, t).Accepted?
    ensures var out := ReduceFills(cfg, st, frame, t);
            var role := out.update.role;
            && Chain(st.Of(role).positions, out.update.newFills) == Ok(out.state.Of(role).positions)
            && out.state.Of(Other(role)) == st.Of(Other(role))
  {
    FillsComeToRecords(cfg, st, frame, t);
    var role, part := RoleOf(cfg, frame.account).value, if frame.twap then TwapPart else FillsPart;
    var flag := SnapshotFlag(frame.declared, part in st.Of(role).receivedMs).value;
    var records := Records(cfg, st.scopes, role, Reading(frame.account, t, st.epoch, flag), frame.rows);
    RecordsMove(cfg, st, role, part, flag, records, t);
  }

  lemma PositionsReplace(cfg: Config, st: State, frame: Frame, t: int)
    requires frame.PositionsFrame? && ReducePositions(cfg, st, frame, t).Accepted?
    ensures var out := ReducePositions(cfg, st, frame, t);
            && out.state.Of(out.update.role).positions == Merged(frame.dexes)
            && out.state.Of(Other(out.update.role)) == st.Of(Other(out.update.role))
  {
  }

  /** The positions of both accounts are as before. */
  predicate SamePositions(a: State, b: State) {
    a.source.positions == b.source.positions && a.follower.positions == b.follower.positions
  }

  lemma SpotLeaves(cfg: Config, st: State, frame: Frame, t: int)
    requires frame.SpotFrame? && ReduceSpot(cfg, st, frame, t).Accepted?
    ensures SamePositions(ReduceSpot(cfg, st, frame, t).state, st)
  {
  }

  lemma OpenOrdersLeave(cfg: Config, st: State, frame: Frame, t: int)
    requires frame.OpenOrdersFrame? && ReduceOpenOrders(cfg, st, frame, t).Accepted?
    ensures SamePositions(ReduceOpenOrders(cfg, st, frame, t).state, st)
  {
  }

  lemma OrderUpdatesLeave(cfg: Config, st: State, frame: Frame, t: int)
    requires frame.OrderUpdatesFrame? && ReduceOrderUpdates(cfg, st, frame, t).Accepted?
    ensures SamePositions(ReduceOrderUpdates(cfg, st, frame, t).state, st)
  {
  }

  lemma PositionsKeepLog(cfg: Config, role: Role, st: State, input: Input, log: Log)
    requires Explains(log, st.Of(role).positions) && input.Deliver? && OutcomeOf(cfg, st, input).Accepted?
    requires input.frame.PositionsFrame?
    ensures Explains(NextLog(cfg, role, st, input, log), After(cfg, st, input).Of(role).positions)
  {
    PositionsReplace(cfg, st, input.frame, input.receivedMs);
  }

  lemma FillsKeepLog(cfg: Config, role: Role, st: State, input: Input, log: Log)
    requires Explains(log, st.Of(role).positions) && input.Deliver? && OutcomeOf(cfg, st, input).Accepted?
    requires input.frame.FillsFrame?
    ensures Explains(NextLog(cfg, role, st, input, log), After(cfg, st, input).Of(role).positions)
  {
    FillsMove(cfg, st, input.frame, input.receivedMs);
    var out := ReduceFills(cfg, st, input.frame, input.receivedMs);
    if out.update.role == role {
      FillsExtendLog(log, st.Of(role).positions, out.update.newFills);
    }
  }

  lemma OthersKeepLog(cfg: Config, role: Role, st: State, input: Input, log: Log)
    requires Explains(log, st.Of(role).positions) && input.Deliver? && OutcomeOf(cfg, st, input).Accepted?
    requires !input.frame.FillsFrame? && !input.frame.PositionsFrame?
    ensures Explains(NextLog(cfg, role, st, input, log), After(cfg, st, input).Of(role).positions)
  {
    match input.frame
    case SpotFrame(_, _, _, _) => SpotLeaves(cfg, st, input.frame, input.receivedMs);
    case OpenOrdersFrame(_, _) => OpenOrdersLeave(cfg, st, input.frame, input.receivedMs);
    case OrderUpdatesFrame(_) => OrderUpdatesLeave(cfg, st, input.frame, input.receivedMs);
    case MalformedFrame =>
  }

  lemma InputKeepsLog(cfg: Config, role: Role, st: State, input: Input, log: Log)
    requires Explains(log, st.Of(role).positions)
    ensures Explains(NextLog(cfg, role, st, input, log), After(cfg, st, input).Of(role).positions)
  {
    if input.Deliver? && OutcomeOf(cfg, st, input).Accepted? {
      if input.frame.FillsFrame? {
        FillsKeepLog(cfg, role, st, input, log);
      } else if input.frame.PositionsFrame? {
        PositionsKeepLog(cfg, role, st, input, log);
      } else {
        OthersKeepLog(cfg, role, st, input, log);
      }
    }
  }

  /** In every run an account's positions are its latest accepted snapshot moved by exactly the live fills since. */
  lemma {:induction false} PositionsFollowLog(cfg: Config, role: Role, scopes: Scopes, inputs: seq<Input>)
    ensures Explains(PositionLog(cfg, role, scopes, inputs), RunFrom(cfg, Start(scopes), inputs).Of(role).positions)
  {
    if inputs != [] {
      var init, last := inputs[..|inputs| - 1], inputs[|inputs| - 1];
      PositionsFollowLog(cfg, role, scopes, init);
      InputKeepsLog(cfg, role, RunFrom(cfg, Start(scopes), init), last, PositionLog(cfg, role, scopes, init));
    }
  }

  /**
   So in every run each market stands at start plus signed size of its last fill since the snapshot, or as the snapshot
   has it, and has moved by the signed sizes of the fills not already reflected when they came.
   */
  lemma PositionSinceSnapshot(cfg: Config, role: Role, scopes: Scopes, inputs: seq<Input>, m: Market)
    ensures var log, now := PositionLog(cfg, role, scopes, inputs),
            RunFrom(cfg, Start(scopes), inputs).Of(role).positions;
            var last := LastIn(log.since, m);
            && Chain(log.snapshot, log.since).Ok?
            && (last.Some? ==> last.value.start.Some? && SizeOf(now, m) == last.value.End())
            && (last.Some? && last.value.buy ==> SizeOf(now, m) == last.value.start.value + last.value.size)
            && (last.Some? && !last.value.buy ==> SizeOf(now, m) == last.value.start.value - last.value.size)
            && (last.None? ==> (m in now <==> m in log.snapshot) && (m in now ==> now[m] == log.snapshot[m]))
            && SizeOf(now, m) == SizeOf(log.snapshot, m) + AppliedSum(log.snapshot, log.since, m)
            && SizeOf(now, m) == SizeOf(log.snapshot, m) + Taken(log.snapshot, log.since, m, true)
                                 - Taken(log.snapshot, log.since, m, false)
  {
    PositionsFollowLog(cfg, role, scopes, inputs);
    var log := PositionLog(cfg, role, scopes, inputs);
    ChainMeaning(log.snapshot, log.since, m);
  }
}
