/**
 The reducer object itself. Every method leaves the state the specification function gives, and a
 refused frame (a raised error) leaves all of it unchanged.
 */
module StreamReducer {
  import opened Outcomes
  import opened FillDedupe
  import opened FillChain
  import opened OpenOrders
  import opened AccountStream

  class Reducer {
    const cfg: Config
    var epoch: nat
    var lastActivityMs: int
    var source: Account
    var follower: Account
    var order: seq<FillId>
    var prints: map<FillId, Fingerprint>
    var scopes: Scopes

    function Now(): State
      reads this
    {
      State(epoch, lastActivityMs, source, follower, order, prints, scopes)
    }

    ghost predicate Valid()
      reads this
    {
      StateOk(cfg, Now())
    }

    constructor (cfg: Config, scopes: Scopes)
      requires cfg.capacity > 0
      ensures Valid() && this.cfg == cfg
      ensures Now() == State(0, 0, EMPTY_ACCOUNT, EMPTY_ACCOUNT, [], map[], scopes)
    {
      this.cfg := cfg;
      epoch, lastActivityMs := 0, 0;
      source, follower := EMPTY_ACCOUNT, EMPTY_ACCOUNT;
      order, prints := [], map[];
      this.scopes := scopes;
    }

    method SetAccount(role: Role, a: Account)
      modifies this
      ensures Now() == old(Now()).With(role, a)
    {
      if role.Source? { source := a; } else { follower := a; }
    }

    /** A reconnect forgets both accounts but not the fill identities. */
    method BeginConnection(receivedMs: int) returns (r: Option<nat>)
      requires Valid()
      modifies this
      ensures Valid()
      ensures r.None? <==> receivedMs < 0
      ensures Now() == Begun(old(Now()), receivedMs)
      ensures r.Some? ==> r.value == epoch
    {
      if receivedMs < 0 {
        return None;
      }
      epoch := epoch + 1;
      lastActivityMs := receivedMs;
      source, follower := EMPTY_ACCOUNT, EMPTY_ACCOUNT;
      r := Some(epoch);
    }

    method NoteConnectionActivity(frameEpoch: nat, receivedMs: int) returns (ok: bool)
      requires Valid()
      modifies this
      ensures Valid()
      ensures ok <==> FrameFits(old(Now()), frameEpoch, receivedMs)
      ensures Now() == Noted(old(Now()), frameEpoch, receivedMs)
    {
      ok := FrameFits(Now(), frameEpoch, receivedMs);
      if ok {
        lastActivityMs := Max(lastActivityMs, receivedMs);
      }
    }

    /** A refreshed universe clears a standard source's equity when its DEX set changes. */
    method SetMarketScope(next: Scopes) returns (ok: bool)
      requires Valid()
      modifies this
      ensures Valid()
      ensures ok <==> ScopeFits(cfg, next)
      ensures Now() == Rescoped(cfg, old(Now()), next)
    {
      ok := ScopeFits(cfg, next);
      if ok {
        if cfg.standard && DexSet(next) != DexSet(scopes) {
          source := WithoutEquity(source);
        }
        scopes := next;
      }
    }

    method ApplyFills(frame: Frame, receivedMs: int) returns (r: Option<Update>)
      requires Valid() && frame.FillsFrame?
      modifies this
      ensures Valid()
      ensures Follows(ReduceFills(cfg, old(Now()), frame, receivedMs), old(Now()), Now(), r)
    {
      var role := RoleOf(cfg, frame.account);
      if role.None? { return None; }
      var a := if role.value.Source? then source else follower;
      var part := if frame.twap then TwapPart else FillsPart;
      var flag := SnapshotFlag(frame.declared, part in a.receivedMs);
      if flag.None? { return None; }
      var how := Reading(frame.account, receivedMs, epoch, flag.value);
      var records := ReadRows(cfg, scopes, role.value, how, frame.rows);
      if records.None? { return None; }
      r := ApplyRecords(role.value, part, flag.value, records.value, receivedMs);
    }

    method RememberFrame(added: seq<Fill>, unique: seq<Fill>, ghost records: seq<Fill>)
      requires Valid() && unique == Unique(records) && added == NewRecords(unique, prints)
      modifies this`order, this`prints
      ensures Valid()
      ensures Now() == Memory(cfg.capacity, old(Now()), unique)
    {
      UniqueMeans(records);
      MemoryStaysOk(cfg, Now(), records);
      order, prints := TouchMemory(order, prints, added, unique, cfg.capacity);
    }

    /** Commits a checked frame: first the identity memory, then the account. */
    method CommitRecords(role: Role, c: Checked, moved: Account, receivedMs: int) returns (r: Option<Update>)
      requires Valid() && c.unique == Unique(c.records) && c.added == NewRecords(c.unique, prints)
      requires moved.openOrders == Now().Of(role).openOrders
      modifies this
      ensures Valid()
      ensures Follows(Commit(cfg, old(Now()), role, c, moved, receivedMs), old(Now()), Now(), r)
    {
      var a := if role.Source? then source else follower;
      var latest := LatestRecord(c.records, receivedMs);
      var next := moved.(
        fills := FillList(cfg.capacity, a, c.isSnapshot, c.unique, c.added),
        receivedMs := moved.receivedMs[c.part := receivedMs],
        observedMs := moved.observedMs[c.part := latest]);
      assert next == Recorded(cfg.capacity, a, moved, c.part, c.isSnapshot, c.records, c.unique, c.added, receivedMs);
      RememberFrame(c.added, c.unique, c.records);
      r := Settle(role, next, c.isSnapshot, if c.isSnapshot then [] else c.added, |c.records| - |c.added|);
    }

    /** Stores the account and describes the accepted frame. */
    method Settle(role: Role, next: Account, initial: bool, newFills: seq<Fill>, duplicates: int)
        returns (r: Option<Update>)
      requires Valid() && next.openOrders == Now().Of(role).openOrders
      modifies this
      ensures Valid()
      ensures Follows(Accept(cfg, old(Now()), role, next, initial, newFills, duplicates), old(Now()), Now(), r)
    {
      SetAccount(role, next);
      assert Now() == old(Now()).With(role, next);
      r := Some(Update(role, epoch, initial, BaselineReady(cfg, Now()), newFills, duplicates));
    }

    method ApplyRecords(role: Role, part: Component, isSnapshot: bool, records: seq<Fill>, receivedMs: int)
      returns (r: Option<Update>)
      requires Valid()
      modifies this
      ensures Valid()
      ensures Follows(ReduceRecords(cfg, old(Now()), role, part, isSnapshot, records, receivedMs), old(Now()), Now(), r)
    {
      var a := if role.Source? then source else follower;
      var unique := UniqueRecords(records);
      if unique.None? { return None; }
      var added := SplitNew(unique.value, prints);
      if added.None? { return None; }
      var moved := MovePositions(a, isSnapshot, added.value, receivedMs);
      if moved.None? { return None; }
      r := CommitRecords(role, Checked(part, isSnapshot, records, unique.value, added.value), moved.value, receivedMs);
    }

    method ApplyPositions(frame: Frame, receivedMs: int) returns (r: Option<Update>)
      requires Valid() && frame.PositionsFrame?
      modifies this
      ensures Valid()
      ensures Follows(ReducePositions(cfg, old(Now()), frame, receivedMs), old(Now()), Now(), r)
    {
      var role := RoleOf(cfg, frame.account);
      if role.None? { return None; }
      var a := if role.value.Source? then source else follower;
      var positions := MergeDexes(frame.dexes);
      if positions.None? { return None; }
      if !(forall d <- frame.dexes :: ClocksAllow(a, d)) { return None; }
      var names := SourceDexes(scopes);
      var sized := role.value.Source? && cfg.standard;
      if sized && !EquityAllows(frame.dexes, positions.value, names) { return None; }
      var initial := PositionsPart !in a.receivedMs;
      var seen := a.(positions := positions.value,
                     receivedMs := a.receivedMs[PositionsPart := receivedMs],
                     observedMs := a.observedMs[PositionsPart := LatestOf(frame.dexes)],
                     dexObservedMs := ClocksFrom(a.dexObservedMs, frame.dexes));
      if sized {
        seen := seen.(perpEquity := EquityMap(frame.dexes, names),
                      receivedMs := seen.receivedMs[PerpEquityPart := receivedMs],
                      observedMs := seen.observedMs[PerpEquityPart := EarliestOf(frame.dexes, names)]);
      }
      SetAccount(role.value, seen);
      r := Some(Update(role.value, epoch, initial, BaselineReady(cfg, Now()), [], 0));
    }

    method ApplySpot(frame: Frame, receivedMs: int) returns (r: Option<Update>)
      requires Valid() && frame.SpotFrame?
      modifies this
      ensures Valid()
      ensures Follows(ReduceSpot(cfg, old(Now()), frame, receivedMs), old(Now()), Now(), r)
    {
      var role := RoleOf(cfg, frame.account);
      if role.None? { return None; }
      if frame.total < 0.0 || frame.hold < 0.0 || frame.hold > frame.total || frame.observedMs <= 0 { return None; }
      var a := if role.value.Source? then source else follower;
      if CollateralPart in a.observedMs && frame.observedMs < a.observedMs[CollateralPart] { return None; }
      SetAccount(role.value, a.(
        collateral := Some(Collateral(frame.total, frame.hold, frame.total - frame.hold, frame.observedMs, receivedMs)),
        receivedMs := a.receivedMs[CollateralPart := receivedMs],
        observedMs := a.observedMs[CollateralPart := frame.observedMs]));
      r := Some(Update(role.value, epoch, CollateralPart !in a.receivedMs, BaselineReady(cfg, Now()), [], 0));
    }

    method ApplyOpenOrders(frame: Frame, receivedMs: int) returns (r: Option<Update>)
      requires Valid() && frame.OpenOrdersFrame?
      modifies this
      ensures Valid()
      ensures Follows(ReduceOpenOrders(cfg, old(Now()), frame, receivedMs), old(Now()), Now(), r)
    {
      if RoleOf(cfg, frame.account) != Some(Follower) { return None; }
      var orders := ParseOrderRows(frame.orders);
      if orders.Err? { return None; }
      var initial := OrdersPart !in follower.receivedMs;
      follower := follower.(openOrders := orders.value,
                            receivedMs := follower.receivedMs[OrdersPart := receivedMs],
                            observedMs := follower.observedMs[OrdersPart := receivedMs]);
      r := Some(Update(Follower, epoch, initial, BaselineReady(cfg, Now()), [], 0));
    }

    method ApplyOrderUpdates(frame: Frame, receivedMs: int) returns (r: Option<Update>)
      requires Valid() && frame.OrderUpdatesFrame?
      modifies this
      ensures Valid()
      ensures Follows(ReduceOrderUpdates(cfg, old(Now()), frame, receivedMs), old(Now()), Now(), r)
    {
      var edited, latestStatusMs := ApplyUpdates(follower.openOrders, frame.updates, receivedMs);
      if edited.Err? { return None; }
      UpdatesKeepIdsApart(follower.openOrders, frame.updates);
      follower := follower.(openOrders := edited.value);
      if OrdersPart in follower.receivedMs {
        follower := follower.(receivedMs := follower.receivedMs[OrdersPart := receivedMs],
                              observedMs := follower.observedMs[OrdersPart := latestStatusMs]);
      }
      r := Some(Update(Follower, epoch, false, BaselineReady(cfg, Now()), [], 0));
    }

    method ApplyFrame(frame: Frame, receivedMs: int) returns (r: Option<Update>)
      requires Valid()
      modifies this
      ensures Valid()
      ensures Follows(ReduceFrame(cfg, old(Now()), frame, receivedMs), old(Now()), Now(), r)
    {
      match frame {
        case PositionsFrame(_, _) => r := ApplyPositions(frame, receivedMs);
        case SpotFrame(_, _, _, _) => r := ApplySpot(frame, receivedMs);
        case OpenOrdersFrame(_, _) => r := ApplyOpenOrders(frame, receivedMs);
        case OrderUpdatesFrame(_) => r := ApplyOrderUpdates(frame, receivedMs);
        case FillsFrame(_, _, _, _) => r := ApplyFills(frame, receivedMs);
        case MalformedFrame => r := None;
      }
    }

    method Apply(frame: Frame, frameEpoch: nat, receivedMs: int) returns (r: Option<Update>)
      requires Valid()
      modifies this
      ensures Valid()
      ensures Follows(Reduce(cfg, old(Now()), frame, frameEpoch, receivedMs), old(Now()), Now(), r)
    {
      if !FrameFits(Now(), frameEpoch, receivedMs) { return None; }
      r := ApplyFrame(frame, receivedMs);
      if r.Some? {
        lastActivityMs := Max(lastActivityMs, receivedMs);
      }
    }
  }
}
