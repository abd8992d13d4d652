/**
 The reducer behind one source/follower connection: what each frame does to the account state, which
 frames are refused (a refusal leaves everything as it was), and what survives a reconnect.
 */
module AccountStream {
  import opened Outcomes
  import opened FillDedupe
  import opened FillChain
  import opened OpenOrders

  datatype Component = PositionsPart | CollateralPart | PerpEquityPart | OrdersPart | FillsPart | TwapPart

  datatype Collateral = Collateral(total: real, hold: real, available: real, observedMs: int, receivedMs: int)

  datatype Account = Account(
    positions: Positions,
    collateral: Option<Collateral>,
    perpEquity: map<string, real>,
    openOrders: seq<OpenOrder>,
    fills: seq<Fill>,
    receivedMs: map<Component, int>,
    observedMs: map<Component, int>,
    dexObservedMs: map<string, int>)
  {
    function DexClock(dex: string): int { if dex in dexObservedMs then dexObservedMs[dex] else 0 }
  }

  const EMPTY_ACCOUNT := Account(map[], None, map[], [], [], map[], map[], map[])

  datatype Role = Source | Follower

  datatype Config = Config(source: string, follower: string, standard: bool, acceptOutside: bool, capacity: nat)

  datatype Scopes = Scopes(source: Option<seq<Market>>, follower: Option<seq<Market>>)

  // The mutable state of the reducer, as a value.
  datatype State = State(
    epoch: nat,
    lastActivityMs: int,
    source: Account,
    follower: Account,
    order: seq<FillId>,
    prints: map<FillId, Fingerprint>,
    scopes: Scopes)
  {
    function Of(role: Role): Account { if role.Source? then source else follower }

    function With(role: Role, a: Account): State { if role.Source? then this.(source := a) else this.(follower := a) }
  }

  datatype Update = Update(role: Role, epoch: nat, initialSnapshot: bool, baselineReady: bool,
                           newFills: seq<Fill>, duplicateFills: int)

  // A refused frame raises; the state then stays as it was.
  datatype Outcome = Refused | Accepted(state: State, update: Update)

  // ---------- Frames, already parsed ----------

  datatype DexState = DexState(dex: string, observedMs: int, positions: Positions, equity: Option<real>)

  datatype RawFill = RawFill(txHash: string, tid: string, timeMs: int, buy: bool, size: real, price: real,
                             start: Option<real>, oid: Option<int>)

  // A spot coin is skipped; a row outside the market scope is skipped before its other fields are read.
  datatype FillRow = SpotRow | BadMarketRow | PerpRow(market: Market, raw: Option<RawFill>)

  datatype Frame =
    | PositionsFrame(account: string, dexes: seq<DexState>)
    | SpotFrame(account: string, total: real, hold: real, observedMs: int)
    | OpenOrdersFrame(account: string, orders: seq<OpenOrder>)
    | OrderUpdatesFrame(updates: seq<OrderUpdate>)
    | FillsFrame(account: string, declared: Option<bool>, rows: seq<FillRow>, twap: bool)
    | MalformedFrame

  function RoleOf(cfg: Config, account: string): Option<Role> {
    if account == cfg.source then Some(Source) else if account == cfg.follower then Some(Follower) else None
  }

  function SourceDexes(scopes: Scopes): seq<string> {
    if scopes.source.None? then [] else DexesOf(scopes.source.value)
  }

  function DexesOf(markets: seq<Market>): seq<string> {
    if markets == [] then []
    else
      var dexes := DexesOf(markets[..|markets| - 1]);
      var dex := markets[|markets| - 1].dex;
      if dex in dexes then dexes else dexes + [dex]
  }

  function Required(cfg: Config, role: Role): set<Component> {
    if role.Follower? then {PositionsPart, CollateralPart, OrdersPart, FillsPart}
    else if cfg.standard then {PositionsPart, PerpEquityPart, FillsPart, TwapPart}
    else {PositionsPart, CollateralPart, FillsPart, TwapPart}
  }

  predicate BaselineReady(cfg: Config, st: State) {
    Required(cfg, Source) <= st.source.receivedMs.Keys && Required(cfg, Follower) <= st.follower.receivedMs.Keys
  }

  function Accept(cfg: Config, st: State, role: Role, a: Account, initial: bool, newFills: seq<Fill>,
                  duplicates: int): Outcome {
    var next := st.With(role, a);
    Accepted(next, Update(role, next.epoch, initial, BaselineReady(cfg, next), newFills, duplicates))
  }

  // ---------- Fill frames ----------

  predicate InScope(cfg: Config, scopes: Scopes, role: Role, m: Market) {
    var scope := if role.Source? then scopes.source else scopes.follower;
    scope.None? || m in scope.value || (role.Source? && cfg.acceptOutside)
  }

  predicate ValidRaw(raw: RawFill) {
    raw.size > 0.0 && raw.price > 0.0 && raw.timeMs > 0 && (raw.oid.Some? ==> raw.oid.value > 0)
  }

  predicate Kept(cfg: Config, scopes: Scopes, role: Role, row: FillRow) {
    row.PerpRow? && InScope(cfg, scopes, role, row.market)
  }

  predicate BadRow(cfg: Config, scopes: Scopes, role: Role, row: FillRow) {
    row.BadMarketRow? || (Kept(cfg, scopes, role, row) && (row.raw.None? || !ValidRaw(row.raw.value)))
  }

  datatype Reading = Reading(account: string, receivedMs: int, epoch: nat, isSnapshot: bool)

  function FillOf(how: Reading, m: Market, raw: RawFill): Fill {
    Fill(how.account, m, raw.txHash, raw.tid, raw.timeMs, raw.buy, raw.size, raw.price, raw.start, raw.oid,
         how.receivedMs, how.epoch, how.isSnapshot)
  }

  function Records(cfg: Config, scopes: Scopes, role: Role, how: Reading, rows: seq<FillRow>): seq<Fill> {
    if rows == [] then []
    else
      var row := rows[|rows| - 1];
      Records(cfg, scopes, role, how, rows[..|rows| - 1])
      + (if Kept(cfg, scopes, role, row) && row.raw.Some? then [FillOf(how, row.market, row.raw.value)] else [])
  }

  /** The entry of a frame's identity table, which keeps the first record of each identity. */
  function Find(unique: seq<Fill>, id: FillId): Option<Fill> {
    if unique == [] then None else if unique[0].Identity() == id then Some(unique[0]) else Find(unique[1..], id)
  }

  function Unique(records: seq<Fill>): seq<Fill> {
    if records == [] then []
    else
      var init, last := Unique(records[..|records| - 1]), records[|records| - 1];
      if Find(init, last.Identity()).Some? then init else init + [last]
  }

  /** Some record differs in contents from the first record of its identity in the frame. */
  ghost predicate SelfConflict(records: seq<Fill>) {
    exists x <- records :: !SameContents(Find(records, x.Identity()), x)
  }

  predicate SameContents(prior: Option<Fill>, x: Fill) { prior.Some? && prior.value.Print() == x.Print() }

  ghost predicate MemoryConflict(unique: seq<Fill>, prints: map<FillId, Fingerprint>) {
    exists u <- unique :: u.Identity() in prints && prints[u.Identity()] != u.Print()
  }

  function NewRecords(unique: seq<Fill>, prints: map<FillId, Fingerprint>): seq<Fill> {
    if unique == [] then []
    else
      NewRecords(unique[..|unique| - 1], prints)
      + (if unique[|unique| - 1].Identity() in prints then [] else [unique[|unique| - 1]])
  }

  function Ids(fills: seq<Fill>): seq<FillId> {
    seq(|fills|, i requires 0 <= i < |fills| => fills[i].Identity())
  }

  function PrintsWith(prints: map<FillId, Fingerprint>, added: seq<Fill>): map<FillId, Fingerprint> {
    if added == [] then prints
    else PrintsWith(prints, added[..|added| - 1])[added[|added| - 1].Identity() := added[|added| - 1].Print()]
  }

  /** The fingerprints of the identities still in memory. */
  function Remembered(prints: map<FillId, Fingerprint>, order: seq<FillId>): map<FillId, Fingerprint> {
    map id | id in prints && id in order :: prints[id]
  }

  function MaxTime(fills: seq<Fill>, atLeast: int): int {
    if fills == [] then atLeast else Max(MaxTime(fills[..|fills| - 1], atLeast), fills[|fills| - 1].timeMs)
  }

  function ClocksWith(clocks: map<string, int>, fills: seq<Fill>): map<string, int> {
    if fills == [] then clocks
    else
      var before := ClocksWith(clocks, fills[..|fills| - 1]);
      var f := fills[|fills| - 1];
      before[f.market.dex := Max(if f.market.dex in before then before[f.market.dex] else 0, f.timeMs)]
  }

  function LastFills(cap: nat, fills: seq<Fill>): seq<Fill> { if |fills| > cap then fills[|fills| - cap..] else fills }

  function FillList(cap: nat, a: Account, isSnapshot: bool, unique: seq<Fill>, added: seq<Fill>): seq<Fill> {
    if isSnapshot && FillsPart !in a.receivedMs && TwapPart !in a.receivedMs then LastFills(cap, unique)
    else LastFills(cap, a.fills + added)
  }

  function WithPositions(a: Account, positions: Positions, added: seq<Fill>, receivedMs: int): Account {
    if added == [] then a.(positions := positions)
    else
      var observed := if PositionsPart in a.observedMs then a.observedMs[PositionsPart] else 0;
      a.(positions := positions,
         receivedMs := a.receivedMs[PositionsPart := receivedMs],
         observedMs := a.observedMs[PositionsPart := MaxTime(added, observed)],
         dexObservedMs := ClocksWith(a.dexObservedMs, added))
  }

  function SnapshotFlag(declared: Option<bool>, hasBaseline: bool): Option<bool> {
    if declared.None? then (if hasBaseline then Some(false) else None)
    else if !declared.value && !hasBaseline then None
    else declared
  }

  function Moved(a: Account, isSnapshot: bool, added: seq<Fill>, receivedMs: int): Option<Account> {
    if isSnapshot then Some(a)
    else
      var chain := Chain(a.positions, added);
      if chain.Err? then None else Some(WithPositions(a, chain.value, added, receivedMs))
  }

  function Recorded(cap: nat, a: Account, moved: Account, part: Component, isSnapshot: bool, records: seq<Fill>,
                    unique: seq<Fill>, added: seq<Fill>, receivedMs: int): Account
  {
    moved.(fills := FillList(cap, a, isSnapshot, unique, added),
           receivedMs := moved.receivedMs[part := receivedMs],
           observedMs := moved.observedMs[part := if records == [] then receivedMs
                                          else MaxTime(records, records[0].timeMs)])
  }

  /** The dedupe memory after a frame with these unique records. */
  function Memory(cap: nat, st: State, unique: seq<Fill>): State {
    var order := Newest(cap, TouchAll(st.order, Ids(unique)));
    st.(order := order, prints := Remembered(PrintsWith(st.prints, NewRecords(unique, st.prints)), order))
  }

  // The checked contents of a fill frame.
  datatype Checked = Checked(part: Component, isSnapshot: bool, records: seq<Fill>, unique: seq<Fill>, added: seq<Fill>)

  function Commit(cfg: Config, st: State, role: Role, c: Checked, moved: Account, receivedMs: int): Outcome {
    Accept(cfg, Memory(cfg.capacity, st, c.unique), role,
           Recorded(cfg.capacity, st.Of(role), moved, c.part, c.isSnapshot, c.records, c.unique, c.added, receivedMs),
           c.isSnapshot, if c.isSnapshot then [] else c.added, |c.records| - |c.added|)
  }

  /** What the fills of a frame come to, once its rows are read. */
  ghost function ReduceRecords(cfg: Config, st: State, role: Role, part: Component, isSnapshot: bool,
                               records: seq<Fill>, receivedMs: int): Outcome
  {
    var unique := Unique(records);
    var added := NewRecords(unique, st.prints);
    var moved := Moved(st.Of(role), isSnapshot, added, receivedMs);
    if SelfConflict(records) || MemoryConflict(unique, st.prints) || moved.None? then Refused
    else Commit(cfg, st, role, Checked(part, isSnapshot, records, unique, added), moved.value, receivedMs)
  }

  ghost function ReduceFills(cfg: Config, st: State, frame: Frame, receivedMs: int): Outcome
    requires frame.FillsFrame?
  {
    var role := RoleOf(cfg, frame.account);
    var part := if frame.twap then TwapPart else FillsPart;
    if role.None? then Refused
    else
      var flag := SnapshotFlag(frame.declared, part in st.Of(role.value).receivedMs);
      if flag.None? || (exists row <- frame.rows :: BadRow(cfg, st.scopes, role.value, row)) then Refused
      else
        var how := Reading(frame.account, receivedMs, st.epoch, flag.value);
        ReduceRecords(cfg, st, role.value, part, flag.value,
                      Records(cfg, st.scopes, role.value, how, frame.rows), receivedMs)
  }

  // ---------- Position frames ----------

  function Merged(dexes: seq<DexState>): Positions {
    if dexes == [] then map[] else Merged(dexes[..|dexes| - 1]) + dexes[|dexes| - 1].positions
  }

  /** Every DEX has its own name, a positive time, and markets no other DEX of the frame reports. */
  ghost predicate Apart(dexes: seq<DexState>) {
    dexes == [] ||
    var n := |dexes| - 1;
    && Apart(dexes[..n])
    && dexes[n].observedMs > 0
    && (forall e <- dexes[..n] :: e.dex != dexes[n].dex)
    && Merged(dexes[..n]).Keys !! dexes[n].positions.Keys
  }

  ghost predicate DexesApart(dexes: seq<DexState>) {
    Apart(dexes) && HasDefault(dexes)
  }

  function Sizes(ps: Positions): map<Market, real> { map m | m in ps && ps[m].size != 0.0 :: ps[m].size }

  function SizesIn(ps: Positions, dex: string): map<Market, real> {
    map m | m in ps && m.dex == dex && ps[m].size != 0.0 :: ps[m].size
  }

  /** No DEX goes back in exchange time, and at an unchanged time the sizes agree with the fills applied since. */
  predicate ClocksAllow(a: Account, d: DexState) {
    && d.observedMs >= a.DexClock(d.dex)
    && (a.DexClock(d.dex) != 0 && d.observedMs == a.DexClock(d.dex)
        ==> Sizes(d.positions) == SizesIn(a.positions, d.dex))
  }

  function DexNamed(dexes: seq<DexState>, dex: string): Option<DexState> {
    if dexes == [] then None else if dexes[0].dex == dex then Some(dexes[0]) else DexNamed(dexes[1..], dex)
  }

  predicate EquityKnown(dexes: seq<DexState>, positions: Positions, dex: string) {
    var d := DexNamed(dexes, dex);
    && d.Some? && d.value.equity.Some? && d.value.equity.value >= 0.0
    && (d.value.equity.value > 0.0 || forall m <- positions :: m.dex == dex ==> positions[m].size == 0.0)
  }

  function EquitySum(dexes: seq<DexState>, names: seq<string>): real {
    if names == [] then 0.0
    else
      var d := DexNamed(dexes, names[0]);
      (if d.Some? && d.value.equity.Some? then d.value.equity.value else 0.0) + EquitySum(dexes, names[1..])
  }

  function EquityMap(dexes: seq<DexState>, names: seq<string>): map<string, real> {
    map n | n in names && DexNamed(dexes, n).Some? && DexNamed(dexes, n).value.equity.Some?
      :: DexNamed(dexes, n).value.equity.value
  }

  function EarliestOf(dexes: seq<DexState>, names: seq<string>): int {
    if names == [] then 0
    else
      var d := DexNamed(dexes, names[0]);
      var here := if d.Some? then d.value.observedMs else 0;
      if |names| == 1 then here else Min(here, EarliestOf(dexes, names[1..]))
  }

  function LatestOf(dexes: seq<DexState>): int {
    if dexes == [] then 0 else Max(LatestOf(dexes[..|dexes| - 1]), dexes[|dexes| - 1].observedMs)
  }

  function ClocksFrom(clocks: map<string, int>, dexes: seq<DexState>): map<string, int> {
    if dexes == [] then clocks
    else ClocksFrom(clocks, dexes[..|dexes| - 1])[dexes[|dexes| - 1].dex := dexes[|dexes| - 1].observedMs]
  }

  predicate EquityAllows(dexes: seq<DexState>, positions: Positions, names: seq<string>) {
    (forall n <- names :: EquityKnown(dexes, positions, n)) && EquitySum(dexes, names) > 0.0
  }

  ghost function ReducePositions(cfg: Config, st: State, frame: Frame, receivedMs: int): Outcome
    requires frame.PositionsFrame?
  {
    var role := RoleOf(cfg, frame.account);
    if role.None? || !DexesApart(frame.dexes) then Refused
    else
      var a := st.Of(role.value);
      var positions := Merged(frame.dexes);
      var sized := role.value.Source? && cfg.standard;
      var names := SourceDexes(st.scopes);
      if !(forall d <- frame.dexes :: ClocksAllow(a, d)) then Refused
      else if sized && !EquityAllows(frame.dexes, positions, names) then Refused
      else
        var seen := a.(
          positions := positions,
          receivedMs := a.receivedMs[PositionsPart := receivedMs],
          observedMs := a.observedMs[PositionsPart := LatestOf(frame.dexes)],
          dexObservedMs := ClocksFrom(a.dexObservedMs, frame.dexes));
        var next := if !sized then seen else seen.(
          perpEquity := EquityMap(frame.dexes, names),
          receivedMs := seen.receivedMs[PerpEquityPart := receivedMs],
          observedMs := seen.observedMs[PerpEquityPart := EarliestOf(frame.dexes, names)]);
        Accept(cfg, st, role.value, next, PositionsPart !in a.receivedMs, [], 0)
  }

  // ---------- Collateral and order frames ----------

  function ReduceSpot(cfg: Config, st: State, frame: Frame, receivedMs: int): Outcome
    requires frame.SpotFrame?
  {
    var role := RoleOf(cfg, frame.account);
    if role.None? || frame.total < 0.0 || frame.hold < 0.0 || frame.hold > frame.total
        || frame.observedMs <= 0 then Refused
    else
      var a := st.Of(role.value);
      if CollateralPart in a.observedMs && frame.observedMs < a.observedMs[CollateralPart] then Refused
      else
        Accept(cfg, st, role.value,
               a.(collateral := Some(Collateral(frame.total, frame.hold, frame.total - frame.hold, frame.observedMs,
                                                receivedMs)),
                  receivedMs := a.receivedMs[CollateralPart := receivedMs],
                  observedMs := a.observedMs[CollateralPart := frame.observedMs]),
               CollateralPart !in a.receivedMs, [], 0)
  }

  ghost function ReduceOpenOrders(cfg: Config, st: State, frame: Frame, receivedMs: int): Outcome
    requires frame.OpenOrdersFrame?
  {
    var a := st.follower;
    if RoleOf(cfg, frame.account) != Some(Follower) || !NoSharedIds(frame.orders) then Refused
    else
      Accept(cfg, st, Follower,
             a.(openOrders := frame.orders,
                receivedMs := a.receivedMs[OrdersPart := receivedMs],
                observedMs := a.observedMs[OrdersPart := receivedMs]),
             OrdersPart !in a.receivedMs, [], 0)
  }

  function ReduceOrderUpdates(cfg: Config, st: State, frame: Frame, receivedMs: int): Outcome
    requires frame.OrderUpdatesFrame?
  {
    var a := st.follower;
    var edited := EditAll(a.openOrders, frame.updates);
    if edited.Err? then Refused
    else
      var next := a.(openOrders := edited.value);
      Accept(cfg, st, Follower,
             if OrdersPart !in a.receivedMs then next
             else next.(receivedMs := a.receivedMs[OrdersPart := receivedMs],
                        observedMs := a.observedMs[OrdersPart := LatestStatusMs(frame.updates, receivedMs)]),
             false, [], 0)
  }

  ghost function ReduceFrame(cfg: Config, st: State, frame: Frame, receivedMs: int): Outcome {
    match frame
    case PositionsFrame(_, _) => ReducePositions(cfg, st, frame, receivedMs)
    case SpotFrame(_, _, _, _) => ReduceSpot(cfg, st, frame, receivedMs)
    case OpenOrdersFrame(_, _) => ReduceOpenOrders(cfg, st, frame, receivedMs)
    case OrderUpdatesFrame(_) => ReduceOrderUpdates(cfg, st, frame, receivedMs)
    case FillsFrame(_, _, _, _) => ReduceFills(cfg, st, frame, receivedMs)
    case MalformedFrame => Refused
  }

  predicate FrameFits(st: State, epoch: nat, receivedMs: int) {
    st.epoch != 0 && epoch == st.epoch && receivedMs > 0
  }

  ghost function Reduce(cfg: Config, st: State, frame: Frame, epoch: nat, receivedMs: int): Outcome {
    if !FrameFits(st, epoch, receivedMs) then Refused
    else
      var out := ReduceFrame(cfg, st, frame, receivedMs);
      if out.Refused? then Refused
      else out.(state := out.state.(lastActivityMs := Max(out.state.lastActivityMs, receivedMs)))
  }

  // ---------- Connections and scopes ----------

  function Begun(st: State, receivedMs: int): State {
    if receivedMs < 0 then st
    else st.(epoch := st.epoch + 1, lastActivityMs := receivedMs, source := EMPTY_ACCOUNT, follower := EMPTY_ACCOUNT)
  }

  function Noted(st: State, epoch: nat, receivedMs: int): State {
    if FrameFits(st, epoch, receivedMs) then st.(lastActivityMs := Max(st.lastActivityMs, receivedMs)) else st
  }

  function DexSet(scopes: Scopes): set<string> { set dex | dex in SourceDexes(scopes) }

  /** A standard source needs explicit markets. */
  predicate ScopeFits(cfg: Config, next: Scopes) {
    cfg.standard ==> next.source.Some? && next.source.value != []
  }

  function WithoutEquity(a: Account): Account {
    a.(perpEquity := map[], receivedMs := a.receivedMs - {PerpEquityPart},
       observedMs := a.observedMs - {PerpEquityPart})
  }

  function Rescoped(cfg: Config, st: State, next: Scopes): State {
    if !ScopeFits(cfg, next) then st
    else if cfg.standard && DexSet(next) != DexSet(st.scopes) then
      st.(scopes := next, source := WithoutEquity(st.source))
    else st.(scopes := next)
  }

  /** What a frame method promises: the specified next state and update, or no change at all. */
  ghost predicate Follows(out: Outcome, before: State, after: State, r: Option<Update>) {
    match out
    case Accepted(st, update) => after == st && r == Some(update)
    case Refused => after == before && r == None
  }

  // ---------- Invariant of the state ----------

  /** The memory has no repeats, fits, and knows exactly the identities it lists; held orders never share an id. */
  ghost predicate StateOk(cfg: Config, st: State) {
    && NoRepeats(st.order) && |st.order| <= cfg.capacity
    && (forall id :: id in st.order <==> id in st.prints)
    && NoSharedIds(st.follower.openOrders)
  }

  // ---------- The loops of a fill frame ----------

  lemma PrefixStep<T>(s: seq<T>, i: nat)
    requires i < |s|
    ensures s[..i + 1][..|s[..i + 1]| - 1] == s[..i] && s[..i + 1][|s[..i + 1]| - 1] == s[i]
  {
    assert s[..i + 1][..i] == s[..i];
  }

  method ReadRows(cfg: Config, scopes: Scopes, role: Role, how: Reading, rows: seq<FillRow>)
    returns (r: Option<seq<Fill>>)
    ensures r.None? <==> exists row <- rows :: BadRow(cfg, scopes, role, row)
    ensures r.Some? ==> r.value == Records(cfg, scopes, role, how, rows)
  {
    var records: seq<Fill> := [];
    var i := 0;
    while i < |rows|
      invariant 0 <= i <= |rows|
      invariant forall k :: 0 <= k < i ==> !BadRow(cfg, scopes, role, rows[k])
      invariant records == Records(cfg, scopes, role, how, rows[..i])
    {
      PrefixStep(rows, i);
      if BadRow(cfg, scopes, role, rows[i]) {
        assert rows[i] in rows;
        return None;
      }
      if Kept(cfg, scopes, role, rows[i]) {
        records := records + [FillOf(how, rows[i].market, rows[i].raw.value)];
      }
      i := i + 1;
    }
    assert rows[..i] == rows;
    r := Some(records);
  }

  lemma {:induction false} FindMeans(unique: seq<Fill>, id: FillId)
    ensures Find(unique, id).Some? ==> Find(unique, id).value in unique && Find(unique, id).value.Identity() == id
    ensures Find(unique, id).Some? <==> id in Ids(unique)
  {
    if unique != [] {
      FindMeans(unique[1..], id);
      assert Ids(unique) == [unique[0].Identity()] + Ids(unique[1..]);
    }
  }

  lemma {:induction false} FindConcat(a: seq<Fill>, b: seq<Fill>, id: FillId)
    ensures Find(a + b, id) == if Find(a, id).Some? then Find(a, id) else Find(b, id)
  {
    if a == [] {
      assert a + b == b;
    } else {
      assert (a + b)[1..] == a[1..] + b;
      FindConcat(a[1..], b, id);
    }
  }

  /** The identity table finds what the frame lists first. */
  lemma {:induction false} UniqueFinds(records: seq<Fill>, id: FillId)
    ensures Find(Unique(records), id) == Find(records, id)
  {
    if records != [] {
      var n := |records| - 1;
      var init, last := Unique(records[..n]), records[n];
      assert records == records[..n] + [last];
      UniqueFinds(records[..n], id);
      FindConcat(records[..n], [last], id);
      FindConcat(init, [last], id);
      UniqueFinds(records[..n], last.Identity());
    }
  }

  lemma {:induction false} UniqueMeans(records: seq<Fill>)
    ensures forall u <- Unique(records) :: u in records
    ensures NoRepeats(Ids(Unique(records)))
    ensures forall id :: id in Ids(Unique(records)) <==> id in Ids(records)
  {
    if records != [] {
      var n := |records| - 1;
      UniqueMeans(records[..n]);
      var init, last := Unique(records[..n]), records[n];
      assert records == records[..n] + [last];
      FindMeans(init, last.Identity());
      IdsAppend(init, last);
      IdsAppend(records[..n], last);
      NoRepeatsConcat(Ids(init), [last.Identity()]);
    }
  }

  lemma IdsAppend(fills: seq<Fill>, f: Fill)
    ensures Ids(fills + [f]) == Ids(fills) + [f.Identity()]
  {
  }

  lemma FindFirst(f: Fill, rest: seq<Fill>)
    ensures Find([f] + rest, f.Identity()) == Some(f)
  {
  }

  lemma TableLookup(before: seq<Fill>, f: Fill, later: seq<Fill>)
    ensures Find(before + ([f] + later), f.Identity())
            == if Find(Unique(before), f.Identity()).Some? then Find(Unique(before), f.Identity()) else Some(f)
  {
    UniqueFinds(before, f.Identity());
    FindConcat(before, [f] + later, f.Identity());
    FindFirst(f, later);
  }

  lemma AllAgree(records: seq<Fill>)
    requires AgreeTo(records, |records|)
    ensures !SelfConflict(records)
  {
    forall x | x in records ensures SameContents(Find(records, x.Identity()), x) {
      var k :| 0 <= k < |records| && records[k] == x;
      assert AgreesAt(records, k);
    }
  }

  lemma OneDiffers(records: seq<Fill>, i: nat)
    requires i < |records| && !AgreesAt(records, i)
    ensures SelfConflict(records)
  {
    assert records[i] in records;
  }

  /** One more record agrees with its table entry exactly when it agrees with the frame's first of its identity. */
  lemma EntryAgrees(before: seq<Fill>, x: Fill, later: seq<Fill>)
    ensures var prior := Find(Unique(before), x.Identity());
            SameContents(Find(before + ([x] + later), x.Identity()), x)
            <==> (prior.Some? ==> prior.value.Print() == x.Print())
  {
    TableLookup(before, x, later);
  }

  lemma UniqueStep(before: seq<Fill>, x: Fill)
    ensures Unique(before + [x]) == if Find(Unique(before), x.Identity()).Some? then Unique(before)
            else Unique(before) + [x]
  {
    assert (before + [x])[..|before|] == before;
  }

  lemma RecordStep(records: seq<Fill>, i: nat)
    requires i < |records|
    ensures var x, unique := records[i], Unique(records[..i]);
            var prior := Find(unique, x.Identity());
            && (AgreesAt(records, i) <==> (prior.Some? ==> prior.value.Print() == x.Print()))
            && Unique(records[..i + 1]) == if prior.Some? then unique else unique + [x]
  {
    SplitAround(records, i);
    EntryAgrees(records[..i], records[i], records[i + 1..]);
    UniqueStep(records[..i], records[i]);
  }

  lemma SplitAround<T>(s: seq<T>, i: nat)
    requires i < |s|
    ensures s[..i] + ([s[i]] + s[i + 1..]) == s && s[..i] + [s[i]] == s[..i + 1]
  {
  }

  ghost predicate AgreesAt(records: seq<Fill>, k: nat)
    requires k < |records|
  {
    SameContents(Find(records, records[k].Identity()), records[k])
  }

  ghost predicate AgreeTo(records: seq<Fill>, i: int) {
    forall k :: 0 <= k < i <= |records| ==> AgreesAt(records, k)
  }

  /** The identity table of the first `i` records, which all agree with their entries. */
  ghost predicate Tabled(records: seq<Fill>, i: nat, unique: seq<Fill>) {
    i <= |records| && unique == Unique(records[..i]) && AgreeTo(records, i)
  }

  lemma TableOne(records: seq<Fill>, i: nat, unique: seq<Fill>)
    requires i < |records| && Tabled(records, i, unique)
    ensures var x := records[i]; var prior := Find(unique, x.Identity());
            if prior.None? then Tabled(records, i + 1, unique + [x])
            else if prior.value.Print() == x.Print() then Tabled(records, i + 1, unique)
            else SelfConflict(records)
  {
    RecordStep(records, i);
    if !AgreesAt(records, i) {
      OneDiffers(records, i);
    }
  }

  lemma TableAll(records: seq<Fill>, unique: seq<Fill>)
    requires Tabled(records, |records|, unique)
    ensures !SelfConflict(records) && unique == Unique(records)
  {
    assert records[..|records|] == records;
    AllAgree(records);
  }

  method UniqueRecords(records: seq<Fill>) returns (r: Option<seq<Fill>>)
    ensures r == if SelfConflict(records) then None else Some(Unique(records))
  {
    var unique: seq<Fill> := [];
    var i := 0;
    while i < |records|
      invariant 0 <= i <= |records| && Tabled(records, i, unique)
    {
      TableOne(records, i, unique);
      var prior := Find(unique, records[i].Identity());
      if prior.Some? && prior.value.Print() != records[i].Print() {
        return None;
      }
      if prior.None? {
        unique := unique + [records[i]];
      }
      i := i + 1;
    }
    TableAll(records, unique);
    r := Some(unique);
  }

  /** Splits the identity table into what is new and what the memory already has. */
  method SplitNew(unique: seq<Fill>, prints: map<FillId, Fingerprint>) returns (r: Option<seq<Fill>>)
    ensures r.None? <==> MemoryConflict(unique, prints)
    ensures r.Some? ==> r.value == NewRecords(unique, prints)
  {
    var added: seq<Fill> := [];
    var i := 0;
    while i < |unique|
      invariant 0 <= i <= |unique|
      invariant added == NewRecords(unique[..i], prints)
      invariant forall k :: 0 <= k < i && unique[k].Identity() in prints ==>
                  prints[unique[k].Identity()] == unique[k].Print()
    {
      PrefixStep(unique, i);
      var id := unique[i].Identity();
      if id in prints && prints[id] != unique[i].Print() {
        assert unique[i] in unique;
        return None;
      }
      if id !in prints {
        added := added + [unique[i]];
      }
      i := i + 1;
    }
    assert unique[..i] == unique;
    r := Some(added);
  }

  lemma {:induction false} NewRecordsMean(unique: seq<Fill>, prints: map<FillId, Fingerprint>)
    ensures forall x <- NewRecords(unique, prints) :: x in unique && x.Identity() !in prints
    ensures forall id :: id in Ids(NewRecords(unique, prints)) <==> id in Ids(unique) && id !in prints
    ensures NoRepeats(Ids(unique)) ==> NoRepeats(Ids(NewRecords(unique, prints)))
  {
    if unique != [] {
      var n := |unique| - 1;
      var rest, last := NewRecords(unique[..n], prints), unique[n];
      NewRecordsMean(unique[..n], prints);
      assert unique == unique[..n] + [last];
      IdsAppend(unique[..n], last);
      IdsAppend(rest, last);
      assert NewRecords(unique, prints) == if last.Identity() in prints then rest else rest + [last];
      NoRepeatsConcat(Ids(unique[..n]), [last.Identity()]);
      NoRepeatsConcat(Ids(rest), [last.Identity()]);
    }
  }

  lemma TouchesEverything(order: seq<FillId>, unique: seq<Fill>, prints: map<FillId, Fingerprint>)
    requires NoRepeats(order) && NoRepeats(Ids(unique))
    ensures TouchAll(TouchAll(order, Ids(NewRecords(unique, prints))), Ids(unique)) == TouchAll(order, Ids(unique))
    ensures NoRepeats(TouchAll(order, Ids(unique)))
    ensures forall id :: id in TouchAll(order, Ids(unique)) <==> id in order || id in Ids(unique)
  {
    NewRecordsMean(unique, prints);
    NewThenAll(order, Ids(NewRecords(unique, prints)), Ids(unique));
    TouchAllMembers(order, Ids(unique));
  }

  lemma ForgetOldest(prints: map<FillId, Fingerprint>, order: seq<FillId>)
    requires NoRepeats(order) && order != []
    ensures Remembered(prints, order) - {order[0]} == Remembered(prints, order[1..])
    ensures NoRepeats(order[1..])
  {
    assert order == [order[0]] + order[1..];
    NoRepeatsConcat([order[0]], order[1..]);
  }

  /** Drops the oldest identities until the memory fits. */
  method EvictOldest(order: seq<FillId>, prints: map<FillId, Fingerprint>, capacity: nat)
    returns (nextOrder: seq<FillId>, nextPrints: map<FillId, Fingerprint>)
    requires NoRepeats(order) && forall id :: id in order <==> id in prints
    ensures nextOrder == Newest(capacity, order)
    ensures nextPrints == Remembered(prints, nextOrder)
  {
    nextOrder, nextPrints := order, prints;
    ghost var dropped := 0;
    assert Remembered(prints, order) == prints;
    while |nextOrder| > capacity
      invariant 0 <= dropped <= |order| && nextOrder == order[dropped..]
      invariant dropped == 0 || |nextOrder| >= capacity
      invariant NoRepeats(nextOrder)
      invariant nextPrints == Remembered(prints, nextOrder)
      decreases |nextOrder|
    {
      ForgetOldest(prints, nextOrder);
      assert order[dropped..][1..] == order[dropped + 1..];
      nextPrints := nextPrints - {nextOrder[0]};
      nextOrder := nextOrder[1..];
      dropped := dropped + 1;
    }
  }

  method RememberNew(order: seq<FillId>, prints: map<FillId, Fingerprint>, added: seq<Fill>)
    returns (nextOrder: seq<FillId>, nextPrints: map<FillId, Fingerprint>)
    ensures nextOrder == TouchAll(order, Ids(added)) && nextPrints == PrintsWith(prints, added)
  {
    nextOrder, nextPrints := order, prints;
    var i := 0;
    while i < |added|
      invariant 0 <= i <= |added|
      invariant nextOrder == TouchAll(order, Ids(added)[..i])
      invariant nextPrints == PrintsWith(prints, added[..i])
    {
      PrefixStep(added, i);
      PrefixStep(Ids(added), i);
      nextPrints := nextPrints[added[i].Identity() := added[i].Print()];
      nextOrder := Touch(nextOrder, added[i].Identity());
      i := i + 1;
    }
    assert added[..i] == added && Ids(added)[..i] == Ids(added);
  }

  method RefreshAll(order: seq<FillId>, unique: seq<Fill>) returns (next: seq<FillId>)
    ensures next == TouchAll(order, Ids(unique))
  {
    next := order;
    var i := 0;
    while i < |unique|
      invariant 0 <= i <= |unique|
      invariant next == TouchAll(order, Ids(unique)[..i])
    {
      PrefixStep(Ids(unique), i);
      next := Touch(next, unique[i].Identity());
      i := i + 1;
    }
    assert Ids(unique)[..i] == Ids(unique);
  }

  /** Records the new identities, refreshes every identity of the frame, then drops the oldest over capacity. */
  method TouchMemory(order: seq<FillId>, prints: map<FillId, Fingerprint>, added: seq<Fill>, unique: seq<Fill>,
                     capacity: nat)
    returns (nextOrder: seq<FillId>, nextPrints: map<FillId, Fingerprint>)
    requires NoRepeats(order) && NoRepeats(Ids(unique)) && added == NewRecords(unique, prints)
    requires forall id :: id in order <==> id in prints
    ensures nextOrder == Newest(capacity, TouchAll(order, Ids(unique)))
    ensures nextPrints == Remembered(PrintsWith(prints, added), nextOrder)
  {
    nextOrder, nextPrints := RememberNew(order, prints, added);
    nextOrder := RefreshAll(nextOrder, unique);
    TouchesEverything(order, unique, prints);
    PrintsKnow(order, prints, unique);
    nextOrder, nextPrints := EvictOldest(nextOrder, nextPrints, capacity);
  }

  lemma {:induction false} PrintsWithKeys(prints: map<FillId, Fingerprint>, added: seq<Fill>)
    ensures forall id :: id in PrintsWith(prints, added) <==> id in prints || id in Ids(added)
    ensures forall id :: id in prints && id !in Ids(added) ==> PrintsWith(prints, added)[id] == prints[id]
  {
    if added != [] {
      var n := |added| - 1;
      PrintsWithKeys(prints, added[..n]);
      assert added == added[..n] + [added[n]];
      IdsAppend(added[..n], added[n]);
    }
  }

  lemma PrintsKnow(order: seq<FillId>, prints: map<FillId, Fingerprint>, unique: seq<Fill>)
    requires NoRepeats(order) && NoRepeats(Ids(unique))
    requires forall id :: id in order <==> id in prints
    ensures forall id :: id in TouchAll(order, Ids(unique)) <==> id in PrintsWith(prints, NewRecords(unique, prints))
  {
    TouchesEverything(order, unique, prints);
    PrintsWithKeys(prints, NewRecords(unique, prints));
    NewRecordsMean(unique, prints);
  }

  lemma TrimmedOk(cap: nat, all: seq<FillId>, prints: map<FillId, Fingerprint>)
    requires NoRepeats(all) && forall id :: id in all <==> id in prints
    ensures var order := Newest(cap, all);
            && NoRepeats(order) && |order| <= cap
            && (forall id :: id in order <==> id in Remembered(prints, order))
  {
    var order := Newest(cap, all);
    assert all == all[..|all| - |order|] + order;
    NoRepeatsConcat(all[..|all| - |order|], order);
    forall id | id in order ensures id in all {
    }
  }

  /** After a frame the memory again has no repeats, fits, and knows exactly what it lists. */
  lemma MemoryStaysOk(cfg: Config, st: State, records: seq<Fill>)
    requires StateOk(cfg, st)
    ensures StateOk(cfg, Memory(cfg.capacity, st, Unique(records)))
  {
    var unique := Unique(records);
    UniqueMeans(records);
    TouchesEverything(st.order, unique, st.prints);
    PrintsKnow(st.order, st.prints, unique);
    TrimmedOk(cfg.capacity, TouchAll(st.order, Ids(unique)), PrintsWith(st.prints, NewRecords(unique, st.prints)));
  }

  method AdvanceClocks(a: Account, added: seq<Fill>) returns (observed: int, clocks: map<string, int>)
    ensures observed == MaxTime(added, if PositionsPart in a.observedMs then a.observedMs[PositionsPart] else 0)
    ensures clocks == ClocksWith(a.dexObservedMs, added)
  {
    observed := if PositionsPart in a.observedMs then a.observedMs[PositionsPart] else 0;
    clocks := a.dexObservedMs;
    var i := 0;
    ghost var start := observed;
    while i < |added|
      invariant 0 <= i <= |added|
      invariant observed == MaxTime(added[..i], start)
      invariant clocks == ClocksWith(a.dexObservedMs, added[..i])
    {
      PrefixStep(added, i);
      observed := Max(observed, added[i].timeMs);
      var dex := added[i].market.dex;
      clocks := clocks[dex := Max(if dex in clocks then clocks[dex] else 0, added[i].timeMs)];
      i := i + 1;
    }
    assert added[..i] == added;
  }

  /** Checks the live chain on a copy and, if it holds, moves positions and clocks together. */
  method MovePositions(a: Account, isSnapshot: bool, added: seq<Fill>, receivedMs: int) returns (moved: Option<Account>)
    ensures moved == Moved(a, isSnapshot, added, receivedMs)
  {
    if isSnapshot { return Some(a); }
    var positions := ValidatedFillPositions(a.positions, added);
    if positions.Err? { return None; }
    moved := Some(a.(positions := positions.value));
    if added != [] {
      var observed, clocks := AdvanceClocks(a, added);
      moved := Some(a.(positions := positions.value,
                       receivedMs := a.receivedMs[PositionsPart := receivedMs],
                       observedMs := a.observedMs[PositionsPart := observed],
                       dexObservedMs := clocks));
    }
  }

  method LatestRecord(records: seq<Fill>, receivedMs: int) returns (t: int)
    ensures t == if records == [] then receivedMs else MaxTime(records, records[0].timeMs)
  {
    if records == [] {
      return receivedMs;
    }
    t := records[0].timeMs;
    var i := 0;
    while i < |records|
      invariant 0 <= i <= |records|
      invariant t == MaxTime(records[..i], records[0].timeMs)
    {
      PrefixStep(records, i);
      t := Max(t, records[i].timeMs);
      i := i + 1;
    }
    assert records[..i] == records;
  }

  // ---------- The loop of a position frame ----------

  lemma {:induction false} ApartPrefix(dexes: seq<DexState>, i: nat)
    requires i <= |dexes| && Apart(dexes)
    ensures Apart(dexes[..i])
  {
    if i < |dexes| {
      ApartPrefix(dexes[..|dexes| - 1], i);
      assert dexes[..|dexes| - 1][..i] == dexes[..i];
    } else {
      assert dexes[..i] == dexes;
    }
  }

  /** Whether one more DEX keeps the frame apart, and what it adds. */
  lemma DexStep(before: seq<DexState>, d: DexState)
    requires Apart(before)
    ensures Apart(before + [d])
            <==> d.observedMs > 0 && (forall e <- before :: e.dex != d.dex) && Merged(before).Keys !! d.positions.Keys
    ensures Merged(before + [d]) == Merged(before) + d.positions
  {
    assert (before + [d])[..|before|] == before;
  }

  lemma DefaultStep(before: seq<DexState>, d: DexState)
    ensures HasDefault(before + [d]) <==> HasDefault(before) || d.dex == ""
  {
    assert d in before + [d] && forall e <- before :: e in before + [d];
  }

  ghost predicate HasDefault(dexes: seq<DexState>) { exists d <- dexes :: d.dex == "" }

  /** Merges the per-DEX positions, refusing a market or a DEX that appears twice. */
  method MergeDexes(dexes: seq<DexState>) returns (r: Option<Positions>)
    ensures r == if DexesApart(dexes) then Some(Merged(dexes)) else None
  {
    var positions: Positions := map[];
    var sawDefault := false;
    var i := 0;
    while i < |dexes|
      invariant 0 <= i <= |dexes|
      invariant positions == Merged(dexes[..i])
      invariant Apart(dexes[..i])
      invariant sawDefault <==> HasDefault(dexes[..i])
    {
      var d := dexes[i];
      assert dexes[..i + 1] == dexes[..i] + [d];
      DexStep(dexes[..i], d);
      DefaultStep(dexes[..i], d);
      if d.observedMs <= 0 || (exists e <- dexes[..i] :: e.dex == d.dex) || !(positions.Keys !! d.positions.Keys) {
        if Apart(dexes) {
          ApartPrefix(dexes, i + 1);
        }
        return None;
      }
      positions := positions + d.positions;
      sawDefault := sawDefault || d.dex == "";
      i := i + 1;
    }
    assert dexes[..i] == dexes;
    r := if sawDefault then Some(positions) else None;
  }

  lemma {:induction false} MergedKeeps(dexes: seq<DexState>, d: DexState)
    requires Apart(dexes) && d in dexes
    ensures forall m <- d.positions :: m in Merged(dexes) && Merged(dexes)[m] == d.positions[m]
  {
    var n := |dexes| - 1;
    assert dexes == dexes[..n] + [dexes[n]];
    if d != dexes[n] {
      MergedKeeps(dexes[..n], d);
    }
  }

  lemma {:induction false} MergedComesFrom(dexes: seq<DexState>, m: Market) returns (d: DexState)
    requires m in Merged(dexes)
    ensures d in dexes && m in d.positions
  {
    var n := |dexes| - 1;
    assert dexes == dexes[..n] + [dexes[n]];
    if m in dexes[n].positions {
      d := dexes[n];
    } else {
      d := MergedComesFrom(dexes[..n], m);
    }
  }
}
