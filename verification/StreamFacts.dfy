/**
 What each accepted frame says about the state, field by field, and exactly when a frame is refused.
 */
module StreamFacts {
  import opened Outcomes
  import opened FillChain
  import opened OpenOrders
  import opened AccountStream

  // ---------- Whose frame, which connection ----------

  lemma RoleInWords(cfg: Config, account: string)
    ensures RoleOf(cfg, account) == Some(Source) <==> account == cfg.source
    ensures RoleOf(cfg, account) == Some(Follower) <==> account == cfg.follower && account != cfg.source
  {
  }

  /** A frame counts only on the current connection, and moves the activity time only forward. */
  lemma GateInWords(cfg: Config, st: State, frame: Frame, epoch: nat, receivedMs: int)
    ensures var out, inner := Reduce(cfg, st, frame, epoch, receivedMs), ReduceFrame(cfg, st, frame, receivedMs);
            && (out.Accepted? <==> st.epoch > 0 && epoch == st.epoch && receivedMs > 0 && inner.Accepted?)
            && (out.Accepted? ==>
                  && out.update == inner.update
                  && out.state == inner.state.(lastActivityMs := out.state.lastActivityMs)
                  && out.state.lastActivityMs
                     == (if receivedMs > inner.state.lastActivityMs then receivedMs else inner.state.lastActivityMs))
  {
  }

  /** Both accounts have reported everything a plan needs. */
  predicate EverythingReported(cfg: Config, st: State) {
    var s, f := st.source.receivedMs, st.follower.receivedMs;
    && PositionsPart in s && FillsPart in s && TwapPart in s
    && (if cfg.standard then PerpEquityPart in s else CollateralPart in s)
    && PositionsPart in f && CollateralPart in f && OrdersPart in f && FillsPart in f
  }

  /** The frame changed one account, and the update describes it. */
  predicate Describes(cfg: Config, st: State, out: Outcome, role: Role, initial: bool, newFills: seq<Fill>,
                      duplicates: int)
    requires out.Accepted?
  {
    var next, u := out.state, out.update;
    && next.epoch == st.epoch && next.scopes == st.scopes && next.lastActivityMs == st.lastActivityMs
    && (role == Source ==> next.follower == st.follower) && (role == Follower ==> next.source == st.source)
    && u.role == role && u.epoch == st.epoch && u.initialSnapshot == initial && u.newFills == newFills
    && u.duplicateFills == duplicates && u.baselineReady == EverythingReported(cfg, next)
  }

  function AccountOf(st: State, role: Role): Account { if role == Source then st.source else st.follower }

  lemma AcceptDescribes(cfg: Config, st: State, role: Role, a: Account, initial: bool, newFills: seq<Fill>,
                        duplicates: int)
    ensures var out := Accept(cfg, st, role, a, initial, newFills, duplicates);
            && Describes(cfg, st, out, role, initial, newFills, duplicates)
            && AccountOf(out.state, role) == a && out.state.order == st.order && out.state.prints == st.prints
  {
  }

  /** The times of one component are set, those of all others stay. */
  predicate Stamped(a: Account, b: Account, part: Component, receivedMs: int, observedMs: int) {
    b.receivedMs == a.receivedMs[part := receivedMs] && b.observedMs == a.observedMs[part := observedMs]
  }

  // ---------- Collateral ----------

  /** The collateral is the reported one; what is not held is available. */
  predicate ReportedAs(c: Collateral, frame: Frame, t: int)
    requires frame.SpotFrame?
  {
    && c.total == frame.total && c.hold == frame.hold && c.available == frame.total - frame.hold
    && c.observedMs == frame.observedMs && c.receivedMs == t
  }

  lemma SpotInWords(cfg: Config, st: State, frame: Frame, t: int)
    requires frame.SpotFrame?
    ensures var out, role := ReduceSpot(cfg, st, frame, t), if frame.account == cfg.source then Source else Follower;
            var a := AccountOf(st, role);
            && (out.Accepted? <==>
                  && (frame.account == cfg.source || frame.account == cfg.follower)
                  && 0.0 <= frame.hold <= frame.total && frame.observedMs > 0
                  && (CollateralPart in a.observedMs ==> a.observedMs[CollateralPart] <= frame.observedMs))
            && (out.Accepted? ==>
                  var b := AccountOf(out.state, role);
                  && Describes(cfg, st, out, role, CollateralPart !in a.receivedMs, [], 0)
                  && out.state.order == st.order && out.state.prints == st.prints
                  && b.collateral.Some? && ReportedAs(b.collateral.value, frame, t)
                  && Stamped(a, b, CollateralPart, t, frame.observedMs)
                  && b.positions == a.positions && b.perpEquity == a.perpEquity && b.openOrders == a.openOrders
                  && b.fills == a.fills && b.dexObservedMs == a.dexObservedMs)
  {
  }

  // ---------- Orders ----------

  lemma OpenOrdersInWords(cfg: Config, st: State, frame: Frame, t: int)
    requires frame.OpenOrdersFrame?
    ensures var out, a := ReduceOpenOrders(cfg, st, frame, t), st.follower;
            && (out.Accepted? <==>
                  && frame.account == cfg.follower && frame.account != cfg.source
                  && forall i, j :: 0 <= i < j < |frame.orders| ==> !NamesSame(frame.orders[i], frame.orders[j]))
            && (out.Accepted? ==>
                  var b := out.state.follower;
                  && Describes(cfg, st, out, Follower, OrdersPart !in a.receivedMs, [], 0)
                  && b.openOrders == frame.orders && Stamped(a, b, OrdersPart, t, t)
                  && b.positions == a.positions && b.collateral == a.collateral && b.perpEquity == a.perpEquity
                  && b.fills == a.fills && b.dexObservedMs == a.dexObservedMs)
  {
    forall i, j | 0 <= i < j < |frame.orders|
      ensures SharesId(frame.orders[i], frame.orders[j]) <==> NamesSame(frame.orders[i], frame.orders[j])
    {
      SharesInWords(frame.orders[i], frame.orders[j]);
    }
  }

  /** `latest` is the largest of the updates' times, and never before `t`. */
  ghost predicate LatestStatus(latest: int, us: seq<OrderUpdate>, t: int) {
    && latest >= t && (forall u <- us :: latest >= u.statusMs)
    && (latest == t || exists u <- us :: latest == u.statusMs)
  }

  lemma {:induction false} LatestStatusIsLargest(us: seq<OrderUpdate>, t: int)
    ensures LatestStatus(LatestStatusMs(us, t), us, t)
    decreases us
  {
    if us != [] {
      var more := if us[0].statusMs > t then us[0].statusMs else t;
      LatestStatusIsLargest(us[1..], more);
      assert us == [us[0]] + us[1..];
      assert LatestStatusMs(us, t) == LatestStatusMs(us[1..], more);
    }
  }

  lemma OrderUpdatesInWords(cfg: Config, st: State, frame: Frame, t: int)
    requires frame.OrderUpdatesFrame?
    ensures var out, a := ReduceOrderUpdates(cfg, st, frame, t), st.follower;
            && (out.Accepted? <==> EditAll(a.openOrders, frame.updates).Ok?)
            && (out.Accepted? ==>
                  var b := out.state.follower;
                  && Describes(cfg, st, out, Follower, false, [], 0)
                  && Ok(b.openOrders) == EditAll(a.openOrders, frame.updates)
                  && (if OrdersPart in a.receivedMs then
                        && OrdersPart in b.observedMs
                        && LatestStatus(b.observedMs[OrdersPart], frame.updates, t)
                        && Stamped(a, b, OrdersPart, t, b.observedMs[OrdersPart])
                      else b.receivedMs == a.receivedMs && b.observedMs == a.observedMs)
                  && b.positions == a.positions && b.collateral == a.collateral && b.perpEquity == a.perpEquity
                  && b.fills == a.fills && b.dexObservedMs == a.dexObservedMs)
  {
    LatestStatusIsLargest(frame.updates, t);
  }

  // ---------- Position snapshots ----------

  /** The frame is well formed: the default DEX and every other once, with positive times and no market twice. */
  ghost predicate WellFormed(dexes: seq<DexState>) {
    && (exists d <- dexes :: d.dex == "")
    && (forall d <- dexes :: d.observedMs > 0)
    && Separate(dexes)
  }

  ghost predicate Separate(dexes: seq<DexState>) {
    forall i, j :: 0 <= i < j < |dexes| ==>
      dexes[i].dex != dexes[j].dex && dexes[i].positions.Keys !! dexes[j].positions.Keys
  }

  lemma {:induction false} MergedMembers(dexes: seq<DexState>)
    ensures forall m :: m in Merged(dexes) <==> exists d <- dexes :: m in d.positions
  {
    if dexes != [] {
      var n := |dexes| - 1;
      MergedMembers(dexes[..n]);
      assert dexes == dexes[..n] + [dexes[n]];
    }
  }

  lemma SeparateStep(before: seq<DexState>, d: DexState)
    ensures Separate(before + [d]) <==>
              && Separate(before)
              && forall e <- before :: e.dex != d.dex && e.positions.Keys !! d.positions.Keys
  {
    var all := before + [d];
    if Separate(all) {
      forall e | e in before ensures e.dex != d.dex && e.positions.Keys !! d.positions.Keys {
        var i :| 0 <= i < |before| && before[i] == e;
        assert all[i] == e && all[|before|] == d;
      }
      assert forall i :: 0 <= i < |before| ==> all[i] == before[i];
    }
  }

  lemma {:induction false} ApartInWords(dexes: seq<DexState>)
    ensures Apart(dexes) <==> (forall d <- dexes :: d.observedMs > 0) && Separate(dexes)
  {
    if dexes != [] {
      var n := |dexes| - 1;
      var before, d := dexes[..n], dexes[n];
      assert dexes == before + [d];
      ApartInWords(before);
      SeparateStep(before, d);
      MergedMembers(before);
      assert (forall e <- before :: e.positions.Keys !! d.positions.Keys) <==>
        Merged(before).Keys !! d.positions.Keys by {
        if forall e <- before :: e.positions.Keys !! d.positions.Keys {
          forall m | m in Merged(before) ensures m !in d.positions {
            var e :| e in before && m in e.positions;
            assert m in e.positions.Keys;
          }
        }
        if Merged(before).Keys !! d.positions.Keys {
          forall e, m | e in before && m in e.positions ensures m !in d.positions {
            assert m in Merged(before).Keys;
          }
        }
      }
    }
  }

  lemma WellFormedIff(dexes: seq<DexState>)
    ensures DexesApart(dexes) <==> WellFormed(dexes)
  {
    ApartInWords(dexes);
  }

  function SizeIn(ps: Positions, m: Market): real { if m in ps then ps[m].size else 0.0 }

  /** No DEX goes back in time, and at an unchanged time it agrees with what its markets hold already. */
  ghost predicate NotStale(a: Account, d: DexState) {
    var clock := if d.dex in a.dexObservedMs then a.dexObservedMs[d.dex] else 0;
    && clock <= d.observedMs
    && (clock != 0 && clock == d.observedMs ==>
          && (forall m <- d.positions :: d.positions[m].size != 0.0 ==>
                m.dex == d.dex && SizeIn(a.positions, m) == d.positions[m].size)
          && (forall m <- a.positions :: m.dex == d.dex && a.positions[m].size != 0.0 ==>
                SizeIn(d.positions, m) == a.positions[m].size))
  }

  lemma NotStaleIff(a: Account, d: DexState)
    ensures ClocksAllow(a, d) <==> NotStale(a, d)
  {
    var x, y := Sizes(d.positions), SizesIn(a.positions, d.dex);
    if x == y {
      forall m | m in d.positions && d.positions[m].size != 0.0
        ensures m.dex == d.dex && SizeIn(a.positions, m) == d.positions[m].size
      {
        assert m in x && m in y;
      }
      forall m | m in a.positions && m.dex == d.dex && a.positions[m].size != 0.0
        ensures SizeIn(d.positions, m) == a.positions[m].size
      {
        assert m in y && m in x;
      }
    }
    if NotStale(a, d) && a.DexClock(d.dex) != 0 && a.DexClock(d.dex) == d.observedMs {
      forall m ensures m in x <==> m in y {
        if m in x { assert SizeIn(a.positions, m) == d.positions[m].size; }
        if m in y { assert SizeIn(d.positions, m) == a.positions[m].size; }
      }
      assert x.Keys == y.Keys;
      forall m | m in x ensures x[m] == y[m] {
        assert SizeIn(a.positions, m) == d.positions[m].size;
      }
      assert x == y;
    }
  }

  /** The DEX is one of the scope's markets'. */
  ghost predicate InScopeDex(scopes: Scopes, dex: string) {
    scopes.source.Some? && exists m <- scopes.source.value :: m.dex == dex
  }

  lemma {:induction false} DexesOfMarkets(markets: seq<Market>)
    ensures forall dex :: dex in DexesOf(markets) <==> exists m <- markets :: m.dex == dex
    ensures forall i, j :: 0 <= i < j < |DexesOf(markets)| ==> DexesOf(markets)[i] != DexesOf(markets)[j]
  {
    if markets != [] {
      var n := |markets| - 1;
      DexesOfMarkets(markets[..n]);
      assert markets == markets[..n] + [markets[n]];
    }
  }

  lemma ScopeDexes(scopes: Scopes, dex: string)
    ensures dex in SourceDexes(scopes) <==> InScopeDex(scopes, dex)
    ensures dex in DexSet(scopes) <==> InScopeDex(scopes, dex)
  {
    if scopes.source.Some? {
      DexesOfMarkets(scopes.source.value);
    }
  }

  /** The equity of a DEX can be used: reported, not negative, and positive where a position is open. */
  ghost predicate UsableEquity(dexes: seq<DexState>, dex: string, equity: real) {
    && (exists d <- dexes :: d.dex == dex && d.equity == Some(equity))
    && equity >= 0.0
    && (equity == 0.0 ==> forall d <- dexes, m <- d.positions :: m.dex == dex ==> d.positions[m].size == 0.0)
  }

  lemma {:induction false} NamedIsTheOne(dexes: seq<DexState>, dex: string)
    requires forall i, j :: 0 <= i < j < |dexes| ==> dexes[i].dex != dexes[j].dex
    ensures forall d <- dexes :: d.dex == dex ==> DexNamed(dexes, dex) == Some(d)
    ensures DexNamed(dexes, dex).Some? ==> DexNamed(dexes, dex).value in dexes && DexNamed(dexes, dex).value.dex == dex
  {
    if dexes != [] {
      NamedIsTheOne(dexes[1..], dex);
      assert dexes == [dexes[0]] + dexes[1..];
      forall d | d in dexes && d.dex == dex ensures DexNamed(dexes, dex) == Some(d) {
        var i :| 0 <= i < |dexes| && dexes[i] == d;
      }
    }
  }

  lemma UsableIff(dexes: seq<DexState>, dex: string)
    requires Apart(dexes)
    ensures EquityKnown(dexes, Merged(dexes), dex) <==> exists equity :: UsableEquity(dexes, dex, equity)
    ensures EquityKnown(dexes, Merged(dexes), dex) ==> UsableEquity(dexes, dex, DexNamed(dexes, dex).value.equity.value)
  {
    ApartInWords(dexes);
    NamedIsTheOne(dexes, dex);
    forall d, m | d in dexes && m in d.positions ensures m in Merged(dexes) && Merged(dexes)[m] == d.positions[m] {
      MergedKeeps(dexes, d);
    }
    MergedMembers(dexes);
    if EquityKnown(dexes, Merged(dexes), dex) {
      assert UsableEquity(dexes, dex, DexNamed(dexes, dex).value.equity.value);
    }
    if equity :| UsableEquity(dexes, dex, equity) {
      var d :| d in dexes && d.dex == dex && d.equity == Some(equity);
      assert DexNamed(dexes, dex) == Some(d);
      forall m | m in Merged(dexes) && m.dex == dex && equity == 0.0 ensures Merged(dexes)[m].size == 0.0 {
        var e :| e in dexes && m in e.positions;
      }
    }
  }

  lemma {:induction false} SumIsPositive(dexes: seq<DexState>, names: seq<string>)
    requires forall n <- names :: DexNamed(dexes, n).Some? && DexNamed(dexes, n).value.equity.Some?
    requires forall n <- names :: DexNamed(dexes, n).value.equity.value >= 0.0
    ensures EquitySum(dexes, names) >= 0.0
    ensures EquitySum(dexes, names) > 0.0 <==> exists n <- names :: DexNamed(dexes, n).value.equity.value > 0.0
  {
    if names != [] {
      SumIsPositive(dexes, names[1..]);
      assert names == [names[0]] + names[1..];
      assert names[0] in names;
      if exists n <- names[1..] :: DexNamed(dexes, n).value.equity.value > 0.0 {
        var n :| n in names[1..] && DexNamed(dexes, n).value.equity.value > 0.0;
        assert n in names;
      }
    }
  }

  /** A standard source may be sized: every DEX of its scope has usable equity, and one has some. */
  ghost predicate Sizeable(dexes: seq<DexState>, scopes: Scopes) {
    && (forall dex :: InScopeDex(scopes, dex) ==> exists equity :: UsableEquity(dexes, dex, equity))
    && exists dex, equity :: InScopeDex(scopes, dex) && UsableEquity(dexes, dex, equity) && equity > 0.0
  }

  lemma SizeableIff(dexes: seq<DexState>, scopes: Scopes)
    requires Apart(dexes)
    ensures EquityAllows(dexes, Merged(dexes), SourceDexes(scopes)) <==> Sizeable(dexes, scopes)
  {
    var names := SourceDexes(scopes);
    forall n ensures n in names <==> InScopeDex(scopes, n) { ScopeDexes(scopes, n); }
    forall n ensures EquityKnown(dexes, Merged(dexes), n) <==> exists equity :: UsableEquity(dexes, n, equity)
             ensures EquityKnown(dexes, Merged(dexes), n) ==>
                UsableEquity(dexes, n, DexNamed(dexes, n).value.equity.value)
    {
      UsableIff(dexes, n);
    }
    ApartInWords(dexes);
    if forall n <- names :: EquityKnown(dexes, Merged(dexes), n) {
      SumIsPositive(dexes, names);
      if n :| n in names && DexNamed(dexes, n).value.equity.value > 0.0 {
        assert UsableEquity(dexes, n, DexNamed(dexes, n).value.equity.value);
      }
      if Sizeable(dexes, scopes) {
        var dex, equity :| InScopeDex(scopes, dex) && UsableEquity(dexes, dex, equity) && equity > 0.0;
        NamedIsTheOne(dexes, dex);
        assert dex in names && DexNamed(dexes, dex).value.equity == Some(equity);
      }
    }
  }

  lemma {:induction false} LatestOfDexes(dexes: seq<DexState>)
    requires forall d <- dexes :: d.observedMs > 0
    ensures forall d <- dexes :: d.observedMs <= LatestOf(dexes)
    ensures dexes != [] ==> exists d <- dexes :: d.observedMs == LatestOf(dexes)
    ensures LatestOf(dexes) >= 0
  {
    if dexes != [] {
      var n := |dexes| - 1;
      LatestOfDexes(dexes[..n]);
      assert dexes == dexes[..n] + [dexes[n]];
      if LatestOf(dexes) == dexes[n].observedMs {
        assert dexes[n] in dexes;
      } else {
        assert n > 0 && dexes[..n] != [];
        var d :| d in dexes[..n] && d.observedMs == LatestOf(dexes[..n]);
        assert d in dexes;
      }
    }
  }

  lemma {:induction false} EarliestOfDexes(dexes: seq<DexState>, names: seq<string>)
    requires names != [] && forall n <- names :: DexNamed(dexes, n).Some?
    ensures forall n <- names :: EarliestOf(dexes, names) <= DexNamed(dexes, n).value.observedMs
    ensures exists n <- names :: EarliestOf(dexes, names) == DexNamed(dexes, n).value.observedMs
  {
    assert names == [names[0]] + names[1..];
    if |names| > 1 {
      EarliestOfDexes(dexes, names[1..]);
    }
  }

  lemma {:induction false} ClockOfReported(clocks: map<string, int>, dexes: seq<DexState>, i: nat)
    requires i < |dexes| && forall k, j :: 0 <= k < j < |dexes| ==> dexes[k].dex != dexes[j].dex
    ensures dexes[i].dex in ClocksFrom(clocks, dexes) && ClocksFrom(clocks, dexes)[dexes[i].dex] == dexes[i].observedMs
  {
    var n := |dexes| - 1;
    if i < n {
      assert dexes[i].dex != dexes[n].dex;
      ClockOfReported(clocks, dexes[..n], i);
    }
  }

  lemma {:induction false} ClockOfOther(clocks: map<string, int>, dexes: seq<DexState>, dex: string)
    requires forall d <- dexes :: d.dex != dex
    ensures dex in ClocksFrom(clocks, dexes) <==> dex in clocks
    ensures dex in clocks ==> ClocksFrom(clocks, dexes)[dex] == clocks[dex]
  {
    if dexes != [] {
      assert dexes[|dexes| - 1] in dexes && forall d <- dexes[..|dexes| - 1] :: d in dexes;
      ClockOfOther(clocks, dexes[..|dexes| - 1], dex);
    }
  }

  lemma ClocksFromDexes(clocks: map<string, int>, dexes: seq<DexState>)
    requires forall i, j :: 0 <= i < j < |dexes| ==> dexes[i].dex != dexes[j].dex
    ensures SetsClocks(clocks, ClocksFrom(clocks, dexes), dexes)
  {
    forall d | d in dexes
      ensures d.dex in ClocksFrom(clocks, dexes) && ClocksFrom(clocks, dexes)[d.dex] == d.observedMs {
      var i :| 0 <= i < |dexes| && dexes[i] == d;
      ClockOfReported(clocks, dexes, i);
    }
    forall dex | forall d <- dexes :: d.dex != dex
      ensures dex in ClocksFrom(clocks, dexes) <==> dex in clocks
      ensures dex in clocks ==> ClocksFrom(clocks, dexes)[dex] == clocks[dex]
    {
      ClockOfOther(clocks, dexes, dex);
    }
  }

  ghost predicate ListsPositions(positions: Positions, dexes: seq<DexState>) {
    && (forall d <- dexes, m <- d.positions :: m in positions && positions[m] == d.positions[m])
    && (forall m <- positions :: exists d <- dexes :: m in d.positions)
  }

  ghost predicate SetsClocks(before: map<string, int>, after: map<string, int>, dexes: seq<DexState>) {
    && (forall d <- dexes :: d.dex in after && after[d.dex] == d.observedMs)
    && (forall dex :: (forall d <- dexes :: d.dex != dex) ==>
          (dex in after <==> dex in before) && (dex in before ==> after[dex] == before[dex]))
  }

  /** Positions are stamped with the receipt and the latest of the DEX times; other components keep their times. */
  ghost predicate StampsPositions(a: Account, b: Account, dexes: seq<DexState>, t: int) {
    && PositionsPart in b.receivedMs && b.receivedMs[PositionsPart] == t
    && PositionsPart in b.observedMs && (forall d <- dexes :: d.observedMs <= b.observedMs[PositionsPart])
    && (exists d <- dexes :: d.observedMs == b.observedMs[PositionsPart])
    && forall part :: part != PositionsPart && part != PerpEquityPart ==> SameTimes(a, b, part)
  }

  predicate SameTimes(a: Account, b: Account, part: Component) {
    && (part in b.receivedMs <==> part in a.receivedMs)
    && (part in a.receivedMs ==> b.receivedMs[part] == a.receivedMs[part])
    && (part in b.observedMs <==> part in a.observedMs)
    && (part in a.observedMs ==> b.observedMs[part] == a.observedMs[part])
  }

  /** The account holds exactly what the snapshot lists, at the snapshot's times. */
  ghost predicate HoldsSnapshot(a: Account, b: Account, dexes: seq<DexState>, t: int) {
    && ListsPositions(b.positions, dexes) && SetsClocks(a.dexObservedMs, b.dexObservedMs, dexes)
    && StampsPositions(a, b, dexes, t)
    && b.collateral == a.collateral && b.openOrders == a.openOrders && b.fills == a.fills
  }

  /** The equity the account is sized with: exactly the reported equity of each DEX of the scope, as of the earliest. */
  ghost predicate HoldsEquity(b: Account, dexes: seq<DexState>, scopes: Scopes, t: int) {
    && (forall dex :: dex in b.perpEquity <==> InScopeDex(scopes, dex))
    && (forall dex <- b.perpEquity :: UsableEquity(dexes, dex, b.perpEquity[dex]))
    && PerpEquityPart in b.receivedMs && b.receivedMs[PerpEquityPart] == t
    && PerpEquityPart in b.observedMs
    && (forall d <- dexes :: InScopeDex(scopes, d.dex) ==> b.observedMs[PerpEquityPart] <= d.observedMs)
    && (exists d <- dexes :: InScopeDex(scopes, d.dex) && b.observedMs[PerpEquityPart] == d.observedMs)
  }

  predicate SameEquity(a: Account, b: Account) { b.perpEquity == a.perpEquity && SameTimes(a, b, PerpEquityPart) }

  /** When a position snapshot is accepted. */
  lemma PositionsAcceptedIff(cfg: Config, st: State, frame: Frame, t: int)
    requires frame.PositionsFrame?
    ensures var role := if frame.account == cfg.source then Source else Follower;
            ReducePositions(cfg, st, frame, t).Accepted? <==>
              && (frame.account == cfg.source || frame.account == cfg.follower)
              && WellFormed(frame.dexes)
              && (forall d <- frame.dexes :: NotStale(AccountOf(st, role), d))
              && (role == Source && cfg.standard ==> Sizeable(frame.dexes, st.scopes))
  {
    var role := if frame.account == cfg.source then Source else Follower;
    WellFormedIff(frame.dexes);
    forall d | d in frame.dexes ensures ClocksAllow(AccountOf(st, role), d) <==> NotStale(AccountOf(st, role), d) {
      NotStaleIff(AccountOf(st, role), d);
    }
    if DexesApart(frame.dexes) {
      SizeableIff(frame.dexes, st.scopes);
    }
  }

  lemma MergedLists(dexes: seq<DexState>)
    requires Apart(dexes)
    ensures ListsPositions(Merged(dexes), dexes)
  {
    MergedMembers(dexes);
    forall d, m | d in dexes && m in d.positions ensures m in Merged(dexes) && Merged(dexes)[m] == d.positions[m] {
      MergedKeeps(dexes, d);
    }
  }

  lemma SnapshotTimes(a: Account, b: Account, t: int, observedMs: int)
    requires b.receivedMs == a.receivedMs[PositionsPart := t]
    requires b.observedMs == a.observedMs[PositionsPart := observedMs]
    ensures forall part :: part != PositionsPart ==> SameTimes(a, b, part)
  {
  }

  lemma SnapshotHeld(a: Account, dexes: seq<DexState>, t: int)
    requires WellFormed(dexes)
    ensures var b := a.(positions := Merged(dexes), receivedMs := a.receivedMs[PositionsPart := t],
                        observedMs := a.observedMs[PositionsPart := LatestOf(dexes)],
                        dexObservedMs := ClocksFrom(a.dexObservedMs, dexes));
            HoldsSnapshot(a, b, dexes, t)
  {
    var b := a.(positions := Merged(dexes), receivedMs := a.receivedMs[PositionsPart := t],
                observedMs := a.observedMs[PositionsPart := LatestOf(dexes)],
                dexObservedMs := ClocksFrom(a.dexObservedMs, dexes));
    ApartInWords(dexes);
    LatestOfDexes(dexes);
    ClocksFromDexes(a.dexObservedMs, dexes);
    MergedLists(dexes);
    SnapshotTimes(a, b, t, LatestOf(dexes));
  }

  lemma SumNeedsNames(dexes: seq<DexState>, names: seq<string>)
    ensures EquitySum(dexes, names) > 0.0 ==> names != []
  {
  }

  lemma EquityHeld(dexes: seq<DexState>, scopes: Scopes, b: Account, t: int)
    requires Apart(dexes) && EquityAllows(dexes, Merged(dexes), SourceDexes(scopes))
    requires b.perpEquity == EquityMap(dexes, SourceDexes(scopes))
    requires PerpEquityPart in b.receivedMs && b.receivedMs[PerpEquityPart] == t
    requires PerpEquityPart in b.observedMs && b.observedMs[PerpEquityPart] == EarliestOf(dexes, SourceDexes(scopes))
    ensures HoldsEquity(b, dexes, scopes, t)
  {
    var names := SourceDexes(scopes);
    ApartInWords(dexes);
    forall n ensures n in names <==> InScopeDex(scopes, n) { ScopeDexes(scopes, n); }
    forall n | n in names ensures UsableEquity(dexes, n, DexNamed(dexes, n).value.equity.value) && n in b.perpEquity {
      assert EquityKnown(dexes, Merged(dexes), n);
      UsableIff(dexes, n);
    }
    SumNeedsNames(dexes, names);
    EarliestOfDexes(dexes, names);
    var first :| first in names && EarliestOf(dexes, names) == DexNamed(dexes, first).value.observedMs;
    NamedIsTheOne(dexes, first);
    forall d | d in dexes && InScopeDex(scopes, d.dex) ensures EarliestOf(dexes, names) <= d.observedMs {
      NamedIsTheOne(dexes, d.dex);
      assert d.dex in names;
    }
  }

  lemma SnapshotLeavesEquity(a: Account, b: Account, positions: Positions, dexMs: map<string, int>, t: int,
                             observedMs: int)
    requires b == a.(positions := positions, receivedMs := a.receivedMs[PositionsPart := t],
                     observedMs := a.observedMs[PositionsPart := observedMs], dexObservedMs := dexMs)
    ensures SameEquity(a, b)
  {
  }

  /** Setting the equity too leaves what the snapshot set. */
  lemma EquityLeavesSnapshot(a: Account, b: Account, c: Account, dexes: seq<DexState>, t: int,
                             equity: map<string, real>, observedMs: int)
    requires HoldsSnapshot(a, b, dexes, t)
    requires c == b.(perpEquity := equity, receivedMs := b.receivedMs[PerpEquityPart := t],
                     observedMs := b.observedMs[PerpEquityPart := observedMs])
    ensures HoldsSnapshot(a, c, dexes, t)
  {
    forall part | part != PositionsPart && part != PerpEquityPart ensures SameTimes(a, c, part) {
      assert SameTimes(a, b, part);
    }
  }

  /** What an accepted position snapshot leaves. */
  lemma PositionsInWords(cfg: Config, st: State, frame: Frame, t: int)
    requires frame.PositionsFrame? && ReducePositions(cfg, st, frame, t).Accepted?
    ensures var out := ReducePositions(cfg, st, frame, t);
            var role := if frame.account == cfg.source then Source else Follower;
            var a, b := AccountOf(st, role), AccountOf(out.state, role);
            && Describes(cfg, st, out, role, PositionsPart !in a.receivedMs, [], 0)
            && out.state.order == st.order && out.state.prints == st.prints
            && HoldsSnapshot(a, b, frame.dexes, t)
            && (if role == Source && cfg.standard then HoldsEquity(b, frame.dexes, st.scopes, t) else SameEquity(a, b))
  {
    var role := if frame.account == cfg.source then Source else Follower;
    var a, dexes, names := AccountOf(st, role), frame.dexes, SourceDexes(st.scopes);
    var seen := a.(positions := Merged(dexes), receivedMs := a.receivedMs[PositionsPart := t],
                   observedMs := a.observedMs[PositionsPart := LatestOf(dexes)],
                   dexObservedMs := ClocksFrom(a.dexObservedMs, dexes));
    WellFormedIff(dexes);
    SnapshotHeld(a, dexes, t);
    if role == Source && cfg.standard {
      var b := seen.(perpEquity := EquityMap(dexes, names), receivedMs := seen.receivedMs[PerpEquityPart := t],
                     observedMs := seen.observedMs[PerpEquityPart := EarliestOf(dexes, names)]);
      EquityLeavesSnapshot(a, seen, b, dexes, t, EquityMap(dexes, names), EarliestOf(dexes, names));
      EquityHeld(dexes, st.scopes, b, t);
      AcceptDescribes(cfg, st, role, b, PositionsPart !in a.receivedMs, [], 0);
    } else {
      SnapshotLeavesEquity(a, seen, Merged(dexes), ClocksFrom(a.dexObservedMs, dexes), t, LatestOf(dexes));
      AcceptDescribes(cfg, st, role, seen, PositionsPart !in a.receivedMs, [], 0);
    }
  }

  // ---------- Fill frames ----------

  /** The market is one the role follows. */
  predicate Follows(cfg: Config, scopes: Scopes, role: Role, m: Market) {
    var listed := if role == Source then scopes.source else scopes.follower;
    listed == None || m in listed.value || (role == Source && cfg.acceptOutside)
  }

  /** The row is a perpetual fill of a followed market; spot rows and other markets are passed over. */
  predicate Concerns(cfg: Config, scopes: Scopes, role: Role, row: FillRow) {
    row.PerpRow? && Follows(cfg, scopes, role, row.market)
  }

  /** The row refuses the whole frame: its market is none, or it concerns the role and its fill is malformed. */
  predicate RefusesFrame(cfg: Config, scopes: Scopes, role: Role, row: FillRow) {
    || row.BadMarketRow?
    || (Concerns(cfg, scopes, role, row)
        && (row.raw == None || row.raw.value.size <= 0.0 || row.raw.value.price <= 0.0 || row.raw.value.timeMs <= 0
            || (row.raw.value.oid != None && row.raw.value.oid.value <= 0)))
  }

  lemma RowsInWords(cfg: Config, scopes: Scopes, role: Role, row: FillRow)
    ensures Kept(cfg, scopes, role, row) <==> Concerns(cfg, scopes, role, row)
    ensures BadRow(cfg, scopes, role, row) <==> RefusesFrame(cfg, scopes, role, row)
  {
  }

  /** The record of a row: its fields, and how it was read. */
  predicate RecordOf(f: Fill, how: Reading, m: Market, raw: RawFill) {
    && f.account == how.account && f.market == m && f.txHash == raw.txHash && f.tid == raw.tid && f.timeMs == raw.timeMs
    && f.buy == raw.buy && f.size == raw.size && f.price == raw.price && f.start == raw.start && f.oid == raw.oid
    && f.receivedMs == how.receivedMs && f.epoch == how.epoch && f.isSnapshot == how.isSnapshot
  }

  /** Row `k` has a record, and `n` rows before it do. */
  function RecordedBefore(cfg: Config, scopes: Scopes, role: Role, rows: seq<FillRow>, k: nat): nat
    requires k <= |rows|
  {
    if k == 0 then 0
    else RecordedBefore(cfg, scopes, role, rows, k - 1)
         + if Concerns(cfg, scopes, role, rows[k - 1]) && rows[k - 1].raw.Some? then 1 else 0
  }

  /** Row `k`, if it has a record, has it where the records of the rows before it end. */
  predicate RecordStands(cfg: Config, scopes: Scopes, role: Role, how: Reading, rows: seq<FillRow>, k: nat,
                         records: seq<Fill>)
    requires k < |rows|
  {
    var at := RecordedBefore(cfg, scopes, role, rows, k);
    Concerns(cfg, scopes, role, rows[k]) && rows[k].raw.Some? ==>
      at < |records| && RecordOf(records[at], how, rows[k].market, rows[k].raw.value)
  }

  lemma RecordStaysPut(cfg: Config, scopes: Scopes, role: Role, how: Reading, rows: seq<FillRow>, k: nat,
                       records: seq<Fill>, more: seq<Fill>)
    requires k < |rows| && RecordStands(cfg, scopes, role, how, rows, k, records)
    ensures RecordStands(cfg, scopes, role, how, rows, k, records + more)
  {
  }

  lemma RecordsStep(cfg: Config, scopes: Scopes, role: Role, how: Reading, rows: seq<FillRow>, n: nat)
    requires n < |rows|
    ensures Records(cfg, scopes, role, how, rows[..n + 1])
            == Records(cfg, scopes, role, how, rows[..n])
               + (if Concerns(cfg, scopes, role, rows[n]) && rows[n].raw.Some?
                  then [FillOf(how, rows[n].market, rows[n].raw.value)] else [])
  {
    var upTo := rows[..n + 1];
    assert upTo[..|upTo| - 1] == rows[..n] && upTo[|upTo| - 1] == rows[n];
    RowsInWords(cfg, scopes, role, rows[n]);
  }

  /** The records are those of the rows that concern the role, in their order. */
  lemma {:induction false} RecordsInWords(cfg: Config, scopes: Scopes, role: Role, how: Reading, rows: seq<FillRow>,
                                          n: nat)
    requires n <= |rows|
    ensures |Records(cfg, scopes, role, how, rows[..n])| == RecordedBefore(cfg, scopes, role, rows, n)
    ensures forall k :: 0 <= k < n ==>
              RecordStands(cfg, scopes, role, how, rows, k, Records(cfg, scopes, role, how, rows[..n]))
  {
    if n > 0 {
      RecordsInWords(cfg, scopes, role, how, rows, n - 1);
      RecordsStep(cfg, scopes, role, how, rows, n - 1);
      var before, now := Records(cfg, scopes, role, how, rows[..n - 1]), Records(cfg, scopes, role, how, rows[..n]);
      var more := now[|before|..];
      assert now == before + more;
      forall k | 0 <= k < n ensures RecordStands(cfg, scopes, role, how, rows, k, now) {
        if k < n - 1 {
          RecordStaysPut(cfg, scopes, role, how, rows, k, before, more);
        }
      }
    }
  }

  /** The two records name one fill. */
  predicate OneFill(f: Fill, g: Fill) { f.account == g.account && f.txHash == g.txHash && f.tid == g.tid }

  /** They tell the same about it, whenever and however they were read. */
  predicate Agree(f: Fill, g: Fill) {
    && f.market == g.market && f.timeMs == g.timeMs && f.buy == g.buy && f.size == g.size && f.price == g.price
    && f.start == g.start && f.oid == g.oid
  }

  lemma IdentityInWords(f: Fill, g: Fill)
    ensures f.Identity() == g.Identity() <==> OneFill(f, g)
    ensures f.Print() == g.Print() <==> Agree(f, g)
  {
  }

  /** A frame contradicts itself if two of its records of one fill disagree. */
  lemma SelfConflictIff(records: seq<Fill>)
    ensures SelfConflict(records) <==> exists f <- records, g <- records :: OneFill(f, g) && !Agree(f, g)
  {
    forall f | f in records
      ensures Find(records, f.Identity()).Some? && Find(records, f.Identity()).value in records
              && Find(records, f.Identity()).value.Identity() == f.Identity()
    {
      FindMeans(records, f.Identity());
      var k :| 0 <= k < |records| && records[k] == f;
      assert Ids(records)[k] == f.Identity();
    }
    if SelfConflict(records) {
      var x :| x in records && !SameContents(Find(records, x.Identity()), x);
      IdentityInWords(Find(records, x.Identity()).value, x);
      assert OneFill(Find(records, x.Identity()).value, x);
    }
    if f, g :| f in records && g in records && OneFill(f, g) && !Agree(f, g) {
      IdentityInWords(f, g);
      assert f.Identity() == g.Identity();
      assert !SameContents(Find(records, f.Identity()), f) || !SameContents(Find(records, g.Identity()), g);
    }
  }

  /** A fill frame is a snapshot if it says so, else live once its feed has reported; a first live one is refused. */
  lemma FlagInWords(declared: Option<bool>, hasBaseline: bool)
    ensures var flag := SnapshotFlag(declared, hasBaseline);
            && (flag == Some(true) <==> declared == Some(true))
            && (flag == Some(false) <==> declared != Some(true) && hasBaseline)
  {
    if declared.Some? && !declared.value {
      assert declared == Some(false);
    }
  }

  /** `b` is the newest `cap` of `a`. */
  predicate NewestOf(b: seq<Fill>, a: seq<Fill>, cap: nat) { b == a[if |a| > cap then |a| - cap else 0..] }

  lemma {:induction false} MaxTimeIsLargest(fills: seq<Fill>, atLeast: int)
    ensures MaxTime(fills, atLeast) >= atLeast && forall f <- fills :: MaxTime(fills, atLeast) >= f.timeMs
    ensures MaxTime(fills, atLeast) == atLeast || exists f <- fills :: f.timeMs == MaxTime(fills, atLeast)
  {
    if fills != [] {
      var n := |fills| - 1;
      MaxTimeIsLargest(fills[..n], atLeast);
      assert fills == fills[..n] + [fills[n]];
      if MaxTime(fills, atLeast) == fills[n].timeMs {
        assert fills[n] in fills;
      } else if MaxTime(fills[..n], atLeast) != atLeast {
        var f :| f in fills[..n] && f.timeMs == MaxTime(fills[..n], atLeast);
        assert f in fills;
      }
    }
  }

  /** `last` is the largest of the fills' times and `atLeast`. */
  ghost predicate LargestTime(last: int, fills: seq<Fill>, atLeast: int) {
    && last >= atLeast && (forall f <- fills :: last >= f.timeMs)
    && (last == atLeast || exists f <- fills :: f.timeMs == last)
  }

  lemma {:induction false} FillClockOf(clocks: map<string, int>, fills: seq<Fill>, dex: string)
    ensures var after, was := ClocksWith(clocks, fills), if dex in clocks then clocks[dex] else 0;
            && (dex in after <==> dex in clocks || exists f <- fills :: f.market.dex == dex)
            && (dex in after ==> after[dex] >= was && (dex in clocks || after[dex] >= 0))
            && (dex in after ==> forall f <- fills :: f.market.dex == dex ==> after[dex] >= f.timeMs)
            && (dex in after ==>
                  after[dex] == was || exists f <- fills :: f.market.dex == dex && after[dex] == f.timeMs)
  {
    if fills != [] {
      var n := |fills| - 1;
      FillClockOf(clocks, fills[..n], dex);
      assert fills == fills[..n] + [fills[n]];
      var before, f := ClocksWith(clocks, fills[..n]), fills[n];
      if f.market.dex == dex {
        assert f in fills;
      }
      if exists g <- fills[..n] :: g.market.dex == dex && dex in before && before[dex] == g.timeMs {
        var g :| g in fills[..n] && g.market.dex == dex && before[dex] == g.timeMs;
        assert g in fills;
      }
      forall g | g in fills[..n] ensures g in fills {
      }
    }
  }

  /** What the fills do to the exchange clock of a DEX: the latest of its fills' times, and never back. */
  ghost predicate ClockAfter(clocks: map<string, int>, after: map<string, int>, fills: seq<Fill>, dex: string) {
    var was := if dex in clocks then clocks[dex] else 0;
    && (dex in after <==> dex in clocks || exists f <- fills :: f.market.dex == dex)
    && (dex in after ==>
          && after[dex] >= was && (forall f <- fills :: f.market.dex == dex ==> after[dex] >= f.timeMs)
          && (after[dex] == was || exists f <- fills :: f.market.dex == dex && after[dex] == f.timeMs))
  }

  /** A live frame with new fills restamps the positions and the clocks of their DEXes; any other leaves them. */
  ghost predicate MovesClocks(a: Account, b: Account, added: seq<Fill>, live: bool, t: int) {
    if live && added != [] then
      && PositionsPart in b.receivedMs && b.receivedMs[PositionsPart] == t
      && PositionsPart in b.observedMs
      && LargestTime(b.observedMs[PositionsPart], added,
                     if PositionsPart in a.observedMs then a.observedMs[PositionsPart] else 0)
      && forall dex :: ClockAfter(a.dexObservedMs, b.dexObservedMs, added, dex)
    else b.dexObservedMs == a.dexObservedMs && SameTimes(a, b, PositionsPart)
  }

  /** The component of the feed is stamped with the receipt and the latest time in the frame. */
  ghost predicate StampsFeed(b: Account, part: Component, records: seq<Fill>, t: int) {
    && part in b.receivedMs && b.receivedMs[part] == t
    && part in b.observedMs
    && if records == [] then b.observedMs[part] == t
       else
         && (forall f <- records :: b.observedMs[part] >= f.timeMs)
         && exists f <- records :: b.observedMs[part] == f.timeMs
  }

  /** What an accepted fill frame of one feed leaves in its account, given its distinct and its new records. */
  ghost predicate FillsLeave(cfg: Config, a: Account, b: Account, part: Component, snapshot: bool, records: seq<Fill>,
                             unique: seq<Fill>, added: seq<Fill>, t: int) {
    && (if snapshot then b.positions == a.positions else Chain(a.positions, added) == Ok(b.positions))
    && MovesClocks(a, b, added, !snapshot, t) && StampsFeed(b, part, records, t)
    && (forall other :: other != part && other != PositionsPart ==> SameTimes(a, b, other))
    && (if snapshot && FillsPart !in a.receivedMs && TwapPart !in a.receivedMs
        then NewestOf(b.fills, unique, cfg.capacity)
        else NewestOf(b.fills, a.fills + added, cfg.capacity))
    && b.collateral == a.collateral && b.perpEquity == a.perpEquity && b.openOrders == a.openOrders
  }

  lemma FeedStamped(records: seq<Fill>, t: int)
    ensures var last := if records == [] then t else MaxTime(records, records[0].timeMs);
            if records == [] then last == t
            else (forall f <- records :: last >= f.timeMs) && exists f <- records :: last == f.timeMs
  {
    if records != [] {
      MaxTimeIsLargest(records, records[0].timeMs);
      assert records[0] in records;
    }
  }

  lemma LivePositionsLeave(a: Account, moved: Account, positions: Positions, added: seq<Fill>, t: int)
    requires moved == WithPositions(a, positions, added, t)
    ensures moved.positions == positions && MovesClocks(a, moved, added, true, t)
    ensures moved.fills == a.fills && moved.collateral == a.collateral && moved.perpEquity == a.perpEquity
    ensures moved.openOrders == a.openOrders
    ensures forall other :: other != PositionsPart ==> SameTimes(a, moved, other)
  {
    if added != [] {
      MaxTimeIsLargest(added, if PositionsPart in a.observedMs then a.observedMs[PositionsPart] else 0);
      forall dex ensures ClockAfter(a.dexObservedMs, moved.dexObservedMs, added, dex) {
        FillClockOf(a.dexObservedMs, added, dex);
      }
    }
  }

  lemma RecordedLeaves(cfg: Config, a: Account, moved: Account, part: Component, snapshot: bool, records: seq<Fill>,
                       unique: seq<Fill>, added: seq<Fill>, t: int)
    requires part == FillsPart || part == TwapPart
    requires Moved(a, snapshot, added, t) == Some(moved)
    ensures FillsLeave(cfg, a, Recorded(cfg.capacity, a, moved, part, snapshot, records, unique, added, t), part,
                       snapshot, records, unique, added, t)
  {
    var b := Recorded(cfg.capacity, a, moved, part, snapshot, records, unique, added, t);
    FeedStamped(records, t);
    if !snapshot {
      LivePositionsLeave(a, moved, Chain(a.positions, added).value, added, t);
    }
    assert MovesClocks(a, moved, added, !snapshot, t);
    forall other | other != PositionsPart ensures SameTimes(a, moved, other) {
    }
    forall other | other != part && other != PositionsPart ensures SameTimes(a, b, other) {
      assert SameTimes(a, moved, other);
    }
    assert MovesClocks(a, b, added, !snapshot, t);
  }

  /** Exactly when a fill frame whose rows are sound is accepted. */
  ghost predicate FillsAgree(st: State, a: Account, snapshot: bool, records: seq<Fill>) {
    var unique := Unique(records);
    && !SelfConflict(records)
    && (forall u <- unique :: u.Identity() in st.prints ==> st.prints[u.Identity()] == u.Print())
    && (snapshot || Chain(a.positions, NewRecords(unique, st.prints)).Ok?)
  }

  lemma FillsAcceptedIff(cfg: Config, st: State, role: Role, part: Component, snapshot: bool, records: seq<Fill>,
                         t: int)
    ensures ReduceRecords(cfg, st, role, part, snapshot, records, t).Accepted? <==>
              FillsAgree(st, AccountOf(st, role), snapshot, records)
  {
    var unique := Unique(records);
    assert MemoryConflict(unique, st.prints) <==>
      !(forall u <- unique :: u.Identity() in st.prints ==> st.prints[u.Identity()] == u.Print());
  }

  /** An accepted fill frame, in full. */
  lemma FillsInWords(cfg: Config, st: State, role: Role, part: Component, snapshot: bool, records: seq<Fill>, t: int)
    requires part == FillsPart || part == TwapPart
    requires ReduceRecords(cfg, st, role, part, snapshot, records, t).Accepted?
    ensures var out := ReduceRecords(cfg, st, role, part, snapshot, records, t);
            var unique := Unique(records);
            var added := NewRecords(unique, st.prints);
            && Describes(cfg, st, out, role, snapshot, if snapshot then [] else added, |records| - |added|)
            && FillsLeave(cfg, AccountOf(st, role), AccountOf(out.state, role), part, snapshot, records, unique, added,
                          t)
  {
    var unique := Unique(records);
    var added := NewRecords(unique, st.prints);
    var a := AccountOf(st, role);
    var moved := Moved(a, snapshot, added, t);
    assert moved.Some?;
    RecordedLeaves(cfg, a, moved.value, part, snapshot, records, unique, added, t);
    AcceptDescribes(cfg, Memory(cfg.capacity, st, unique), role,
                    Recorded(cfg.capacity, a, moved.value, part, snapshot, records, unique, added, t), snapshot,
                    if snapshot then [] else added, |records| - |added|);
  }

  /** Whose frame it is, whether it is a snapshot, and which of its rows count or refuse it. */
  lemma FillFrameInWords(cfg: Config, st: State, frame: Frame, t: int)
    requires frame.FillsFrame?
    ensures var role := if frame.account == cfg.source then Source else Follower;
            var part := if frame.twap then TwapPart else FillsPart;
            var snapshot := frame.declared == Some(true);
            var how := Reading(frame.account, t, st.epoch, snapshot);
            && (ReduceFills(cfg, st, frame, t).Accepted? <==>
                  && (frame.account == cfg.source || frame.account == cfg.follower)
                  && (snapshot || part in AccountOf(st, role).receivedMs)
                  && (forall row <- frame.rows :: !RefusesFrame(cfg, st.scopes, role, row))
                  && FillsAgree(st, AccountOf(st, role), snapshot, Records(cfg, st.scopes, role, how, frame.rows)))
            && (ReduceFills(cfg, st, frame, t).Accepted? ==>
                  ReduceFills(cfg, st, frame, t)
                  == ReduceRecords(cfg, st, role, part, snapshot, Records(cfg, st.scopes, role, how, frame.rows), t))
  {
    var role := if frame.account == cfg.source then Source else Follower;
    var part := if frame.twap then TwapPart else FillsPart;
    var snapshot := frame.declared == Some(true);
    var how := Reading(frame.account, t, st.epoch, snapshot);
    RoleInWords(cfg, frame.account);
    FlagInWords(frame.declared, part in AccountOf(st, role).receivedMs);
    FillsAcceptedIff(cfg, st, role, part, snapshot, Records(cfg, st.scopes, role, how, frame.rows), t);
    forall row | row in frame.rows
      ensures BadRow(cfg, st.scopes, role, row) <==> RefusesFrame(cfg, st.scopes, role, row)
    {
      RowsInWords(cfg, st.scopes, role, row);
    }
  }

  // ---------- Connections and scopes ----------

  /** A connection starts over with empty accounts; what is remembered of fills stays. */
  lemma BeginInWords(st: State, t: int)
    ensures var next := Begun(st, t);
            && (t < 0 ==> next == st)
            && (t >= 0 ==>
                  && next.epoch == st.epoch + 1 && next.lastActivityMs == t
                  && IsEmpty(next.source) && IsEmpty(next.follower)
                  && next.order == st.order && next.prints == st.prints && next.scopes == st.scopes)
  {
  }

  predicate IsEmpty(a: Account) {
    && a.positions == map[] && a.collateral == None && a.perpEquity == map[] && a.openOrders == [] && a.fills == []
    && a.receivedMs == map[] && a.observedMs == map[] && a.dexObservedMs == map[]
  }

  lemma NoteInWords(st: State, epoch: nat, t: int)
    ensures var next, counts := Noted(st, epoch, t), st.epoch > 0 && epoch == st.epoch && t > 0;
            && next == st.(lastActivityMs := next.lastActivityMs)
            && next.lastActivityMs == (if counts && t > st.lastActivityMs then t else st.lastActivityMs)
  {
  }

  /** A standard source needs markets, and loses its equity, but nothing else, when the DEXes of its markets change. */
  lemma RescopeInWords(cfg: Config, st: State, next: Scopes)
    ensures var out := Rescoped(cfg, st, next);
            var allowed := cfg.standard ==> next.source.Some? && next.source.value != [];
            var changes := cfg.standard && exists dex :: InScopeDex(next, dex) != InScopeDex(st.scopes, dex);
            && ScopeFits(cfg, next) == allowed
            && (!allowed ==> out == st)
            && (allowed && !changes ==> out == st.(scopes := next))
            && (allowed && changes ==>
                  && out == st.(scopes := next, source := out.source) && out.source.perpEquity == map[]
                  && PerpEquityPart !in out.source.receivedMs && PerpEquityPart !in out.source.observedMs
                  && (forall part :: part != PerpEquityPart ==> SameTimes(st.source, out.source, part))
                  && out.source == st.source.(perpEquity := map[], receivedMs := out.source.receivedMs,
                                              observedMs := out.source.observedMs))
  {
    forall dex ensures dex in DexSet(next) <==> InScopeDex(next, dex) { ScopeDexes(next, dex); }
    forall dex ensures dex in DexSet(st.scopes) <==> InScopeDex(st.scopes, dex) { ScopeDexes(st.scopes, dex); }
  }
}
