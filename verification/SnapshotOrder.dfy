/**
 The initial fill snapshots of one connection. Each of the two feeds sends one; which fills the account lists
 afterwards can depend on which came first.
 */
module SnapshotOrder {
  import opened Outcomes
  import opened FillDedupe
  import opened FillChain
  import opened AccountStream
  import opened StreamRuns

  // ---------- Identity lists ----------

  /** The memory after a frame with these identities. */
  function MemoryAfter(cap: nat, order: seq<FillId>, ids: seq<FillId>): seq<FillId> {
    Newest(cap, TouchAll(order, ids))
  }

  /** What two snapshots list: the first replaces the list, the second appends what the memory does not know. */
  function Listing(cap: nat, order: seq<FillId>, first: seq<FillId>, second: seq<FillId>): seq<FillId> {
    Newest(cap, Newest(cap, first) + NewOf(MemoryAfter(cap, order, first), second))
  }

  lemma NewestOfTail(cap: nat, a: seq<FillId>, b: seq<FillId>)
    requires |b| <= cap
    ensures forall id <- b :: id in Newest(cap, a + b)
  {
    forall id | id in b ensures id in Newest(cap, a + b) {
      var k :| 0 <= k < |b| && b[k] == id;
      var drop := if |a| + |b| > cap then |a| + |b| - cap else 0;
      assert Newest(cap, a + b)[|a| + k - drop] == id;
    }
  }

  /** A frame that fits is remembered whole. */
  lemma FrameIsRemembered(cap: nat, order: seq<FillId>, ids: seq<FillId>)
    requires NoRepeats(ids) && |ids| <= cap
    ensures forall id <- ids :: id in MemoryAfter(cap, order, ids)
  {
    TouchAllIs(order, ids);
    NewestOfTail(cap, WithoutAll(order, ids), ids);
  }

  /** Both snapshots together fit into the memory. */
  ghost predicate BothFit(cap: nat, a: seq<FillId>, b: seq<FillId>) { |Distinct(a) + Distinct(b)| <= cap }

  lemma ListingMeans(cap: nat, order: seq<FillId>, first: seq<FillId>, second: seq<FillId>)
    requires NoRepeats(first) && NoRepeats(second) && BothFit(cap, first, second)
    ensures forall id :: id in Listing(cap, order, first, second)
                         <==> id in first || (id in second && id !in MemoryAfter(cap, order, first))
  {
    var added := NewOf(MemoryAfter(cap, order, first), second);
    CountDistinct(first);
    Smaller(Distinct(first), Distinct(first) + Distinct(second));
    FrameIsRemembered(cap, order, first);
    NewOfMembers(MemoryAfter(cap, order, first), second);
    NoRepeatsConcat(first, added);
    CountDistinct(first + added);
    Smaller(Distinct(first + added), Distinct(first) + Distinct(second));
    assert Newest(cap, first) == first && Newest(cap, first + added) == first + added;
  }

  /** An identity of one snapshot only is one the other snapshot's frame has left in memory. */
  ghost predicate StillKnown(cap: nat, order: seq<FillId>, ids: seq<FillId>, other: seq<FillId>) {
    exists id <- ids :: id !in other && id in MemoryAfter(cap, order, other)
  }

  /**
   While both snapshots fit, the two orders list the same identities exactly when none that is in one snapshot only
   is still remembered after the other.
   */
  lemma ListingOrderIff(cap: nat, order: seq<FillId>, a: seq<FillId>, b: seq<FillId>)
    requires NoRepeats(a) && NoRepeats(b) && BothFit(cap, a, b)
    ensures Distinct(Listing(cap, order, a, b)) == Distinct(Listing(cap, order, b, a))
            <==> !StillKnown(cap, order, a, b) && !StillKnown(cap, order, b, a)
  {
    assert Distinct(a) + Distinct(b) == Distinct(b) + Distinct(a);
    ListingMeans(cap, order, a, b);
    ListingMeans(cap, order, b, a);
    var x, y := Distinct(Listing(cap, order, a, b)), Distinct(Listing(cap, order, b, a));
    if x == y {
      forall id | id in a && id !in b ensures id !in MemoryAfter(cap, order, b) { assert id in x <==> id in y; }
      forall id | id in b && id !in a ensures id !in MemoryAfter(cap, order, a) { assert id in x <==> id in y; }
    } else {
      var id :| (id in x && id !in y) || (id in y && id !in x);
    }
  }

  /** Two snapshots that share nothing and that memory knows nothing of. */
  ghost predicate Unrelated(order: seq<FillId>, a: seq<FillId>, b: seq<FillId>) {
    forall id :: (id in a ==> id !in b && id !in order) && (id in b ==> id !in order)
  }

  lemma NewestSplit(cap: nat, a: seq<FillId>, b: seq<FillId>)
    ensures Newest(cap, Newest(cap, a) + b) == Newest(cap, a + b)
  {
    if |a| > cap {
      var drop := |a| - cap;
      assert a + b == a[..drop] + (a[drop..] + b);
    }
  }

  lemma {:induction false} AllNew(memory: seq<FillId>, ids: seq<FillId>)
    requires forall id <- ids :: id !in memory
    ensures NewOf(memory, ids) == ids
  {
    if ids != [] {
      AllNew(memory, ids[1..]);
    }
  }

  lemma TouchedComesFrom(cap: nat, order: seq<FillId>, ids: seq<FillId>)
    requires NoRepeats(order)
    ensures forall id <- MemoryAfter(cap, order, ids) :: id in order || id in ids
  {
    TouchAllMembers(order, ids);
  }

  lemma UnrelatedListing(cap: nat, order: seq<FillId>, a: seq<FillId>, b: seq<FillId>)
    requires NoRepeats(order) && Unrelated(order, a, b)
    ensures Listing(cap, order, a, b) == Newest(cap, a + b)
  {
    TouchedComesFrom(cap, order, a);
    AllNew(MemoryAfter(cap, order, a), b);
    NewestSplit(cap, a, b);
  }

  /** A snapshot that fills the memory alone pushes the other one out of the list. */
  lemma LongerDiffers(cap: nat, a: seq<FillId>, b: seq<FillId>)
    requires cap > 0 && |a| >= cap && b != [] && forall id <- b :: id !in a
    ensures Distinct(Newest(cap, a + b)) != Distinct(Newest(cap, b + a))
  {
    var last := b[|b| - 1];
    assert last in b && (a + b)[|a + b| - 1] == last;
    var ab := Newest(cap, a + b);
    assert ab[|ab| - 1] == last;
    assert |b + a| > cap && (b + a)[|b + a| - cap..] == a[|a| - cap..];
    forall id | id in Newest(cap, b + a) ensures id in a {
    }
    assert last in Distinct(ab) && last !in Distinct(Newest(cap, b + a));
  }

  lemma FirstDropped(cap: nat, a: seq<FillId>, b: seq<FillId>)
    requires NoRepeats(a + b) && a != [] && |a| + |b| > cap
    ensures a[0] !in Newest(cap, a + b)
  {
    var ab := a + b;
    assert ab[0] == a[0];
    var kept := ab[|ab| - cap..];
    forall k | 0 <= k < |kept| ensures kept[k] != a[0] {
      assert kept[k] == ab[|ab| - cap + k];
    }
  }

  /** Over capacity, one order lists an identity that the other does not. */
  lemma OverfullDiffers(cap: nat, a: seq<FillId>, b: seq<FillId>)
    requires cap > 0 && NoRepeats(a + b) && a != [] && b != [] && |a| + |b| > cap
    ensures Distinct(Newest(cap, a + b)) != Distinct(Newest(cap, b + a))
  {
    NoRepeatsConcat(a, b);
    if |a| >= cap {
      LongerDiffers(cap, a, b);
    } else if |b| >= cap {
      LongerDiffers(cap, b, a);
    } else {
      FirstDropped(cap, a, b);
      NewestOfTail(cap, b, a);
      assert a[0] in Distinct(Newest(cap, b + a)) && a[0] !in Distinct(Newest(cap, a + b));
    }
  }

  /** For snapshots with nothing in common and nothing remembered, the order is irrelevant exactly when both fit. */
  lemma UnrelatedOrderIff(cap: nat, order: seq<FillId>, a: seq<FillId>, b: seq<FillId>)
    requires cap > 0 && NoRepeats(order) && NoRepeats(a) && NoRepeats(b) && Unrelated(order, a, b)
    ensures Distinct(Listing(cap, order, a, b)) == Distinct(Listing(cap, order, b, a))
            <==> (a == [] || b == [] || |a| + |b| <= cap)
  {
    UnrelatedListing(cap, order, a, b);
    UnrelatedListing(cap, order, b, a);
    NoRepeatsConcat(a, b);
    NoRepeatsConcat(b, a);
    if a == [] || b == [] {
      assert a + b == b + a;
    } else if |a| + |b| <= cap {
      assert Distinct(a + b) == Distinct(b + a);
    } else {
      OverfullDiffers(cap, a, b);
    }
  }

  // ---------- Two frames of one connection ----------

  /** A fill frame of this account. */
  ghost predicate FillsOf(cfg: Config, role: Role, x: Input) {
    x.Deliver? && x.frame.FillsFrame? && RoleOf(cfg, x.frame.account) == Some(role)
  }

  function PartOf(x: Input): Component
    requires x.Deliver? && x.frame.FillsFrame?
  {
    if x.frame.twap then TwapPart else FillsPart
  }

  /** Neither feed has reported on this connection. */
  ghost predicate NothingYet(st: State, role: Role) {
    FillsPart !in st.Of(role).receivedMs && TwapPart !in st.Of(role).receivedMs
  }

  ghost predicate Accepts(cfg: Config, st: State, x: Input, y: Input) {
    OutcomeOf(cfg, st, x).Accepted? && OutcomeOf(cfg, After(cfg, st, x), y).Accepted?
  }

  ghost function FrameIds(cfg: Config, st: State, x: Input): seq<FillId>
    requires x.Deliver? && x.frame.FillsFrame?
  {
    Ids(FrameFills(cfg, st, x))
  }

  /** The identities the account lists after the two frames. */
  ghost function Listed(cfg: Config, st: State, role: Role, x: Input, y: Input): set<FillId> {
    Distinct(Ids(RunFrom(cfg, st, [x, y]).Of(role).fills))
  }

  lemma IdsOfLast(cap: nat, fills: seq<Fill>)
    ensures Ids(LastFills(cap, fills)) == Newest(cap, Ids(fills))
  {
  }

  lemma IdsConcat(a: seq<Fill>, b: seq<Fill>)
    ensures Ids(a + b) == Ids(a) + Ids(b)
  {
  }

  /** What a snapshot's records do to the account's list and to what it has received. */
  lemma RecordsList(cfg: Config, st: State, role: Role, part: Component, records: seq<Fill>, t: int)
    requires ReduceRecords(cfg, st, role, part, true, records, t).Accepted? && (part == FillsPart || part == TwapPart)
    ensures var next := ReduceRecords(cfg, st, role, part, true, records, t).state;
            && next.Of(role).fills
               == (if NothingYet(st, role) then LastFills(cfg.capacity, Unique(records))
                   else LastFills(cfg.capacity, st.Of(role).fills + NewRecords(Unique(records), st.prints)))
            && next.Of(role).receivedMs == st.Of(role).receivedMs[part := t]
            && next.epoch == st.epoch && next.scopes == st.scopes
  {
  }

  /** The same for a frame whose feed has not reported yet, which must therefore be a snapshot. */
  lemma SnapshotLists(cfg: Config, st: State, role: Role, x: Input)
    requires StateOk(cfg, st) && FillsOf(cfg, role, x) && OutcomeOf(cfg, st, x).Accepted?
    requires PartOf(x) !in st.Of(role).receivedMs
    ensures var next, unique := After(cfg, st, x), FrameFills(cfg, st, x);
            && next.Of(role).fills
               == (if NothingYet(st, role) then LastFills(cfg.capacity, unique)
                   else LastFills(cfg.capacity, st.Of(role).fills + NewRecords(unique, st.prints)))
            && next.Of(role).receivedMs == st.Of(role).receivedMs[PartOf(x) := x.receivedMs]
            && next.epoch == st.epoch && next.scopes == st.scopes
  {
    var f := x.frame;
    FillsComeToRecords(cfg, st, f, x.receivedMs);
    var flag := SnapshotFlag(f.declared, PartOf(x) in st.Of(role).receivedMs).value;
    var records := Records(cfg, st.scopes, role, Reading(f.account, x.receivedMs, st.epoch, flag), f.rows);
    RecordsList(cfg, st, role, PartOf(x), records, x.receivedMs);
  }

  lemma FrameReadsAlike(cfg: Config, a: State, b: State, role: Role, x: Input)
    requires FillsOf(cfg, role, x) && a.epoch == b.epoch && a.scopes == b.scopes
    requires PartOf(x) in a.Of(role).receivedMs <==> PartOf(x) in b.Of(role).receivedMs
    ensures FrameFills(cfg, a, x) == FrameFills(cfg, b, x)
  {
  }

  lemma OneStep(cfg: Config, st: State, x: Input)
    ensures RunFrom(cfg, st, [x]) == After(cfg, st, x)
  {
    assert [x][..0] == [];
    assert RunFrom(cfg, st, [x]) == After(cfg, RunFrom(cfg, st, []), x);
  }

  lemma TwoSteps(cfg: Config, st: State, x: Input, y: Input)
    ensures RunFrom(cfg, st, [x, y]) == After(cfg, After(cfg, st, x), y)
  {
    assert [x, y][..1] == [x];
    OneStep(cfg, st, x);
  }

  /** After both snapshots the list is the first with what the second adds to the memory then held, newest last. */
  lemma SecondSnapshot(cfg: Config, st: State, role: Role, x: Input, y: Input)
    requires StateOk(cfg, st) && NothingYet(st, role) && FillsOf(cfg, role, x) && FillsOf(cfg, role, y)
    requires x.frame.twap != y.frame.twap && Accepts(cfg, st, x, y)
    ensures Ids(RunFrom(cfg, st, [x, y]).Of(role).fills)
            == Listing(cfg.capacity, st.order, FrameIds(cfg, st, x), FrameIds(cfg, st, y))
    ensures NoRepeats(FrameIds(cfg, st, x)) && NoRepeats(FrameIds(cfg, st, y))
  {
    var mid := After(cfg, st, x);
    SnapshotLists(cfg, st, role, x);
    FillFrameEffect(cfg, st, x);
    SnapshotLists(cfg, mid, role, y);
    FillFrameEffect(cfg, mid, y);
    FrameReadsAlike(cfg, st, mid, role, y);
    var first, second := FrameFills(cfg, st, x), FrameFills(cfg, st, y);
    NewRecordsAreNewOf(second, mid.prints, mid.order);
    IdsOfLast(cfg.capacity, first);
    IdsConcat(LastFills(cfg.capacity, first), NewRecords(second, mid.prints));
    IdsOfLast(cfg.capacity, mid.Of(role).fills + NewRecords(second, mid.prints));
    TwoSteps(cfg, st, x, y);
  }

  /** The setting of both theorems: the two feeds' first frames of a connection, accepted in either order. */
  ghost predicate EitherOrder(cfg: Config, st: State, role: Role, x: Input, y: Input) {
    && StateOk(cfg, st) && NothingYet(st, role) && FillsOf(cfg, role, x) && FillsOf(cfg, role, y)
    && x.frame.twap != y.frame.twap && Accepts(cfg, st, x, y) && Accepts(cfg, st, y, x)
  }

  /**
   Where both snapshots fit the capacity, however full the memory is, they list the same fills in either order exactly
   when no identity of one snapshot only is still remembered after the other snapshot.
   */
  lemma SnapshotOrderIff(cfg: Config, st: State, role: Role, x: Input, y: Input)
    requires EitherOrder(cfg, st, role, x, y)
    requires BothFit(cfg.capacity, FrameIds(cfg, st, x), FrameIds(cfg, st, y))
    ensures Listed(cfg, st, role, x, y) == Listed(cfg, st, role, y, x)
            <==> && !StillKnown(cfg.capacity, st.order, FrameIds(cfg, st, x), FrameIds(cfg, st, y))
                 && !StillKnown(cfg.capacity, st.order, FrameIds(cfg, st, y), FrameIds(cfg, st, x))
  {
    SecondSnapshot(cfg, st, role, x, y);
    SecondSnapshot(cfg, st, role, y, x);
    ListingOrderIff(cfg.capacity, st.order, FrameIds(cfg, st, x), FrameIds(cfg, st, y));
  }

  /** Snapshots with nothing in common and nothing remembered list the same in either order exactly when both fit. */
  lemma UnrelatedSnapshotsIff(cfg: Config, st: State, role: Role, x: Input, y: Input)
    requires EitherOrder(cfg, st, role, x, y) && cfg.capacity > 0
    requires Unrelated(st.order, FrameIds(cfg, st, x), FrameIds(cfg, st, y))
    ensures var a, b := FrameIds(cfg, st, x), FrameIds(cfg, st, y);
            Listed(cfg, st, role, x, y) == Listed(cfg, st, role, y, x)
            <==> (a == [] || b == [] || |a| + |b| <= cfg.capacity)
  {
    SecondSnapshot(cfg, st, role, x, y);
    SecondSnapshot(cfg, st, role, y, x);
    UnrelatedOrderIff(cfg.capacity, st.order, FrameIds(cfg, st, x), FrameIds(cfg, st, y));
  }

  // ---------- When both are accepted ----------

  ghost function RecordsIn(cfg: Config, st: State, role: Role, x: Input): seq<Fill>
    requires FillsOf(cfg, role, x)
  {
    Records(cfg, st.scopes, role, Reading(x.frame.account, x.receivedMs, st.epoch, true), x.frame.rows)
  }

  /** A well-formed snapshot that agrees with itself and with memory. */
  ghost predicate Sound(cfg: Config, st: State, role: Role, x: Input) {
    && FillsOf(cfg, role, x) && x.frame.declared == Some(true) && FrameFits(st, x.epoch, x.receivedMs)
    && (forall row <- x.frame.rows :: !BadRow(cfg, st.scopes, role, row))
    && !SelfConflict(RecordsIn(cfg, st, role, x)) && !MemoryConflict(Unique(RecordsIn(cfg, st, role, x)), st.prints)
  }

  lemma {:induction false} PrintsWithValues(prints: map<FillId, Fingerprint>, added: seq<Fill>, id: FillId)
    requires id in PrintsWith(prints, added)
    ensures (id in prints && PrintsWith(prints, added)[id] == prints[id])
            || exists f <- added :: f.Identity() == id && f.Print() == PrintsWith(prints, added)[id]
  {
    if added != [] {
      var n := |added| - 1;
      assert added[n] in added && forall f <- added[..n] :: f in added;
      if id != added[n].Identity() {
        PrintsWithValues(prints, added[..n], id);
      }
    }
  }

  /** After a snapshot's records, memory holds only what it held before and their own fingerprints. */
  lemma RecordsPrints(cfg: Config, st: State, role: Role, part: Component, records: seq<Fill>, t: int, id: FillId)
    requires ReduceRecords(cfg, st, role, part, true, records, t).Accepted?
    requires id in ReduceRecords(cfg, st, role, part, true, records, t).state.prints
    ensures var held := ReduceRecords(cfg, st, role, part, true, records, t).state.prints[id];
            (id in st.prints && held == st.prints[id]) || exists f <- records :: f.Identity() == id && f.Print() == held
  {
    PrintsWithValues(st.prints, NewRecords(Unique(records), st.prints), id);
    UniqueMeans(records);
    NewRecordsMean(Unique(records), st.prints);
  }

  lemma AcceptedUnlessConflict(cfg: Config, st: State, role: Role, part: Component, records: seq<Fill>, t: int)
    ensures ReduceRecords(cfg, st, role, part, true, records, t).Accepted?
            <==> !SelfConflict(records) && !MemoryConflict(Unique(records), st.prints)
  {
  }

  lemma SoundComesToRecords(cfg: Config, st: State, role: Role, x: Input)
    requires Sound(cfg, st, role, x)
    ensures ReduceFills(cfg, st, x.frame, x.receivedMs)
            == ReduceRecords(cfg, st, role, PartOf(x), true, RecordsIn(cfg, st, role, x), x.receivedMs)
    ensures FrameFills(cfg, st, x) == Unique(RecordsIn(cfg, st, role, x))
  {
  }

  lemma ReduceIsFills(cfg: Config, st: State, frame: Frame, epoch: nat, t: int, out: Outcome)
    requires frame.FillsFrame? && FrameFits(st, epoch, t) && out == ReduceFills(cfg, st, frame, t) && out.Accepted?
    ensures Reduce(cfg, st, frame, epoch, t)
            == out.(state := out.state.(lastActivityMs := Max(out.state.lastActivityMs, t)))
  {
    assert ReduceFrame(cfg, st, frame, t) == out;
  }

  lemma FillsDelivered(cfg: Config, st: State, x: Input)
    requires x.Deliver? && x.frame.FillsFrame? && FrameFits(st, x.epoch, x.receivedMs)
    requires ReduceFills(cfg, st, x.frame, x.receivedMs).Accepted?
    ensures OutcomeOf(cfg, st, x).Accepted?
    ensures var next := ReduceFills(cfg, st, x.frame, x.receivedMs).state;
            After(cfg, st, x) == next.(lastActivityMs := Max(next.lastActivityMs, x.receivedMs))
  {
    ReduceIsFills(cfg, st, x.frame, x.epoch, x.receivedMs, ReduceFills(cfg, st, x.frame, x.receivedMs));
  }

  lemma SoundIsAccepted(cfg: Config, st: State, role: Role, x: Input)
    requires Sound(cfg, st, role, x)
    ensures OutcomeOf(cfg, st, x).Accepted?
    ensures FrameFills(cfg, st, x) == Unique(RecordsIn(cfg, st, role, x))
    ensures var out := ReduceRecords(cfg, st, role, PartOf(x), true, RecordsIn(cfg, st, role, x), x.receivedMs);
            out.Accepted?
            && After(cfg, st, x) == out.state.(lastActivityMs := Max(out.state.lastActivityMs, x.receivedMs))
  {
    SoundComesToRecords(cfg, st, role, x);
    AcceptedUnlessConflict(cfg, st, role, PartOf(x), RecordsIn(cfg, st, role, x), x.receivedMs);
    FillsDelivered(cfg, st, x);
  }

  /** Two sound snapshots that agree with each other are accepted one after the other, in either order. */
  lemma AgreeingSnapshotsAccepted(cfg: Config, st: State, role: Role, x: Input, y: Input)
    requires Sound(cfg, st, role, x) && Sound(cfg, st, role, y)
    requires forall f <- RecordsIn(cfg, st, role, x), g <- RecordsIn(cfg, st, role, y) ::
               f.Identity() == g.Identity() ==> f.Print() == g.Print()
    ensures Accepts(cfg, st, x, y) && Accepts(cfg, st, y, x)
  {
    SecondIsSound(cfg, st, role, x, y);
    SecondIsSound(cfg, st, role, y, x);
  }

  lemma SecondIsSound(cfg: Config, st: State, role: Role, x: Input, y: Input)
    requires Sound(cfg, st, role, x) && Sound(cfg, st, role, y)
    requires forall f <- RecordsIn(cfg, st, role, x), g <- RecordsIn(cfg, st, role, y) ::
               f.Identity() == g.Identity() ==> f.Print() == g.Print()
    ensures Accepts(cfg, st, x, y) && Sound(cfg, After(cfg, st, x), role, y)
  {
    var mid := After(cfg, st, x);
    SoundIsAccepted(cfg, st, role, x);
    RecordsList(cfg, st, role, PartOf(x), RecordsIn(cfg, st, role, x), x.receivedMs);
    assert RecordsIn(cfg, mid, role, y) == RecordsIn(cfg, st, role, y);
    var unique := Unique(RecordsIn(cfg, st, role, y));
    UniqueMeans(RecordsIn(cfg, st, role, y));
    forall u <- unique | u.Identity() in mid.prints ensures mid.prints[u.Identity()] == u.Print() {
      SnapshotPrints(cfg, st, role, x, u.Identity());
    }
    SoundIsAccepted(cfg, mid, role, y);
  }

  // ---------- Runs in which the order matters ----------

  /** A snapshot of one feed for the source account. */
  function Snapshot(cfg: Config, rows: seq<FillRow>, twap: bool, epoch: nat, t: int): Input {
    Deliver(FillsFrame(cfg.source, Some(true), rows, twap), epoch, t)
  }

  function RowOf(m: Market, raw: RawFill): FillRow { PerpRow(m, Some(raw)) }

  function IdOf(cfg: Config, raw: RawFill): FillId { FillId(cfg.source, raw.txHash, raw.tid) }

  function PrintOf(m: Market, raw: RawFill): Fingerprint {
    Fingerprint(m, raw.timeMs, raw.buy, raw.size, raw.price, raw.start, raw.oid)
  }

  const ALL_MARKETS := Scopes(None, None)

  lemma OneRecord(cfg: Config, scopes: Scopes, role: Role, how: Reading, m: Market, raw: RawFill)
    requires InScope(cfg, scopes, role, m)
    ensures Records(cfg, scopes, role, how, [RowOf(m, raw)]) == [FillOf(how, m, raw)]
  {
    var rows := [RowOf(m, raw)];
    assert rows[..|rows| - 1] == [];
    assert Records(cfg, scopes, role, how, []) == [];
    assert Kept(cfg, scopes, role, rows[|rows| - 1]);
  }

  lemma OneIsUnique(f: Fill)
    ensures Unique([f]) == [f] && !SelfConflict([f]) && Ids([f]) == [f.Identity()]
  {
    assert [f][..0] == [];
    assert Find([f], f.Identity()) == Some(f);
  }

  lemma OneRowIsSound(cfg: Config, st: State, m: Market, raw: RawFill, twap: bool, t: int)
    requires FrameFits(st, st.epoch, t) && st.scopes == ALL_MARKETS && ValidRaw(raw)
    requires IdOf(cfg, raw) in st.prints ==> st.prints[IdOf(cfg, raw)] == PrintOf(m, raw)
    ensures var x := Snapshot(cfg, [RowOf(m, raw)], twap, st.epoch, t);
            && Sound(cfg, st, Source, x)
            && FrameIds(cfg, st, x) == [IdOf(cfg, raw)]
            && forall f <- RecordsIn(cfg, st, Source, x) :: f.Identity() == IdOf(cfg, raw)
                && f.Print() == PrintOf(m, raw)
  {
    var x := Snapshot(cfg, [RowOf(m, raw)], twap, st.epoch, t);
    var f := FillOf(Reading(cfg.source, t, st.epoch, true), m, raw);
    OneRecord(cfg, st.scopes, Source, Reading(cfg.source, t, st.epoch, true), m, raw);
    OneIsUnique(f);
    SoundComesToRecords(cfg, st, Source, x);
    assert Ids([f]) == [IdOf(cfg, raw)];
  }

  lemma NoRowsAreSound(cfg: Config, st: State, twap: bool, t: int)
    requires FrameFits(st, st.epoch, t)
    ensures var x := Snapshot(cfg, [], twap, st.epoch, t);
            Sound(cfg, st, Source, x) && FrameIds(cfg, st, x) == [] && RecordsIn(cfg, st, Source, x) == []
  {
    SoundComesToRecords(cfg, st, Source, Snapshot(cfg, [], twap, st.epoch, t));
  }

  /** One connection whose TWAP snapshot lists one fill, followed by a new connection: the fill alone is remembered. */
  function OneFillThenReconnect(cfg: Config, m: Market, raw: RawFill, t: int): seq<Input> {
    [Begin(t), Snapshot(cfg, [RowOf(m, raw)], true, 1, t), Begin(t)]
  }

  lemma OneFillIsRemembered(cfg: Config, m: Market, raw: RawFill, t: int)
    requires cfg.capacity > 0 && t > 0 && ValidRaw(raw)
    ensures var st := RunFrom(cfg, Start(ALL_MARKETS), OneFillThenReconnect(cfg, m, raw, t));
            && StateOk(cfg, st) && st.epoch == 2 && st.scopes == ALL_MARKETS && NothingYet(st, Source)
            && st.order == [IdOf(cfg, raw)] && st.prints == map[IdOf(cfg, raw) := PrintOf(m, raw)]
  {
    var st, x := Begun(Start(ALL_MARKETS), t), Snapshot(cfg, [RowOf(m, raw)], true, 1, t);
    FirstFillIsRemembered(cfg, st, m, raw, t);
    ThreeSteps(cfg, Start(ALL_MARKETS), Begin(t), x, Begin(t));
  }

  lemma FirstFillIsRemembered(cfg: Config, st: State, m: Market, raw: RawFill, t: int)
    requires cfg.capacity > 0 && t > 0 && ValidRaw(raw) && st == Begun(Start(ALL_MARKETS), t)
    ensures var next := After(cfg, st, Snapshot(cfg, [RowOf(m, raw)], true, 1, t));
            && StateOk(cfg, next) && next.epoch == 1 && next.scopes == ALL_MARKETS
            && next.order == [IdOf(cfg, raw)] && next.prints == map[IdOf(cfg, raw) := PrintOf(m, raw)]
  {
    var id, x := IdOf(cfg, raw), Snapshot(cfg, [RowOf(m, raw)], true, 1, t);
    OneRowIsSound(cfg, st, m, raw, true, t);
    SnapshotRemembers(cfg, st, Source, x);
    TouchedFromNothing(cfg.capacity, id);
    OnlyPrint(cfg, After(cfg, st, x), id);
    SnapshotPrints(cfg, st, Source, x, id);
  }

  lemma OnlyPrint(cfg: Config, st: State, id: FillId)
    requires StateOk(cfg, st) && st.order == [id]
    ensures st.prints.Keys == {id}
  {
    assert id in st.order && forall x :: x in st.order ==> x == id;
    forall x ensures x in st.prints.Keys <==> x in {id} {
      assert x in st.order <==> x in st.prints;
    }
  }

  lemma SnapshotRemembers(cfg: Config, st: State, role: Role, x: Input)
    requires StateOk(cfg, st) && Sound(cfg, st, role, x) && PartOf(x) !in st.Of(role).receivedMs
    ensures var next := After(cfg, st, x);
            && StateOk(cfg, next) && next.epoch == st.epoch && next.scopes == st.scopes
            && next.order == MemoryAfter(cfg.capacity, st.order, FrameIds(cfg, st, x))
  {
    SoundIsAccepted(cfg, st, role, x);
    FillFrameEffect(cfg, st, x);
    SnapshotLists(cfg, st, role, x);
  }

  lemma SnapshotPrints(cfg: Config, st: State, role: Role, x: Input, id: FillId)
    requires Sound(cfg, st, role, x) && id in After(cfg, st, x).prints
    ensures var held := After(cfg, st, x).prints[id];
            (id in st.prints && held == st.prints[id])
            || exists f <- RecordsIn(cfg, st, role, x) :: f.Identity() == id && f.Print() == held
  {
    SoundIsAccepted(cfg, st, role, x);
    RecordsPrints(cfg, st, role, PartOf(x), RecordsIn(cfg, st, role, x), x.receivedMs, id);
  }

  lemma TouchedFromNothing(cap: nat, id: FillId)
    requires cap > 0
    ensures MemoryAfter(cap, [], [id]) == [id] && id in [id]
  {
    assert [id][..0] == [];
    assert TouchAll([], [id]) == Touch([], id);
  }

  lemma ThreeSteps(cfg: Config, st: State, x: Input, y: Input, z: Input)
    ensures RunFrom(cfg, st, [x, y, z]) == After(cfg, After(cfg, After(cfg, st, x), y), z)
  {
    assert [x, y, z][..2] == [x, y];
    TwoSteps(cfg, st, x, y);
  }

  /** A run in which the order matters: after the reconnect the fill is listed only if its own feed reports first. */
  lemma SnapshotOrderCanMatter(cfg: Config, m: Market, raw: RawFill, t: int)
    requires cfg.capacity > 0 && t > 0 && ValidRaw(raw)
    ensures var st := RunFrom(cfg, Start(ALL_MARKETS), OneFillThenReconnect(cfg, m, raw, t));
            var x, y := Snapshot(cfg, [], false, 2, t), Snapshot(cfg, [RowOf(m, raw)], true, 2, t);
            EitherOrder(cfg, st, Source, x, y) && Listed(cfg, st, Source, x, y) != Listed(cfg, st, Source, y, x)
  {
    OneFillIsRemembered(cfg, m, raw, t);
    var st := RunFrom(cfg, Start(ALL_MARKETS), OneFillThenReconnect(cfg, m, raw, t));
    var x, y := Snapshot(cfg, [], false, 2, t), Snapshot(cfg, [RowOf(m, raw)], true, 2, t);
    OneRowIsSound(cfg, st, m, raw, true, t);
    NoRowsAreSound(cfg, st, false, t);
    AgreeingSnapshotsAccepted(cfg, st, Source, x, y);
    var id := IdOf(cfg, raw);
    assert Distinct([]) + Distinct([id]) == {id};
    assert id in [id] && MemoryAfter(cfg.capacity, st.order, []) == [id];
    SnapshotOrderIff(cfg, st, Source, x, y);
  }

  /** A run on a first connection: two snapshots that do not fit the capacity together depend on the order too. */
  lemma OverfullSnapshotsDiffer(cfg: Config, m: Market, a: RawFill, b: RawFill, t: int)
    requires cfg.capacity == 1 && t > 0 && ValidRaw(a) && ValidRaw(b) && IdOf(cfg, a) != IdOf(cfg, b)
    ensures var st := RunFrom(cfg, Start(ALL_MARKETS), [Begin(t)]);
            var x, y := Snapshot(cfg, [RowOf(m, a)], false, 1, t), Snapshot(cfg, [RowOf(m, b)], true, 1, t);
            EitherOrder(cfg, st, Source, x, y) && Listed(cfg, st, Source, x, y) != Listed(cfg, st, Source, y, x)
  {
    OneStep(cfg, Start(ALL_MARKETS), Begin(t));
    DifferFrom(cfg, Begun(Start(ALL_MARKETS), t), m, a, b, t);
  }

  lemma DifferFrom(cfg: Config, st: State, m: Market, a: RawFill, b: RawFill, t: int)
    requires cfg.capacity == 1 && t > 0 && ValidRaw(a) && ValidRaw(b) && IdOf(cfg, a) != IdOf(cfg, b)
    requires StateOk(cfg, st) && st.epoch == 1 && st.scopes == ALL_MARKETS && NothingYet(st, Source)
    requires st.order == [] && st.prints == map[]
    ensures var x, y := Snapshot(cfg, [RowOf(m, a)], false, 1, t), Snapshot(cfg, [RowOf(m, b)], true, 1, t);
            EitherOrder(cfg, st, Source, x, y) && Listed(cfg, st, Source, x, y) != Listed(cfg, st, Source, y, x)
  {
    var x, y := Snapshot(cfg, [RowOf(m, a)], false, 1, t), Snapshot(cfg, [RowOf(m, b)], true, 1, t);
    OneRowIsSound(cfg, st, m, a, false, t);
    OneRowIsSound(cfg, st, m, b, true, t);
    AgreeingSnapshotsAccepted(cfg, st, Source, x, y);
    UnrelatedSnapshotsIff(cfg, st, Source, x, y);
  }
}
