/**
 The follower's open-order list: replaced by a snapshot, edited in place by order updates, and never
 holding two orders with a common order id or client id.
 */
module OpenOrders {
  import opened Outcomes

  datatype OpenOrder = OpenOrder(
    coin: string, isBuy: bool, size: real, price: Option<real>,
    oid: Option<int>, cloid: Option<string>, reduceOnly: bool, updatedMs: int)

  // `open` puts the order (back) into the list, a terminal status takes it out, any other status is an error.
  datatype Status = Open | Terminal | Unknown

  datatype OrderUpdate = OrderUpdate(order: OpenOrder, status: Status, statusMs: int, foreign: bool)

  datatype OrderError =
    | DuplicateIdentity | ForeignAccount | MissingIdentity | AmbiguousIdentity | UnknownStatus | BadStatusTime

  type Orders = Result<seq<OpenOrder>, OrderError>

  predicate SharesId(a: OpenOrder, b: OpenOrder) {
    (a.oid.Some? && a.oid == b.oid) || (a.cloid.Some? && a.cloid == b.cloid)
  }

  predicate Available(orders: seq<OpenOrder>, candidate: OpenOrder) {
    forall p <- orders :: !SharesId(candidate, p)
  }

  ghost predicate NoSharedIds(orders: seq<OpenOrder>) {
    forall i, j :: 0 <= i < j < |orders| ==> !SharesId(orders[i], orders[j])
  }

  /** `_parse_order_rows`: each row must differ from the ones before it. */
  method ParseOrderRows(rows: seq<OpenOrder>) returns (r: Orders)
    ensures r == if NoSharedIds(rows) then Ok(rows) else Err(DuplicateIdentity)
  {
    var i := 0;
    while i < |rows|
      invariant 0 <= i <= |rows|
      invariant NoSharedIds(rows[..i])
    {
      if !Available(rows[..i], rows[i]) {
        assert exists p <- rows[..i] :: SharesId(rows[i], p);
        return Err(DuplicateIdentity);
      }
      forall k | 0 <= k < i ensures !SharesId(rows[k], rows[i]) {
        assert rows[..i][k] == rows[k] && !SharesId(rows[i], rows[..i][k]);
      }
      i := i + 1;
    }
    assert rows[..i] == rows;
    r := Ok(rows);
  }

  function Matching(orders: seq<OpenOrder>, o: OpenOrder): seq<OpenOrder> {
    if orders == [] then []
    else (if SharesId(o, orders[0]) then [orders[0]] else []) + Matching(orders[1..], o)
  }

  // The list filter compares whole orders, as the comprehension `candidate not in matching` does.
  function Excluding(orders: seq<OpenOrder>, gone: seq<OpenOrder>): seq<OpenOrder> {
    if orders == [] then []
    else (if orders[0] in gone then [] else [orders[0]]) + Excluding(orders[1..], gone)
  }

  function Edit(orders: seq<OpenOrder>, u: OrderUpdate): Orders {
    if u.foreign then Err(ForeignAccount)
    else if u.statusMs <= 0 then Err(BadStatusTime)
    else if u.order.oid.None? && u.order.cloid.None? then Err(MissingIdentity)
    else
      var matching := Matching(orders, u.order);
      if |matching| > 1 then Err(AmbiguousIdentity)
      else
        var rest := Excluding(orders, matching);
        match u.status
        case Open => if Available(rest, u.order) then Ok(rest + [u.order]) else Err(DuplicateIdentity)
        case Terminal => Ok(rest)
        case Unknown => Err(UnknownStatus)
  }

  function EditAll(orders: seq<OpenOrder>, us: seq<OrderUpdate>): Orders
    decreases us
  {
    if us == [] then Ok(orders)
    else
      var next := Edit(orders, us[0]);
      if next.Err? then next else EditAll(next.value, us[1..])
  }

  function LatestStatusMs(us: seq<OrderUpdate>, atLeast: int): int
    decreases us
  {
    if us == [] then atLeast else LatestStatusMs(us[1..], Max(atLeast, us[0].statusMs))
  }

  /** The loop of `_apply_order_updates`: edits a copy of the list, so a bad row changes nothing. */
  method ApplyUpdates(orders: seq<OpenOrder>, us: seq<OrderUpdate>, receivedMs: int)
    returns (r: Orders, latestStatusMs: int)
    ensures r == EditAll(orders, us)
    ensures r.Ok? ==> latestStatusMs == LatestStatusMs(us, receivedMs)
  {
    var next := orders;
    latestStatusMs := receivedMs;
    var i := 0;
    assert us[0..] == us;
    while i < |us|
      invariant 0 <= i <= |us|
      invariant EditAll(orders, us) == EditAll(next, us[i..])
      invariant LatestStatusMs(us, receivedMs) == LatestStatusMs(us[i..], latestStatusMs)
    {
      var u := us[i];
      assert us[i..][1..] == us[i + 1..];
      if u.foreign {
        return Err(ForeignAccount), latestStatusMs;
      }
      if u.statusMs <= 0 {
        return Err(BadStatusTime), latestStatusMs;
      }
      latestStatusMs := Max(latestStatusMs, u.statusMs);
      if u.order.oid.None? && u.order.cloid.None? {
        return Err(MissingIdentity), latestStatusMs;
      }
      var matching := Matching(next, u.order);
      if |matching| > 1 {
        return Err(AmbiguousIdentity), latestStatusMs;
      }
      ghost var before := next;
      next := Excluding(next, matching);
      if u.status.Open? {
        if !Available(next, u.order) {
          return Err(DuplicateIdentity), latestStatusMs;
        }
        next := next + [u.order];
      } else if !u.status.Terminal? {
        return Err(UnknownStatus), latestStatusMs;
      }
      i := i + 1;
    }
    r := Ok(next);
  }

  // ---------- No two held orders share an id ----------

  lemma {:induction false} MatchingMembers(orders: seq<OpenOrder>, o: OpenOrder)
    ensures forall x :: x in Matching(orders, o) <==> x in orders && SharesId(o, x)
  {
    if orders != [] {
      MatchingMembers(orders[1..], o);
      assert orders == [orders[0]] + orders[1..];
    }
  }

  lemma {:induction false} ExcludingKeeps(orders: seq<OpenOrder>, gone: seq<OpenOrder>)
    ensures forall x :: x in Excluding(orders, gone) <==> x in orders && x !in gone
    ensures NoSharedIds(orders) ==> NoSharedIds(Excluding(orders, gone))
  {
    if orders != [] {
      ExcludingKeeps(orders[1..], gone);
      assert orders == [orders[0]] + orders[1..];
      var rest := Excluding(orders[1..], gone);
      if NoSharedIds(orders) {
        assert NoSharedIds(orders[1..]);
        forall x | x in rest ensures !SharesId(orders[0], x) {
          var i :| 1 <= i < |orders| && orders[i] == x;
        }
      }
    }
  }

  /** An accepted edit removes exactly the orders that share an id with the update, and adds it if it is open. */
  lemma EditMeaning(orders: seq<OpenOrder>, u: OrderUpdate)
    requires Edit(orders, u).Ok?
    ensures forall x :: x in Edit(orders, u).value
                        <==> (x in orders && !SharesId(u.order, x)) || (u.status.Open? && x == u.order)
    ensures NoSharedIds(orders) ==> NoSharedIds(Edit(orders, u).value)
  {
    MatchingMembers(orders, u.order);
    var rest := Excluding(orders, Matching(orders, u.order));
    ExcludingKeeps(orders, Matching(orders, u.order));
    if NoSharedIds(orders) && u.status.Open? {
      var after := rest + [u.order];
      forall i, j | 0 <= i < j < |after| ensures !SharesId(after[i], after[j]) {
        if j == |rest| {
          assert after[i] in rest;
        }
      }
    }
  }

  /** The two orders have an order id in common, or a client id. */
  predicate NamesSame(a: OpenOrder, b: OpenOrder) {
    || (a.oid != None && b.oid != None && a.oid.value == b.oid.value)
    || (a.cloid != None && b.cloid != None && a.cloid.value == b.cloid.value)
  }

  lemma SharesInWords(a: OpenOrder, b: OpenOrder)
    ensures SharesId(a, b) <==> NamesSame(a, b)
  {
  }

  /** The update names at most one of the orders. */
  ghost predicate NamesAtMostOne(orders: seq<OpenOrder>, o: OpenOrder) {
    forall i, j :: 0 <= i < j < |orders| ==> !(NamesSame(o, orders[i]) && NamesSame(o, orders[j]))
  }

  lemma {:induction false} MatchingCounts(orders: seq<OpenOrder>, o: OpenOrder)
    ensures |Matching(orders, o)| <= 1 <==> NamesAtMostOne(orders, o)
    ensures Matching(orders, o) == [] <==> forall x <- orders :: !NamesSame(o, x)
  {
    if orders != [] {
      var rest := orders[1..];
      MatchingCounts(rest, o);
      SharesInWords(o, orders[0]);
      assert orders == [orders[0]] + rest;
      if SharesId(o, orders[0]) {
        if NamesAtMostOne(orders, o) {
          forall x | x in rest ensures !NamesSame(o, x) {
            var i :| 1 <= i < |orders| && orders[i] == x;
          }
        }
      } else {
        forall i, j | 0 <= i < j < |orders| && NamesAtMostOne(rest, o)
          ensures !(NamesSame(o, orders[i]) && NamesSame(o, orders[j]))
        {
          assert i > 0 ==> orders[i] == rest[i - 1] && orders[j] == rest[j - 1];
        }
        assert forall i :: 0 <= i < |rest| ==> rest[i] == orders[i + 1];
      }
    }
  }

  /**
   An update of this account, with a time and an id, is accepted unless it names two held orders or its status is
   unknown. It replaces what it names: an open order takes the last place, a closed one is gone.
   */
  lemma EditInWords(orders: seq<OpenOrder>, u: OrderUpdate)
    requires NoSharedIds(orders)
    ensures Edit(orders, u).Ok? <==>
              && !u.foreign && u.statusMs > 0 && (u.order.oid != None || u.order.cloid != None)
              && NamesAtMostOne(orders, u.order) && u.status != Unknown
    ensures Edit(orders, u).Ok? ==>
              && (forall x :: x in Edit(orders, u).value
                    <==> (x in orders && !NamesSame(u.order, x)) || (u.status == Open && x == u.order))
              && (u.status == Open ==>
                    Edit(orders, u).value != [] && Edit(orders, u).value[|Edit(orders, u).value| - 1] == u.order)
  {
    MatchingCounts(orders, u.order);
    MatchingMembers(orders, u.order);
    ExcludingKeeps(orders, Matching(orders, u.order));
    forall x | x in orders ensures SharesId(u.order, x) <==> NamesSame(u.order, x) {
      SharesInWords(u.order, x);
    }
    if Edit(orders, u).Ok? {
      EditMeaning(orders, u);
    }
  }

  /** Over any accepted frame of updates the held orders never share an order id or a client id. */
  lemma {:induction false} UpdatesKeepIdsApart(orders: seq<OpenOrder>, us: seq<OrderUpdate>)
    requires NoSharedIds(orders) && EditAll(orders, us).Ok?
    ensures NoSharedIds(EditAll(orders, us).value)
    decreases us
  {
    if us != [] {
      EditMeaning(orders, us[0]);
      UpdatesKeepIdsApart(Edit(orders, us[0]).value, us[1..]);
    }
  }

  /** Editing by one frame and then by another is editing by both. */
  lemma {:induction false} EditsCompose(orders: seq<OpenOrder>, a: seq<OrderUpdate>, b: seq<OrderUpdate>)
    ensures EditAll(orders, a + b) == if EditAll(orders, a).Ok? then EditAll(EditAll(orders, a).value, b)
            else EditAll(orders, a)
    decreases a
  {
    if a == [] {
      assert a + b == b;
    } else {
      assert (a + b)[1..] == a[1..] + b;
      if Edit(orders, a[0]).Ok? {
        EditsCompose(Edit(orders, a[0]).value, a[1..], b);
      }
    }
  }

  /** An update that can be accepted: of this account, with a time and a known status. */
  predicate Proper(u: OrderUpdate) { !u.foreign && u.statusMs > 0 && !u.status.Unknown? }

  lemma {:induction false} AcceptedAreProper(orders: seq<OpenOrder>, us: seq<OrderUpdate>)
    requires EditAll(orders, us).Ok?
    ensures forall u <- us :: Proper(u)
    decreases us
  {
    if us != [] {
      AcceptedAreProper(Edit(orders, us[0]).value, us[1..]);
      assert us == [us[0]] + us[1..];
    }
  }

  // ---------- Paired streams: the list edit is a fold of a map from order id to order ----------

  // Each order id goes with one client id (or none), and no client id goes with two order ids.
  type Pairing = map<int, Option<string>>

  ghost predicate IsPairing(pair: Pairing) {
    forall a, b :: a in pair && b in pair && pair[a].Some? && pair[a] == pair[b] ==> a == b
  }

  ghost predicate Paired(o: OpenOrder, pair: Pairing) {
    o.oid.Some? && o.oid.value in pair && o.cloid == pair[o.oid.value]
  }

  ghost predicate AllPaired(orders: seq<OpenOrder>, pair: Pairing) { forall o <- orders :: Paired(o, pair) }

  ghost predicate UpdatesPaired(us: seq<OrderUpdate>, pair: Pairing) { forall u <- us :: Paired(u.order, pair) }

  type Held = map<int, OpenOrder>

  function FoldOne(held: Held, u: OrderUpdate): Held
    requires u.order.oid.Some?
  {
    if u.status.Open? then held[u.order.oid.value := u.order] else held - {u.order.oid.value}
  }

  function Fold(held: Held, us: seq<OrderUpdate>): Held
    requires forall u <- us :: u.order.oid.Some?
    decreases us
  {
    if us == [] then held else Fold(FoldOne(held, us[0]), us[1..])
  }

  /** The list holds exactly the orders of the map. */
  ghost predicate Holds(orders: seq<OpenOrder>, held: Held) {
    forall o :: o in orders <==> o.oid.Some? && o.oid.value in held && held[o.oid.value] == o
  }

  lemma PairedSharesIffSameOid(a: OpenOrder, b: OpenOrder, pair: Pairing)
    requires IsPairing(pair) && Paired(a, pair) && Paired(b, pair)
    ensures SharesId(a, b) <==> a.oid == b.oid
  {
    var x, y := a.oid.value, b.oid.value;
    assert x in pair && y in pair && pair[x] == a.cloid && pair[y] == b.cloid;
  }

  lemma {:induction false} NothingMatches(orders: seq<OpenOrder>, o: OpenOrder)
    requires forall x <- orders :: !SharesId(o, x)
    ensures Matching(orders, o) == []
  {
    if orders != [] {
      NothingMatches(orders[1..], o);
    }
  }

  lemma {:induction false} MatchingAtMostOne(orders: seq<OpenOrder>, o: OpenOrder, pair: Pairing)
    requires IsPairing(pair) && AllPaired(orders, pair) && Paired(o, pair) && NoSharedIds(orders)
    ensures |Matching(orders, o)| <= 1
  {
    if orders != [] {
      MatchingAtMostOne(orders[1..], o, pair);
      PairedSharesIffSameOid(o, orders[0], pair);
      if SharesId(o, orders[0]) {
        assert forall i :: 1 <= i < |orders| ==> !SharesId(orders[0], orders[i]);
        forall x | x in orders[1..] ensures !SharesId(o, x) {
          PairedSharesIffSameOid(o, x, pair);
        }
        NothingMatches(orders[1..], o);
      }
    }
  }

  lemma EditIsFold(orders: seq<OpenOrder>, u: OrderUpdate, pair: Pairing, held: Held)
    requires IsPairing(pair) && AllPaired(orders, pair) && Paired(u.order, pair) && NoSharedIds(orders)
    requires Holds(orders, held)
    requires Proper(u)
    ensures Edit(orders, u).Ok?
    ensures Holds(Edit(orders, u).value, FoldOne(held, u))
    ensures AllPaired(Edit(orders, u).value, pair) && NoSharedIds(Edit(orders, u).value)
  {
    MatchingAtMostOne(orders, u.order, pair);
    MatchingMembers(orders, u.order);
    ExcludingKeeps(orders, Matching(orders, u.order));
    EditMeaning(orders, u);
    forall x | x in orders ensures SharesId(u.order, x) <==> x.oid == u.order.oid {
      PairedSharesIffSameOid(u.order, x, pair);
    }
  }

  /** Well-formed updates of a paired stream are always accepted, and edit the list as the map fold does. */
  lemma {:induction false} EditsAreFold(orders: seq<OpenOrder>, us: seq<OrderUpdate>, pair: Pairing, held: Held)
    requires IsPairing(pair) && AllPaired(orders, pair) && UpdatesPaired(us, pair) && NoSharedIds(orders)
    requires Holds(orders, held)
    requires forall u <- us :: Proper(u)
    ensures EditAll(orders, us).Ok?
    ensures Holds(EditAll(orders, us).value, Fold(held, us))
    decreases us
  {
    if us != [] {
      assert us[0] in us;
      EditIsFold(orders, us[0], pair, held);
      EditsAreFold(Edit(orders, us[0]).value, us[1..], pair, FoldOne(held, us[0]));
    }
  }

  /** The latest update for an order id, if any. */
  function LatestFor(us: seq<OrderUpdate>, oid: int): Option<OrderUpdate>
    decreases us
  {
    if us == [] then None
    else
      var later := LatestFor(us[1..], oid);
      if later.Some? then later else if us[0].order.oid == Some(oid) then Some(us[0]) else None
  }

  lemma {:induction false} FoldIsLatest(held: Held, us: seq<OrderUpdate>, oid: int)
    requires forall u <- us :: u.order.oid.Some?
    ensures var latest := LatestFor(us, oid);
            && (latest.None? ==>
                  (oid in Fold(held, us) <==> oid in held) && (oid in held ==> Fold(held, us)[oid] == held[oid]))
            && (latest.Some? ==> (oid in Fold(held, us) <==> latest.value.status.Open?))
            && (latest.Some? && latest.value.status.Open? ==> Fold(held, us)[oid] == latest.value.order)
    decreases us
  {
    if us != [] {
      FoldIsLatest(FoldOne(held, us[0]), us[1..], oid);
    }
  }

  function AsHeld(orders: seq<OpenOrder>): Held
    requires forall o <- orders :: o.oid.Some?
  {
    if orders == [] then map[] else AsHeld(orders[1..])[orders[0].oid.value := orders[0]]
  }

  lemma {:induction false} AsHeldHolds(orders: seq<OpenOrder>)
    requires NoSharedIds(orders) && forall o <- orders :: o.oid.Some?
    ensures Holds(orders, AsHeld(orders))
  {
    if orders != [] {
      AsHeldHolds(orders[1..]);
      assert orders == [orders[0]] + orders[1..];
      forall x | x in orders[1..] ensures x.oid != orders[0].oid {
        var i :| 1 <= i < |orders| && orders[i] == x;
        assert !SharesId(orders[0], orders[i]);
      }
    }
  }

  /**
   Since the last snapshot: an order is held exactly when its latest update was open (with that update's
   contents), or it was in the snapshot and never updated.
   */
  lemma HeldIff(snapshot: seq<OpenOrder>, us: seq<OrderUpdate>, pair: Pairing, o: OpenOrder)
    requires IsPairing(pair) && AllPaired(snapshot, pair) && UpdatesPaired(us, pair) && NoSharedIds(snapshot)
    requires forall u <- us :: Proper(u)
    requires o.oid.Some?
    ensures EditAll(snapshot, us).Ok?
    ensures var latest := LatestFor(us, o.oid.value);
            o in EditAll(snapshot, us).value <==>
            if latest.Some? then latest.value.status.Open? && latest.value.order == o else o in snapshot
  {
    AsHeldHolds(snapshot);
    EditsAreFold(snapshot, us, pair, AsHeld(snapshot));
    FoldIsLatest(AsHeld(snapshot), us, o.oid.value);
    LatestNamesOid(us, o.oid.value);
  }

  lemma {:induction false} LatestNamesOid(us: seq<OrderUpdate>, oid: int)
    ensures LatestFor(us, oid).Some? ==>
              LatestFor(us, oid).value in us && LatestFor(us, oid).value.order.oid == Some(oid)
    decreases us
  {
    if us != [] {
      LatestNamesOid(us[1..], oid);
    }
  }
}
