/**
 The durable journal of immediate-or-cancel actions: nonce reservation per signer lane, attempt numbering,
 the send boundary that is crossed at most once, and venue outcomes with cumulative fills.
 */
module ActionJournal {
  import opened Outcomes

  datatype ActionState =
    Prepared | SendAttempted | NotSent | Unknown | Rejected | Resting | PartiallyFilled | Filled | Canceled

  predicate TerminalState(s: ActionState) {
    s.NotSent? || s.Rejected? || s.PartiallyFilled? || s.Filled? || s.Canceled?
  }

  predicate RecoveryState(s: ActionState) { s.Prepared? || s.SendAttempted? || s.Unknown? || s.Resting? }

  datatype Lane = Lane(follower: string, wallet: string)

  // A client order id is a 128-bit number; its fixed-width lower-case hex text sorts as the number does.
  type Cloid = nat

  // The attempts for one desired change of one market on one lane.
  datatype Group = Group(lane: Lane, desiredId: string, market: string)

  datatype Action = Action(
    cloid: Cloid, group: Group, attemptNo: int, nonce: int, requested: real, cumulative: real,
    actionJson: string, signedPayload: string, expiresAfterMs: int, requestId: string,
    state: ActionState, detail: Option<string>, createdMs: int, updatedMs: int,
    sendAttemptedMs: Option<int>, terminalMs: Option<int>)

  datatype JournalError =
    | BadArgument | StaleNonce | WrongAttempt | AlreadyJournaled | UnknownAction | WrongState
    | CumulativeOutOfRange | InvalidTransition | StateContradictsFill | ProvablyUnsent

  type Row = Result<Action, JournalError>

  // The two tables.
  datatype Journal = Journal(nonces: map<Lane, int>, actions: map<Cloid, Action>)

  // ---------- Rows ----------

  function MarkedSent(a: Action, requestId: Option<string>, observedMs: int): Row {
    if !a.state.Prepared? then Err(WrongState)
    else Ok(a.(state := SendAttempted, requestId := if requestId.Some? then requestId.value else a.requestId,
               updatedMs := observedMs, sendAttemptedMs := Some(observedMs)))
  }

  function MarkedNotSent(a: Action, observedMs: int): Row {
    if a.state.NotSent? then Ok(a)
    else if !a.state.Prepared? then Err(WrongState)
    else Ok(a.(state := NotSent, updatedMs := observedMs, terminalMs := Some(observedMs)))
  }

  predicate CumulativeFits(a: Action, cumulative: real) { a.cumulative <= cumulative <= a.requested }

  predicate VenueOutcome(s: ActionState) {
    s.Unknown? || s.Rejected? || s.Resting? || s.PartiallyFilled? || s.Filled? || s.Canceled?
  }

  predicate Allowed(current: ActionState, target: ActionState) {
    match current
    case SendAttempted => VenueOutcome(target)
    case Unknown => VenueOutcome(target)
    case Resting => VenueOutcome(target) && !target.Rejected?
    case PartiallyFilled => target.PartiallyFilled? || target.Filled?
    case Rejected => target.Rejected?
    case Filled => target.Filled?
    case Canceled => target.Canceled?
    case Prepared => false
    case NotSent => false
  }

  predicate FillFitsState(a: Action, target: ActionState, cumulative: real) {
    && (target.Filled? ==> cumulative == a.requested)
    && (target.PartiallyFilled? ==> 0.0 < cumulative < a.requested)
    && (target.Rejected? || target.Canceled? ==> cumulative == 0.0)
    && (target.Unknown? || target.Resting? ==> cumulative != a.requested)
  }

  function WithOutcome(a: Action, target: ActionState, reported: Option<real>, detail: Option<string>,
                       observedMs: int): Row {
    var cumulative := if reported.Some? then reported.value else a.cumulative;
    if cumulative < 0.0 then Err(BadArgument)
    else if !CumulativeFits(a, cumulative) then Err(CumulativeOutOfRange)
    else if !Allowed(a.state, target) then Err(InvalidTransition)
    else if !FillFitsState(a, target, cumulative) then Err(StateContradictsFill)
    else if target == a.state && cumulative == a.cumulative && detail == a.detail then Ok(a)
    else Ok(a.(state := target, cumulative := cumulative, detail := detail, updatedMs := observedMs,
               terminalMs := if TerminalState(target) && a.terminalMs.None? then Some(observedMs) else a.terminalMs))
  }

  function WithFill(a: Action, cumulative: real, observedMs: int): Row {
    if !CumulativeFits(a, cumulative) then Err(CumulativeOutOfRange)
    else if cumulative == a.cumulative then Ok(a)
    else if a.sendAttemptedMs.None? then Err(ProvablyUnsent)
    else
      var done := if a.terminalMs.Some? then a.terminalMs else Some(observedMs);
      if cumulative == a.requested then
        Ok(a.(state := Filled, cumulative := cumulative, updatedMs := observedMs, terminalMs := done))
      else if a.state.Rejected? || a.state.Canceled? || a.state.PartiallyFilled? then
        Ok(a.(state := PartiallyFilled, cumulative := cumulative, updatedMs := observedMs, terminalMs := done))
      else Ok(a.(cumulative := cumulative, updatedMs := observedMs))
  }

  // ---------- Operations on the tables ----------

  datatype Request = Request(
    group: Group, attemptNo: int, cloid: Cloid, nonce: int, size: real, actionJson: string, signedPayload: string,
    expiresAfterMs: int, requestId: string, createdMs: int)

  datatype Op =
    | Reserve(lane: Lane, wallMs: int)
    | Prepare(request: Request)
    | Send(cloid: Cloid, requestId: Option<string>, observedMs: int)
    | Unsent(cloid: Cloid, observedMs: int)
    | Outcome(cloid: Cloid, target: ActionState, reported: Option<real>, detail: Option<string>, observedMs: int)
    | FillReport(cloid: Cloid, cumulative: real, observedMs: int)

  function NextNonce(j: Journal, lane: Lane, wallMs: int): int {
    if lane in j.nonces then Max(wallMs, j.nonces[lane] + 1) else wallMs
  }

  ghost function Attempts(j: Journal, g: Group): set<int> {
    set c | c in j.actions && j.actions[c].group == g :: j.actions[c].attemptNo
  }

  ghost predicate IsMaxOf(m: int, s: set<int>) {
    if s == {} then m == 0 else m in s && forall x <- s :: x <= m
  }

  lemma Pick<T>(s: set<T>) returns (x: T)
    requires |s| > 0
    ensures x in s
  {
    x :| x in s;
  }

  lemma {:induction false} MaxExists(s: set<int>) returns (m: int)
    ensures IsMaxOf(m, s)
  {
    m := 0;
    if |s| > 0 {
      var x := Pick(s);
      var rest := s - {x};
      var n := MaxExists(rest);
      m := if rest == {} then x else Max(x, n);
      assert s == rest + {x};
      if rest == {} {
        assert s == {x};
      }
    }
  }

  /** `COALESCE(MAX(attempt_no), 0)`. */
  ghost function MaxOf(s: set<int>): (m: int)
    ensures IsMaxOf(m, s)
  {
    assert exists m :: IsMaxOf(m, s) by { var m := MaxExists(s); }
    var m :| IsMaxOf(m, s);
    m
  }

  predicate RequestOk(r: Request) {
    r.attemptNo > 0 && r.nonce > 0 && r.size > 0.0 && r.createdMs > 0 && r.expiresAfterMs > r.createdMs
  }

  /** The UNIQUE constraints: client id, lane and nonce, group and attempt. */
  predicate InsertFits(j: Journal, r: Request) {
    && r.cloid !in j.actions
    && forall c <- j.actions ::
         && !(j.actions[c].group.lane == r.group.lane && j.actions[c].nonce == r.nonce)
         && !(j.actions[c].group == r.group && j.actions[c].attemptNo == r.attemptNo)
  }

  function Fresh(r: Request): Action {
    Action(r.cloid, r.group, r.attemptNo, r.nonce, r.size, 0.0, r.actionJson, r.signedPayload, r.expiresAfterMs,
           r.requestId, Prepared, None, r.createdMs, r.createdMs, None, None)
  }

  ghost function PrepareError(j: Journal, r: Request): Option<JournalError> {
    if !RequestOk(r) then Some(BadArgument)
    else if r.group.lane !in j.nonces || r.nonce != j.nonces[r.group.lane] then Some(StaleNonce)
    else if r.attemptNo != MaxOf(Attempts(j, r.group)) + 1 then Some(WrongAttempt)
    else if !InsertFits(j, r) then Some(AlreadyJournaled)
    else None
  }

  function Put(j: Journal, row: Row): Journal {
    if row.Ok? then j.(actions := j.actions[row.value.cloid := row.value]) else j
  }

  function Updated(a: Action, op: Op): Row
    requires !op.Reserve? && !op.Prepare?
  {
    match op
    case Send(_, requestId, observedMs) =>
      if observedMs <= 0 then Err(BadArgument) else MarkedSent(a, requestId, observedMs)
    case Unsent(_, observedMs) => if observedMs <= 0 then Err(BadArgument) else MarkedNotSent(a, observedMs)
    case Outcome(_, target, reported, detail, observedMs) =>
      if !VenueOutcome(target) || observedMs <= 0 then Err(BadArgument)
      else WithOutcome(a, target, reported, detail, observedMs)
    case FillReport(_, cumulative, observedMs) =>
      if cumulative < 0.0 || observedMs <= 0 then Err(BadArgument) else WithFill(a, cumulative, observedMs)
  }

  /** The state after one public call; a raised error rolls the transaction back. */
  ghost function Step(j: Journal, op: Op): Journal {
    match op
    case Reserve(lane, wallMs) =>
      if wallMs <= 0 then j else j.(nonces := j.nonces[lane := NextNonce(j, lane, wallMs)])
    case Prepare(r) => if PrepareError(j, r).Some? then j else Put(j, Ok(Fresh(r)))
    case _ => if op.cloid !in j.actions then j else Put(j, Updated(j.actions[op.cloid], op))
  }

  /** The call returned normally. */
  ghost predicate Succeeds(j: Journal, op: Op) {
    match op
    case Reserve(_, wallMs) => wallMs > 0
    case Prepare(r) => PrepareError(j, r).None?
    case _ => op.cloid in j.actions && Updated(j.actions[op.cloid], op).Ok?
  }

  // ---------- What every reachable row satisfies ----------

  predicate Crossed(s: ActionState) { !s.Prepared? && !s.NotSent? }

  predicate RowOk(a: Action) {
    && a.requested > 0.0 && 0.0 <= a.cumulative <= a.requested
    && (a.state.Filled? ==> a.cumulative == a.requested)
    && (a.state.PartiallyFilled? ==> 0.0 < a.cumulative < a.requested)
    && (a.state.Rejected? || a.state.Canceled? || a.state.Prepared? || a.state.NotSent? ==> a.cumulative == 0.0)
    && (a.state.SendAttempted? || a.state.Unknown? || a.state.Resting? ==> a.cumulative < a.requested)
    && (a.terminalMs.Some? <==> TerminalState(a.state))
    && (a.sendAttemptedMs.Some? <==> Crossed(a.state))
    && a.attemptNo > 0 && a.nonce > 0 && a.createdMs > 0
  }

  /** How a row may change: never back from terminal, never fewer fills, the send time and identity fixed. */
  predicate Advances(a: Action, b: Action) {
    && b.cloid == a.cloid && b.group == a.group && b.attemptNo == a.attemptNo && b.nonce == a.nonce
    && b.requested == a.requested && b.createdMs == a.createdMs
    && b.actionJson == a.actionJson && b.signedPayload == a.signedPayload && b.expiresAfterMs == a.expiresAfterMs
    && a.cumulative <= b.cumulative
    && (TerminalState(a.state) ==> TerminalState(b.state))
    && (a.terminalMs.Some? ==> b.terminalMs == a.terminalMs)
    && (a.sendAttemptedMs.Some? ==> b.sendAttemptedMs == a.sendAttemptedMs)
    && (a.state.NotSent? ==> b == a)
    && (a.state.Filled? ==> b.state.Filled?)
  }

  lemma UpdateAdvances(a: Action, op: Op)
    requires RowOk(a) && !op.Reserve? && !op.Prepare? && Updated(a, op).Ok?
    ensures RowOk(Updated(a, op).value) && Advances(a, Updated(a, op).value)
    ensures op.Send? <==> a.sendAttemptedMs.None? && Updated(a, op).value.sendAttemptedMs.Some?
  {
  }

  ghost predicate KeysMatch(j: Journal) { forall c <- j.actions :: j.actions[c].cloid == c && RowOk(j.actions[c]) }

  /** Each nonce of a lane belongs to one action and was reserved. */
  ghost predicate NoncesUnique(j: Journal) {
    && (forall lane <- j.nonces :: j.nonces[lane] > 0)
    && (forall c <- j.actions :: j.actions[c].group.lane in j.nonces
                                 && j.actions[c].nonce <= j.nonces[j.actions[c].group.lane])
    && (forall c, d :: c in j.actions && d in j.actions && c != d && j.actions[c].group.lane == j.actions[d].group.lane
                       ==> j.actions[c].nonce != j.actions[d].nonce)
  }

  /** The attempts of each group are numbered 1 to n without gap or repeat, in the order of their nonces. */
  ghost predicate AttemptsDense(j: Journal) {
    && (forall g, n :: n in Attempts(j, g) ==> forall k :: 1 <= k <= n ==> k in Attempts(j, g))
    && (forall c, d :: c in j.actions && d in j.actions && c != d && j.actions[c].group == j.actions[d].group
                       ==> j.actions[c].attemptNo != j.actions[d].attemptNo
                           && (j.actions[c].attemptNo < j.actions[d].attemptNo
                               <==> j.actions[c].nonce < j.actions[d].nonce))
  }

  ghost predicate JournalOk(j: Journal) { KeysMatch(j) && NoncesUnique(j) && AttemptsDense(j) }

  /** From `j` to `k` only the row of `c` changed, and it advanced. */
  ghost predicate RowChange(j: Journal, k: Journal, c: Cloid) {
    && c in j.actions && k.nonces == j.nonces && k.actions.Keys == j.actions.Keys
    && RowOk(k.actions[c]) && Advances(j.actions[c], k.actions[c])
    && forall d <- j.actions :: d != c ==> k.actions[d] == j.actions[d]
  }

  predicate IsUpdate(op: Op) { !op.Reserve? && !op.Prepare? }

  /** A call about one action either changes nothing or advances that one row. */
  lemma UpdateChangesOneRow(j: Journal, op: Op)
    requires KeysMatch(j) && IsUpdate(op)
    ensures Step(j, op) == j || RowChange(j, Step(j, op), op.cloid)
    ensures Succeeds(j, op) && op.Send? <==> op.cloid in j.actions && j.actions[op.cloid].sendAttemptedMs.None?
                                             && Step(j, op).actions[op.cloid].sendAttemptedMs.Some?
    ensures !Succeeds(j, op) ==> Step(j, op) == j
  {
    if op.cloid in j.actions && Updated(j.actions[op.cloid], op).Ok? {
      UpdateAdvances(j.actions[op.cloid], op);
    }
  }

  lemma RowChangeKeepsOk(j: Journal, k: Journal, c: Cloid)
    requires JournalOk(j) && RowChange(j, k, c)
    ensures JournalOk(k)
  {
    assert forall d <- k.actions :: k.actions[d].group == j.actions[d].group && k.actions[d].nonce == j.actions[d].nonce
                                    && k.actions[d].attemptNo == j.actions[d].attemptNo;
    forall g ensures Attempts(k, g) == Attempts(j, g) {
      SameAttempts(j, k, g);
    }
  }

  lemma SameAttempts(j: Journal, k: Journal, g: Group)
    requires k.actions.Keys == j.actions.Keys
    requires forall c <- k.actions ::
               k.actions[c].group == j.actions[c].group && k.actions[c].attemptNo == j.actions[c].attemptNo
    ensures Attempts(k, g) == Attempts(j, g)
  {
    forall n ensures n in Attempts(k, g) <==> n in Attempts(j, g) {
      if n in Attempts(j, g) {
        var c :| c in j.actions && j.actions[c].group == g && j.actions[c].attemptNo == n;
        assert c in k.actions;
      }
      if n in Attempts(k, g) {
        var c :| c in k.actions && k.actions[c].group == g && k.actions[c].attemptNo == n;
        assert c in j.actions;
      }
    }
  }

  lemma PrepareAdds(j: Journal, r: Request, g: Group)
    requires PrepareError(j, r).None?
    ensures Attempts(Step(j, Prepare(r)), g) == Attempts(j, g) + if g == r.group then {r.attemptNo} else {}
  {
    var k := Step(j, Prepare(r));
    forall n ensures n in Attempts(k, g) <==> n in Attempts(j, g) || (g == r.group && n == r.attemptNo) {
      if n in Attempts(j, g) {
        var c :| c in j.actions && j.actions[c].group == g && j.actions[c].attemptNo == n;
        assert c in k.actions && k.actions[c] == j.actions[c];
      }
      if n in Attempts(k, g) {
        var c :| c in k.actions && k.actions[c].group == g && k.actions[c].attemptNo == n;
        assert c != r.cloid ==> c in j.actions && k.actions[c] == j.actions[c];
      }
      assert r.cloid in k.actions && k.actions[r.cloid] == Fresh(r);
    }
  }

  /** A newly prepared action carries a nonce above every earlier one of its lane, and the next attempt number. */
  lemma PreparedComesLast(j: Journal, r: Request)
    requires JournalOk(j) && PrepareError(j, r).None?
    ensures forall c <- j.actions :: j.actions[c].group.lane == r.group.lane ==> j.actions[c].nonce < r.nonce
    ensures forall c <- j.actions :: j.actions[c].group == r.group ==> j.actions[c].attemptNo < r.attemptNo
  {
    forall c | c in j.actions && j.actions[c].group == r.group
      ensures j.actions[c].attemptNo < r.attemptNo
    {
      assert j.actions[c].attemptNo in Attempts(j, r.group);
    }
  }

  lemma PrepareKeepsDense(j: Journal, r: Request, g: Group, n: int)
    requires JournalOk(j) && PrepareError(j, r).None? && n in Attempts(Step(j, Prepare(r)), g)
    ensures forall i :: 1 <= i <= n ==> i in Attempts(Step(j, Prepare(r)), g)
  {
    PrepareAdds(j, r, g);
    if g == r.group && n == r.attemptNo {
      var m := MaxOf(Attempts(j, g));
      assert forall i :: 1 <= i <= m ==> i in Attempts(j, g);
    }
  }

  lemma PrepareKeepsOk(j: Journal, r: Request)
    requires JournalOk(j) && PrepareError(j, r).None?
    ensures JournalOk(Step(j, Prepare(r)))
  {
    var k := Step(j, Prepare(r));
    forall g, n | n in Attempts(k, g) ensures forall i :: 1 <= i <= n ==> i in Attempts(k, g) {
      PrepareKeepsDense(j, r, g, n);
    }
    PreparedComesLast(j, r);
    InsertKeepsNonces(j, k, Fresh(r));
    InsertKeepsOrder(j, k, Fresh(r));
  }

  /** `row` can be inserted: it has the lane's latest nonce and comes after every attempt of its group. */
  ghost predicate Insertable(j: Journal, row: Action) {
    && RowOk(row) && row.cloid !in j.actions
    && row.group.lane in j.nonces && row.nonce <= j.nonces[row.group.lane]
    && (forall c <- j.actions :: j.actions[c].group.lane == row.group.lane ==> j.actions[c].nonce < row.nonce)
    && (forall c <- j.actions :: j.actions[c].group == row.group ==> j.actions[c].attemptNo < row.attemptNo)
  }

  lemma InsertKeepsNonces(j: Journal, k: Journal, row: Action)
    requires KeysMatch(j) && NoncesUnique(j) && Insertable(j, row) && k == j.(actions := j.actions[row.cloid := row])
    ensures KeysMatch(k) && NoncesUnique(k)
  {
    assert forall c <- k.actions :: c == row.cloid || (c in j.actions && k.actions[c] == j.actions[c]);
  }

  /** Inserting such a row keeps attempt numbers and nonces of one group in the same order. */
  lemma InsertKeepsOrder(j: Journal, k: Journal, row: Action)
    requires KeysMatch(j) && AttemptsDense(j) && Insertable(j, row) && k == j.(actions := j.actions[row.cloid := row])
    ensures forall c, d :: c in k.actions && d in k.actions && c != d && k.actions[c].group == k.actions[d].group
                       ==> k.actions[c].attemptNo != k.actions[d].attemptNo
                           && (k.actions[c].attemptNo < k.actions[d].attemptNo
                               <==> k.actions[c].nonce < k.actions[d].nonce)
  {
    assert forall c <- k.actions :: c == row.cloid || (c in j.actions && k.actions[c] == j.actions[c]);
  }

  /** Every call keeps the journal's invariant. */
  lemma StepKeepsOk(j: Journal, op: Op)
    requires JournalOk(j)
    ensures JournalOk(Step(j, op))
  {
    match op
    case Reserve(lane, wallMs) =>
      var k := Step(j, op);
      forall g ensures Attempts(k, g) == Attempts(j, g) { SameAttempts(j, k, g); }
    case Prepare(r) => if PrepareError(j, r).None? { PrepareKeepsOk(j, r); }
    case _ =>
      UpdateChangesOneRow(j, op);
      if Step(j, op) != j {
        RowChangeKeepsOk(j, Step(j, op), op.cloid);
      }
  }

  /** Along a call no action is lost and every row only advances. */
  ghost predicate Extends(j: Journal, k: Journal) {
    forall c <- j.actions :: c in k.actions && Advances(j.actions[c], k.actions[c])
  }

  lemma RowChangeExtends(j: Journal, k: Journal, c: Cloid)
    requires RowChange(j, k, c)
    ensures Extends(j, k)
  {
  }

  lemma SameRowsExtend(j: Journal, k: Journal)
    requires forall c <- j.actions :: c in k.actions && k.actions[c] == j.actions[c]
    ensures Extends(j, k)
  {
  }

  lemma StepExtends(j: Journal, op: Op)
    requires JournalOk(j)
    ensures Extends(j, Step(j, op))
  {
    if !IsUpdate(op) || Step(j, op) == j {
      SameRowsExtend(j, Step(j, op));
    } else {
      UpdateChangesOneRow(j, op);
      RowChangeExtends(j, Step(j, op), op.cloid);
    }
  }

  // ---------- Runs ----------

  const EMPTY_JOURNAL := Journal(map[], map[])

  ghost function Run(j: Journal, ops: seq<Op>): Journal {
    if ops == [] then j else Step(Run(j, ops[..|ops| - 1]), ops[|ops| - 1])
  }

  /** Over any run of calls from any good journal, every row is well formed and every earlier row only advanced. */
  lemma {:induction false} RunIsOk(j: Journal, ops: seq<Op>)
    requires JournalOk(j)
    ensures JournalOk(Run(j, ops)) && Extends(j, Run(j, ops))
  {
    if ops != [] {
      var init, last := ops[..|ops| - 1], ops[|ops| - 1];
      RunIsOk(j, init);
      StepKeepsOk(Run(j, init), last);
      StepExtends(Run(j, init), last);
      var mid, end := Run(j, init), Run(j, ops);
      forall c | c in j.actions ensures c in end.actions && Advances(j.actions[c], end.actions[c]) {
        assert Advances(j.actions[c], mid.actions[c]) && Advances(mid.actions[c], end.actions[c]);
      }
    }
  }

  /** The nonces handed out on one lane, in order. */
  ghost function Reserved(j: Journal, ops: seq<Op>, lane: Lane): seq<int> {
    if ops == [] then []
    else
      var init, last := ops[..|ops| - 1], ops[|ops| - 1];
      Reserved(j, init, lane) + ReservedNow(Run(j, init), last, lane)
  }

  /** `r` is strictly increasing, ends at the lane's last nonce, and covers the nonces of the lane's actions. */
  ghost predicate LaneHistory(j: Journal, lane: Lane, r: seq<int>) {
    && (forall i, k :: 0 <= i < k < |r| ==> r[i] < r[k])
    && (r == [] <==> lane !in j.nonces)
    && (r != [] ==> lane in j.nonces && r[|r| - 1] == j.nonces[lane])
    && (forall c <- j.actions :: j.actions[c].group.lane == lane ==> j.actions[c].nonce in r)
  }

  ghost function ReservedNow(j: Journal, op: Op, lane: Lane): seq<int> {
    if op.Reserve? && op.lane == lane && op.wallMs > 0 then [NextNonce(j, lane, op.wallMs)] else []
  }

  lemma LaneStep(j: Journal, op: Op, lane: Lane, r: seq<int>)
    requires JournalOk(j) && LaneHistory(j, lane, r)
    ensures LaneHistory(Step(j, op), lane, r + ReservedNow(j, op, lane))
  {
    if op.Reserve? {
      LaneReserves(j, op, lane, r);
    } else {
      assert r + [] == r;
      if op.Prepare? && PrepareError(j, op.request).None? {
        LanePrepares(j, op.request, lane, r);
      } else if IsUpdate(op) {
        UpdateChangesOneRow(j, op);
        SameNonces(j, Step(j, op), lane, r);
      }
    }
  }

  lemma HistoryGrows(j: Journal, k: Journal, lane: Lane, r: seq<int>, x: int)
    requires LaneHistory(j, lane, r) && k.actions == j.actions
    requires lane in k.nonces && k.nonces[lane] == x && (r != [] ==> r[|r| - 1] < x)
    ensures LaneHistory(k, lane, r + [x])
  {
    forall c | c in k.actions && k.actions[c].group.lane == lane ensures k.actions[c].nonce in r + [x] {
      assert k.actions[c].nonce in r;
    }
  }

  lemma LaneReserves(j: Journal, op: Op, lane: Lane, r: seq<int>)
    requires op.Reserve? && LaneHistory(j, lane, r)
    ensures LaneHistory(Step(j, op), lane, r + ReservedNow(j, op, lane))
  {
    if ReservedNow(j, op, lane) == [] {
      assert r + [] == r;
    } else {
      HistoryGrows(j, Step(j, op), lane, r, NextNonce(j, lane, op.wallMs));
    }
  }

  lemma LanePrepares(j: Journal, q: Request, lane: Lane, r: seq<int>)
    requires JournalOk(j) && LaneHistory(j, lane, r) && PrepareError(j, q).None?
    ensures LaneHistory(Step(j, Prepare(q)), lane, r)
  {
    var k := Step(j, Prepare(q));
    forall c | c in k.actions && k.actions[c].group.lane == lane ensures k.actions[c].nonce in r {
      if c == q.cloid {
        assert q.nonce == r[|r| - 1];
      } else {
        assert c in j.actions && k.actions[c] == j.actions[c];
      }
    }
  }

  lemma SameNonces(j: Journal, k: Journal, lane: Lane, r: seq<int>)
    requires LaneHistory(j, lane, r)
    requires k == j || exists c :: RowChange(j, k, c)
    ensures LaneHistory(k, lane, r)
  {
    forall c | c in k.actions && k.actions[c].group.lane == lane ensures k.actions[c].nonce in r {
      assert c in j.actions && k.actions[c].nonce == j.actions[c].nonce && k.actions[c].group == j.actions[c].group;
    }
  }

  /**
   Under any clock, the nonces reserved on a lane strictly increase, and every nonce of a journaled action of
   that lane is one of them.
   */
  lemma {:induction false} NoncesIncrease(ops: seq<Op>, lane: Lane)
    ensures LaneHistory(Run(EMPTY_JOURNAL, ops), lane, Reserved(EMPTY_JOURNAL, ops, lane))
  {
    if ops != [] {
      var init, last := ops[..|ops| - 1], ops[|ops| - 1];
      NoncesIncrease(init, lane);
      RunIsOk(EMPTY_JOURNAL, init);
      LaneStep(Run(EMPTY_JOURNAL, init), last, lane, Reserved(EMPTY_JOURNAL, init, lane));
    }
  }

  /** How often the run crossed the send boundary for one action. */
  ghost function Sends(j: Journal, ops: seq<Op>, c: Cloid): nat {
    if ops == [] then 0
    else
      var init, last := ops[..|ops| - 1], ops[|ops| - 1];
      Sends(j, init, c) + if last.Send? && last.cloid == c && Succeeds(Run(j, init), last) then 1 else 0
  }

  /** In any run each action crosses the send boundary at most once, exactly when its row records a send time. */
  lemma {:induction false} SentAtMostOnce(ops: seq<Op>, c: Cloid)
    ensures var j := Run(EMPTY_JOURNAL, ops);
            && Sends(EMPTY_JOURNAL, ops, c) <= 1
            && (Sends(EMPTY_JOURNAL, ops, c) == 1 <==> c in j.actions && j.actions[c].sendAttemptedMs.Some?)
  {
    if ops != [] {
      var init, last := ops[..|ops| - 1], ops[|ops| - 1];
      SentAtMostOnce(init, c);
      RunIsOk(EMPTY_JOURNAL, init);
      SendStep(Run(EMPTY_JOURNAL, init), last, c);
    }
  }

  lemma SendStep(j: Journal, op: Op, c: Cloid)
    requires JournalOk(j)
    ensures var before := c in j.actions && j.actions[c].sendAttemptedMs.Some?;
            var after := c in Step(j, op).actions && Step(j, op).actions[c].sendAttemptedMs.Some?;
            && (before ==> after)
            && (op.Send? && op.cloid == c && Succeeds(j, op) <==> !before && after)
  {
    if IsUpdate(op) {
      UpdateChangesOneRow(j, op);
    } else if op.Prepare? && PrepareError(j, op.request).None? && op.request.cloid == c {
      assert Step(j, op).actions[c] == Fresh(op.request);
    }
  }

  // ---------- The rolling send count ----------

  ghost function SentAfter(j: Journal, lane: Lane, afterMs: int): set<Cloid> {
    set c | c in j.actions && j.actions[c].group.lane == lane && j.actions[c].sendAttemptedMs.Some?
            && j.actions[c].sendAttemptedMs.value > afterMs
  }

  /** For a fixed cutoff the count of recent sends never falls and rises by at most one per call. */
  lemma SendCountGrows(j: Journal, op: Op, lane: Lane, afterMs: int)
    requires JournalOk(j)
    ensures SentAfter(j, lane, afterMs) <= SentAfter(Step(j, op), lane, afterMs)
    ensures |SentAfter(j, lane, afterMs)| <= |SentAfter(Step(j, op), lane, afterMs)|
            <= |SentAfter(j, lane, afterMs)| + 1
    ensures !op.Send? ==> SentAfter(Step(j, op), lane, afterMs) == SentAfter(j, lane, afterMs)
  {
    var before, after := SentAfter(j, lane, afterMs), SentAfter(Step(j, op), lane, afterMs);
    var extra := if op.Send? then {op.cloid} else {};
    StepExtends(j, op);
    assert before <= after;
    forall c | c in after ensures c in before || c in extra {
      SendStep(j, op, c);
      assert c in j.actions ==> Advances(j.actions[c], Step(j, op).actions[c]);
    }
    CountOneMore(before, after, extra);
  }

  lemma CountOneMore(a: set<Cloid>, b: set<Cloid>, extra: set<Cloid>)
    requires a <= b <= a + extra && |extra| <= 1
    ensures |a| <= |b| <= |a| + 1
  {
    assert b == a + (b - a) && |b| == |a| + |b - a|;
    assert extra == (b - a) + (extra - (b - a)) && |extra| == |b - a| + |extra - (b - a)|;
  }

  // ---------- Order of observations ----------

  /** The row after an observation; a rejected one changes nothing. */
  function Kept(a: Action, row: Row): Action { if row.Ok? then row.value else a }

  /**
   From any sent, unresolved row, a fill-bearing response and a fill report of no more than its quantity reach
   the same state and cumulative fill in either order.
   */
  lemma ResponseAndFillCommute(a: Action, target: ActionState, c: real, detail: Option<string>, f: real, t1: int,
                               t2: int)
    requires RowOk(a) && Crossed(a.state) && !TerminalState(a.state)
    requires target.Filled? || target.PartiallyFilled?
    requires WithOutcome(a, target, Some(c), detail, t1).Ok?
    requires 0.0 <= f <= c
    ensures var responseFirst := Kept(Kept(a, WithOutcome(a, target, Some(c), detail, t1)),
                                      WithFill(Kept(a, WithOutcome(a, target, Some(c), detail, t1)), f, t2));
            var fillFirst := Kept(Kept(a, WithFill(a, f, t2)),
                                  WithOutcome(Kept(a, WithFill(a, f, t2)), target, Some(c), detail, t1));
            && responseFirst.state == fillFirst.state == target
            && responseFirst.cumulative == fillFirst.cumulative == c
  {
  }

  /** Whether the response is accepted depends only on its quantity, whatever smaller fill was seen before it. */
  lemma ResponseAcceptedIff(a: Action, target: ActionState, c: real, detail: Option<string>, t: int)
    requires RowOk(a) && Crossed(a.state) && !TerminalState(a.state)
    requires target.Filled? || target.PartiallyFilled?
    ensures WithOutcome(a, target, Some(c), detail, t).Ok?
            <==> a.cumulative <= c && if target.Filled? then c == a.requested else 0.0 < c < a.requested
  {
  }

  /** A late fill after a rejection or cancel always resolves to (partially) filled, and keeps the terminal time. */
  lemma LateFillWins(a: Action, f: real, t: int)
    requires RowOk(a) && (a.state.Rejected? || a.state.Canceled?)
    requires 0.0 < f <= a.requested
    ensures WithFill(a, f, t).Ok?
    ensures var b := WithFill(a, f, t).value;
            && b.cumulative == f && b.state == (if f == a.requested then Filled else PartiallyFilled)
            && b.terminalMs == a.terminalMs
  {
  }

  function FillAll(a: Action, fs: seq<real>, t: int): Action
    decreases fs
  {
    if fs == [] then a else FillAll(Kept(a, WithFill(a, fs[0], t)), fs[1..], t)
  }

  function LargestFit(a: Action, fs: seq<real>): real {
    if fs == [] then a.cumulative
    else
      var rest := LargestFit(a, fs[1..]);
      if fs[0] <= a.requested && fs[0] > rest then fs[0] else rest
  }

  lemma {:induction false} LargestFitBounds(a: Action, b: Action, fs: seq<real>)
    requires a.requested == b.requested && a.cumulative <= b.cumulative
    ensures a.cumulative <= LargestFit(a, fs)
    ensures LargestFit(b, fs) == if LargestFit(a, fs) >= b.cumulative then LargestFit(a, fs) else b.cumulative
  {
    if fs != [] {
      LargestFitBounds(a, b, fs[1..]);
    }
  }

  /** Fill reports in any order, with repeats and stale ones, end at the largest one that fits the order. */
  lemma {:induction false} FillsEndAtLargest(a: Action, fs: seq<real>, t: int)
    requires RowOk(a) && Crossed(a.state)
    ensures FillAll(a, fs, t).cumulative == LargestFit(a, fs)
    ensures RowOk(FillAll(a, fs, t))
    decreases fs
  {
    if fs != [] {
      var b := Kept(a, WithFill(a, fs[0], t));
      FillsEndAtLargest(b, fs[1..], t);
      LargestFitBounds(a, b, fs[1..]);
    }
  }

  /** An action needs recovery exactly when it is not terminal. */
  lemma RecoveryIsNotTerminal(s: ActionState)
    ensures RecoveryState(s) <==> !TerminalState(s)
  {
  }
}
