/**
 The journal object over its two tables. Each call is one transaction: it leaves the tables the journal's
 step function gives, and a raised error leaves them as they were.
 */
module JournalStore {
  import opened Outcomes
  import opened Sorting
  import opened ActionJournal

  type Rows = seq<Action>

  /** `ORDER BY created_ms, cloid`. */
  predicate CreatedBefore(a: Action, b: Action) {
    a.createdMs < b.createdMs || (a.createdMs == b.createdMs && a.cloid < b.cloid)
  }

  ghost predicate InCreationOrder(rows: Rows) { Ordered(rows, CreatedBefore) }

  // One send: its time, and the client id that breaks ties.
  datatype SendTime = SendTime(sentMs: int, cloid: Cloid)

  predicate SentBefore(a: SendTime, b: SendTime) {
    a.sentMs < b.sentMs || (a.sentMs == b.sentMs && a.cloid < b.cloid)
  }

  ghost predicate InSendOrder(sends: seq<SendTime>) { Ordered(sends, SentBefore) }

  function LastOf(s: seq<int>): Option<int> { if s == [] then None else Some(s[|s| - 1]) }

  // ---------- The contract in plain terms ----------

  /** The moves a venue outcome may make, state by state. */
  predicate MayBecome(from: ActionState, to: ActionState) {
    match from
    case SendAttempted => to in {Unknown, Rejected, Resting, PartiallyFilled, Filled, Canceled}
    case Unknown => to in {Unknown, Rejected, Resting, PartiallyFilled, Filled, Canceled}
    case Resting => to in {Unknown, Resting, PartiallyFilled, Filled, Canceled}
    case PartiallyFilled => to in {PartiallyFilled, Filled}
    case Rejected => to == Rejected
    case Filled => to == Filled
    case Canceled => to == Canceled
    case Prepared => false
    case NotSent => false
  }

  /** A total never falls, never exceeds the order, and agrees with the state it is reported for. */
  predicate TotalFits(a: Action, to: ActionState, total: real) {
    && 0.0 <= total && a.cumulative <= total <= a.requested
    && (to == Filled ==> total == a.requested)
    && (to == PartiallyFilled ==> 0.0 < total < a.requested)
    && (to == Rejected || to == Canceled ==> total == 0.0)
    && (to == Unknown || to == Resting ==> total < a.requested)
  }

  predicate Over(s: ActionState) { s in {NotSent, Rejected, PartiallyFilled, Filled, Canceled} }

  /** The row after an outcome: its state, total and detail, and the first time it was over; nothing else moves. */
  predicate BecameOutcome(a: Action, b: Action, to: ActionState, total: real, detail: Option<string>, observedMs: int) {
    && b.state == to && b.cumulative == total && b.detail == detail
    && b.terminalMs == (if a.terminalMs.Some? then a.terminalMs else if Over(to) then Some(observedMs) else None)
    && b.updatedMs == (if a.state == to && a.cumulative == total && a.detail == detail then a.updatedMs else observedMs)
    && SameIdentity(a, b) && b.requestId == a.requestId && b.sendAttemptedMs == a.sendAttemptedMs
  }

  /** What no update changes. */
  predicate SameIdentity(a: Action, b: Action) {
    && b.cloid == a.cloid && b.group == a.group && b.attemptNo == a.attemptNo && b.nonce == a.nonce
    && b.requested == a.requested && b.actionJson == a.actionJson && b.signedPayload == a.signedPayload
    && b.expiresAfterMs == a.expiresAfterMs && b.createdMs == a.createdMs
  }

  /** The row after a larger total: a full one fills it, a partial one resolves only a row the venue had closed. */
  predicate BecameFilledTo(a: Action, b: Action, total: real, observedMs: int) {
    if total == a.cumulative then b == a
    else
      && b.cumulative == total && b.updatedMs == observedMs && b.detail == a.detail
      && b.state == (if total == a.requested then Filled
                     else if a.state in {Rejected, Canceled, PartiallyFilled} then PartiallyFilled else a.state)
      && b.terminalMs == (if a.terminalMs.Some? then a.terminalMs else if Over(b.state) then Some(observedMs) else None)
      && SameIdentity(a, b) && b.requestId == a.requestId && b.sendAttemptedMs == a.sendAttemptedMs
  }

  function TotalOf(a: Action, reported: Option<real>): real {
    if reported.Some? then reported.value else a.cumulative
  }

  lemma OutcomeAccepted(a: Action, op: Op, total: real)
    requires RowOk(a) && op.Outcome? && total == TotalOf(a, op.reported)
    ensures Updated(a, op).Ok? <==> op.observedMs > 0 && MayBecome(a.state, op.target) && TotalFits(a, op.target, total)
    ensures Updated(a, op).Ok? ==> BecameOutcome(a, Updated(a, op).value, op.target, total, op.detail, op.observedMs)
  {
  }

  lemma OutcomeWasAllowed(a: Action, op: Op)
    requires op.Outcome?
    ensures Updated(a, op).Ok? ==> Allowed(a.state, op.target)
  {
  }

  lemma FillAccepted(a: Action, op: Op)
    requires RowOk(a) && op.FillReport?
    ensures Updated(a, op).Ok? <==>
              && op.observedMs > 0 && 0.0 <= a.cumulative <= op.cumulative <= a.requested
              && (op.cumulative == a.cumulative || a.sendAttemptedMs.Some?)
    ensures Updated(a, op).Ok? ==> BecameFilledTo(a, Updated(a, op).value, op.cumulative, op.observedMs)
  {
  }

  /** Only the row `c` of the table changed. */
  predicate OnlyRow(before: map<Cloid, Action>, after: map<Cloid, Action>, c: Cloid) {
    after.Keys == before.Keys && forall d <- before :: d != c ==> after[d] == before[d]
  }

  /** The request carries the lane's latest nonce and the next attempt of its group, and clashes with no row. */
  ghost predicate MayPrepare(j: Journal, q: Request) {
    && q.nonce > 0 && q.size > 0.0 && q.createdMs > 0 && q.expiresAfterMs > q.createdMs
    && q.group.lane in j.nonces && q.nonce == j.nonces[q.group.lane]
    && q.attemptNo >= 1
    && (q.attemptNo > 1 ==> exists c <- j.actions ::
          j.actions[c].group == q.group && j.actions[c].attemptNo == q.attemptNo - 1)
    && (forall c <- j.actions :: j.actions[c].group == q.group ==> j.actions[c].attemptNo < q.attemptNo)
    && q.cloid !in j.actions
    && (forall c <- j.actions :: j.actions[c].group.lane == q.group.lane ==> j.actions[c].nonce != q.nonce)
  }

  /** A row as first written: exactly the request, prepared, with nothing filled and nothing sent. */
  predicate WrittenAs(a: Action, q: Request) {
    && a.cloid == q.cloid && a.group == q.group && a.attemptNo == q.attemptNo && a.nonce == q.nonce
    && a.requested == q.size && a.cumulative == 0.0 && a.actionJson == q.actionJson
    && a.signedPayload == q.signedPayload && a.expiresAfterMs == q.expiresAfterMs && a.requestId == q.requestId
    && a.state == Prepared && a.detail == None && a.createdMs == a.updatedMs == q.createdMs
    && a.sendAttemptedMs == None && a.terminalMs == None
  }

  class Store {
    var nonces: map<Lane, int>
    var actions: map<Cloid, Action>

    function Now(): Journal
      reads this
    {
      Journal(nonces, actions)
    }

    ghost predicate Valid()
      reads this
    {
      JournalOk(Now())
    }

    constructor ()
      ensures Valid() && Now() == EMPTY_JOURNAL
    {
      nonces, actions := map[], map[];
    }

    method ReserveNonce(lane: Lane, wallMs: int) returns (r: Result<int, JournalError>)
      requires Valid()
      modifies this
      ensures Valid() && Now() == Step(old(Now()), Reserve(lane, wallMs))
      ensures r.Ok? <==> wallMs > 0
      ensures r.Ok? ==> nonces[lane] == r.value >= wallMs && (lane in old(nonces) ==> r.value > old(nonces)[lane])
      ensures r.Ok? ==> r.value == wallMs || (lane in old(nonces) && r.value == old(nonces)[lane] + 1)
      ensures actions == old(actions)
      ensures nonces == if r.Ok? then old(nonces)[lane := r.value] else old(nonces)
    {
      StepKeepsOk(Now(), Reserve(lane, wallMs));
      if wallMs <= 0 {
        return Err(BadArgument);
      }
      var nonce := if lane in nonces then Max(wallMs, nonces[lane] + 1) else wallMs;
      nonces := nonces[lane := nonce];
      r := Ok(nonce);
    }

    /** In every run the last nonce is the one the lane's latest reservation handed out, if there was any. */
    method LastNonce(lane: Lane) returns (r: Option<int>)
      ensures r == if lane in nonces then Some(nonces[lane]) else None
      ensures forall ops :: Now() == Run(EMPTY_JOURNAL, ops) ==> r == LastOf(Reserved(EMPTY_JOURNAL, ops, lane))
    {
      forall ops | Now() == Run(EMPTY_JOURNAL, ops)
        ensures LaneHistory(Now(), lane, Reserved(EMPTY_JOURNAL, ops, lane))
      {
        NoncesIncrease(ops, lane);
      }
      r := if lane in nonces then Some(nonces[lane]) else None;
    }

    method LastAttempt(g: Group) returns (last: int)
      requires Valid()
      ensures last == MaxOf(Attempts(Now(), g))
    {
      last := 0;
      var todo := actions.Keys;
      ghost var best: Cloid := 0;
      while todo != {}
        invariant todo <= actions.Keys
        invariant forall c :: c in actions.Keys - todo && actions[c].group == g ==> actions[c].attemptNo <= last
        invariant last == 0 || (best in actions && actions[best].group == g && actions[best].attemptNo == last)
        invariant last >= 0
        decreases |todo|
      {
        var c :| c in todo;
        todo := todo - {c};
        if actions[c].group == g && actions[c].attemptNo > last {
          last := actions[c].attemptNo;
          best := c;
        }
      }
      BoundIsMax(Now(), g, last, best);
    }

    method NextAttemptNo(g: Group) returns (n: int)
      requires Valid()
      ensures n == MaxOf(Attempts(Now(), g)) + 1
      ensures forall k :: 1 <= k < n <==> k in Attempts(Now(), g)
    {
      var last := LastAttempt(g);
      n := last + 1;
      AttemptsAreOneToN(Now(), g);
    }

    method PrepareAction(q: Request) returns (r: Result<Action, JournalError>)
      requires Valid()
      modifies this
      ensures Valid() && Now() == Step(old(Now()), Prepare(q))
      ensures r == var e := PrepareError(old(Now()), q); if e.Some? then Err(e.value) else Ok(Fresh(q))
      ensures r.Ok? ==> forall c <- old(actions) ::
                old(actions)[c].group.lane == q.group.lane ==> old(actions)[c].nonce < q.nonce
      ensures r.Ok? <==> MayPrepare(old(Now()), q)
      ensures r.Ok? ==> WrittenAs(r.value, q) && actions == old(actions)[q.cloid := r.value] && nonces == old(nonces)
      ensures r.Err? ==> Now() == old(Now())
    {
      MayPrepareIff(Now(), q);
      StepKeepsOk(Now(), Prepare(q));
      if !RequestOk(q) { return Err(BadArgument); }
      if q.group.lane !in nonces || q.nonce != nonces[q.group.lane] { return Err(StaleNonce); }
      var last := LastAttempt(q.group);
      if q.attemptNo != last + 1 { return Err(WrongAttempt); }
      if !InsertFits(Now(), q) { return Err(AlreadyJournaled); }
      PreparedComesLast(Now(), q);
      actions := actions[q.cloid := Fresh(q)];
      r := Ok(Fresh(q));
    }

    /** Reads the row, computes its next version and writes it back; an error writes nothing. */
    method UpdateRow(op: Op) returns (r: Result<Action, JournalError>)
      requires Valid() && IsUpdate(op)
      modifies this
      ensures Valid() && Now() == Step(old(Now()), op)
      ensures r == if op.cloid in old(actions) then Updated(old(actions)[op.cloid], op) else Err(UnknownAction)
      ensures r.Ok? ==> op.cloid in actions && actions[op.cloid] == r.value
      ensures r.Ok? ==> OnlyRow(old(actions), actions, op.cloid) && Advances(old(actions)[op.cloid], r.value)
      ensures r.Err? ==> Now() == old(Now())
    {
      StepKeepsOk(Now(), op);
      if op.cloid !in actions { return Err(UnknownAction); }
      r := Updated(actions[op.cloid], op);
      if r.Ok? {
        UpdateAdvances(actions[op.cloid], op);
        actions := actions[op.cloid := r.value];
      }
    }

    /** Crosses the send boundary; a second call always fails. */
    method MarkSendAttempted(c: Cloid, requestId: Option<string>, observedMs: int)
        returns (r: Result<Action, JournalError>)
      requires Valid()
      modifies this
      ensures Valid() && Now() == Step(old(Now()), Send(c, requestId, observedMs))
      ensures r.Ok? <==> c in old(actions) && old(actions)[c].state.Prepared? && observedMs > 0
      ensures r.Ok? ==> old(actions)[c].sendAttemptedMs.None? && actions[c].sendAttemptedMs == Some(observedMs)
      ensures r.Ok? ==>
                && OnlyRow(old(actions), actions, c) && SameIdentity(old(actions)[c], actions[c])
                && actions[c].state == SendAttempted && actions[c].updatedMs == observedMs
                && actions[c].requestId == (if requestId.Some? then requestId.value else old(actions)[c].requestId)
                && actions[c].cumulative == old(actions)[c].cumulative && actions[c].detail == old(actions)[c].detail
                && actions[c].terminalMs == old(actions)[c].terminalMs
      ensures r.Err? ==> Now() == old(Now())
    {
      r := UpdateRow(Send(c, requestId, observedMs));
    }

    method MarkNotSent(c: Cloid, observedMs: int) returns (r: Result<Action, JournalError>)
      requires Valid()
      modifies this
      ensures Valid() && Now() == Step(old(Now()), Unsent(c, observedMs))
      ensures r.Ok? <==>
                c in old(actions) && observedMs > 0
                && (old(actions)[c].state.Prepared? || old(actions)[c].state.NotSent?)
      ensures r.Ok? ==> actions[c].state.NotSent? && actions[c].sendAttemptedMs.None? && actions[c].terminalMs.Some?
      ensures r.Ok? ==>
                && OnlyRow(old(actions), actions, c) && SameIdentity(old(actions)[c], actions[c])
                && (old(actions)[c].state.NotSent? ==> actions[c] == old(actions)[c])
                && (old(actions)[c].state.Prepared? ==>
                      actions[c].terminalMs == Some(observedMs) == Some(actions[c].updatedMs))
                && actions[c].requestId == old(actions)[c].requestId && actions[c].detail == old(actions)[c].detail
                && actions[c].cumulative == old(actions)[c].cumulative
      ensures r.Err? ==> Now() == old(Now())
    {
      r := UpdateRow(Unsent(c, observedMs));
    }

    method RecordOutcome(c: Cloid, target: ActionState, reported: Option<real>, detail: Option<string>, observedMs: int)
      returns (r: Result<Action, JournalError>)
      requires Valid()
      modifies this
      ensures Valid() && Now() == Step(old(Now()), Outcome(c, target, reported, detail, observedMs))
      ensures r.Ok? ==>
                && c in actions && c in old(actions) && actions[c].state == target
                && Allowed(old(actions)[c].state, target)
                && actions[c].cumulative >= old(actions)[c].cumulative
      ensures r.Ok? <==>
                && c in old(actions) && observedMs > 0 && MayBecome(old(actions)[c].state, target)
                && TotalFits(old(actions)[c], target, TotalOf(old(actions)[c], reported))
      ensures r.Ok? ==>
                && OnlyRow(old(actions), actions, c)
                && BecameOutcome(old(actions)[c], actions[c], target, TotalOf(old(actions)[c], reported), detail,
                                observedMs)
      ensures r.Err? ==> Now() == old(Now())
    {
      var op := Outcome(c, target, reported, detail, observedMs);
      if c in actions {
        OutcomeAccepted(actions[c], op, TotalOf(actions[c], reported));
        OutcomeWasAllowed(actions[c], op);
      }
      r := UpdateRow(op);
    }

    method MarkUnknown(c: Cloid, detail: Option<string>, observedMs: int) returns (r: Result<Action, JournalError>)
      requires Valid()
      modifies this
      ensures Valid() && Now() == Step(old(Now()), Outcome(c, Unknown, None, detail, observedMs))
      ensures r.Ok? ==>
                && c in actions && c in old(actions) && !TerminalState(old(actions)[c].state)
                && actions[c].cumulative == old(actions)[c].cumulative
      ensures r.Ok? <==>
                c in old(actions) && observedMs > 0 && old(actions)[c].state in {SendAttempted, Unknown, Resting}
      ensures r.Ok? ==>
                && OnlyRow(old(actions), actions, c)
                && BecameOutcome(old(actions)[c], actions[c], Unknown, old(actions)[c].cumulative, detail, observedMs)
      ensures r.Err? ==> Now() == old(Now())
    {
      assert Valid() && (c in actions ==> RowOk(actions[c]));
      r := RecordOutcome(c, Unknown, None, detail, observedMs);
    }

    method RecordCumulativeFill(c: Cloid, cumulative: real, observedMs: int) returns (r: Result<Action, JournalError>)
      requires Valid()
      modifies this
      ensures Valid() && Now() == Step(old(Now()), FillReport(c, cumulative, observedMs))
      ensures r.Ok? ==>
                && c in actions && actions[c].cumulative == cumulative
                && (cumulative == actions[c].requested <==> actions[c].state.Filled?)
      ensures r.Ok? <==>
                && c in old(actions) && observedMs > 0
                && 0.0 <= old(actions)[c].cumulative <= cumulative <= old(actions)[c].requested
                && (cumulative == old(actions)[c].cumulative || old(actions)[c].sendAttemptedMs.Some?)
      ensures r.Ok? ==>
                && OnlyRow(old(actions), actions, c)
                && BecameFilledTo(old(actions)[c], actions[c], cumulative, observedMs)
      ensures r.Err? ==> Now() == old(Now())
    {
      if c in actions {
        FillAccepted(actions[c], FillReport(c, cumulative, observedMs));
      }
      r := UpdateRow(FillReport(c, cumulative, observedMs));
      if r.Ok? {
        assert RowOk(actions[c]);
      }
    }

    /** The unresolved actions, of one lane or of all, each once and in creation order. */
    method RecoveryActions(follower: Option<string>, wallet: Option<string>) returns (r: Result<Rows, JournalError>)
      requires Valid()
      ensures r.Err? <==> follower.None? != wallet.None?
      ensures r.Ok? ==> InCreationOrder(r.value)
      ensures r.Ok? ==> forall a :: a in r.value <==>
                          a.cloid in actions && actions[a.cloid] == a && RecoveryState(a.state)
                          && (follower.Some? ==> a.group.lane == Lane(follower.value, wallet.value))
      ensures r.Ok? && follower.None? ==> (r.value == [] <==> forall c <- actions :: TerminalState(actions[c].state))
      ensures r.Ok? ==> forall a <- r.value :: a.state in {Prepared, SendAttempted, Unknown, Resting}
      ensures r.Ok? ==> forall c <- actions ::
                actions[c].state in {Prepared, SendAttempted, Unknown, Resting}
                && (follower.Some? ==> actions[c].group.lane == Lane(follower.value, wallet.value))
                ==> actions[c] in r.value
      ensures r.Ok? ==> forall i, k :: 0 <= i < k < |r.value| ==>
                r.value[i].createdMs < r.value[k].createdMs
                || (r.value[i].createdMs == r.value[k].createdMs && r.value[i].cloid < r.value[k].cloid)
    {
      if follower.None? != wallet.None? {
        return Err(BadArgument);
      }
      var rows := CollectRecovery(actions, if follower.Some? then Some(Lane(follower.value, wallet.value)) else None);
      r := Ok(rows);
      if follower.None? {
        RecoveryEmptyIff(actions, rows);
      }
    }

    /** The send times of one lane after a cutoff, one entry per sent action. */
    method RecentSendAttempts(lane: Lane, afterMs: int) returns (r: Result<seq<SendTime>, JournalError>)
      requires Valid()
      ensures r.Err? <==> afterMs < 0
      ensures r.Ok? ==> InSendOrder(r.value) && |r.value| == |SentAfter(Now(), lane, afterMs)|
      ensures r.Ok? ==> forall s :: s in r.value <==> s.cloid in SentAfter(Now(), lane, afterMs)
                                                      && actions[s.cloid].sendAttemptedMs == Some(s.sentMs)
      ensures r.Ok? ==> forall s :: s in r.value <==>
                s.cloid in actions && actions[s.cloid].group.lane == lane
                && actions[s.cloid].sendAttemptedMs == Some(s.sentMs) && s.sentMs > afterMs
      ensures r.Ok? ==> forall i, k :: 0 <= i < k < |r.value| ==>
                r.value[i].sentMs < r.value[k].sentMs
                || (r.value[i].sentMs == r.value[k].sentMs && r.value[i].cloid < r.value[k].cloid)
    {
      if afterMs < 0 {
        return Err(BadArgument);
      }
      var sends := CollectSends(Now(), lane, afterMs);
      r := Ok(sends);
    }
  }

  /** The checks of `prepare_action` come to this, whatever their order. */
  lemma MayPrepareIff(j: Journal, q: Request)
    requires JournalOk(j)
    ensures MayPrepare(j, q) <==> PrepareError(j, q).None?
  {
    var s := Attempts(j, q.group);
    AttemptsAreOneToN(j, q.group);
    forall c | c in j.actions && j.actions[c].group == q.group ensures j.actions[c].attemptNo in s {
    }
    if MayPrepare(j, q) {
      if q.attemptNo > 1 {
        var c :| c in j.actions && j.actions[c].group == q.group && j.actions[c].attemptNo == q.attemptNo - 1;
        assert q.attemptNo - 1 in s;
      }
      assert forall n <- s :: n < q.attemptNo;
      MaxIsUnique(q.attemptNo - 1, MaxOf(s), s);
    }
    if PrepareError(j, q).None? && q.attemptNo > 1 {
      assert MaxOf(s) in s;
    }
  }

  predicate NeedsRecovery(a: Action, lane: Option<Lane>) {
    RecoveryState(a.state) && (lane.Some? ==> a.group.lane == lane.value)
  }

  /** The unresolved actions outside `todo`, in order. */
  ghost predicate RecoveryRows(actions: map<Cloid, Action>, todo: set<Cloid>, lane: Option<Lane>, rows: Rows) {
    && InCreationOrder(rows)
    && forall a :: a in rows <==>
         a.cloid in actions && a.cloid !in todo && actions[a.cloid] == a && NeedsRecovery(a, lane)
  }

  lemma AddRecoveryRow(actions: map<Cloid, Action>, todo: set<Cloid>, lane: Option<Lane>, rows: Rows, c: Cloid)
    requires RecoveryRows(actions, todo, lane, rows) && c in todo && c in actions && actions[c].cloid == c
    ensures RecoveryRows(actions, todo - {c}, lane,
                         if NeedsRecovery(actions[c], lane) then Insert(actions[c], rows, CreatedBefore) else rows)
  {
    if NeedsRecovery(actions[c], lane) {
      InsertOrdered(actions[c], rows, CreatedBefore);
      InsertMembers(actions[c], rows, CreatedBefore);
    }
  }

  method CollectRecovery(actions: map<Cloid, Action>, lane: Option<Lane>) returns (rows: Rows)
    requires forall c <- actions :: actions[c].cloid == c
    ensures RecoveryRows(actions, {}, lane, rows)
  {
    rows := [];
    var todo := actions.Keys;
    while todo != {}
      invariant todo <= actions.Keys
      invariant RecoveryRows(actions, todo, lane, rows)
      decreases |todo|
    {
      var c :| c in todo;
      AddRecoveryRow(actions, todo, lane, rows, c);
      todo := todo - {c};
      if NeedsRecovery(actions[c], lane) {
        rows := Insert(actions[c], rows, CreatedBefore);
      }
    }
  }

  /** The send times of the actions `done`, one each, in order. */
  ghost predicate SendsOf(j: Journal, done: set<Cloid>, sends: seq<SendTime>) {
    && done <= j.actions.Keys
    && InSendOrder(sends) && |sends| == |done|
    && forall s :: s in sends <==> s.cloid in done && j.actions[s.cloid].sendAttemptedMs == Some(s.sentMs)
  }

  lemma AddSend(j: Journal, done: set<Cloid>, sends: seq<SendTime>, s: SendTime)
    requires SendsOf(j, done, sends)
    requires s.cloid in j.actions && s.cloid !in done && j.actions[s.cloid].sendAttemptedMs == Some(s.sentMs)
    ensures SendsOf(j, done + {s.cloid}, Insert(s, sends, SentBefore))
  {
    InsertOrdered(s, sends, SentBefore);
    InsertMembers(s, sends, SentBefore);
  }

  predicate SentSince(a: Action, lane: Lane, afterMs: int) {
    a.group.lane == lane && a.sendAttemptedMs.Some? && a.sendAttemptedMs.value > afterMs
  }

  method CollectSends(j: Journal, lane: Lane, afterMs: int) returns (sends: seq<SendTime>)
    ensures SendsOf(j, SentAfter(j, lane, afterMs), sends)
  {
    sends := [];
    ghost var done: set<Cloid> := {};
    var todo := j.actions.Keys;
    while todo != {}
      invariant todo <= j.actions.Keys && done !! todo
      invariant forall c :: c in done <==> c in j.actions && c !in todo && SentSince(j.actions[c], lane, afterMs)
      invariant SendsOf(j, done, sends)
      decreases |todo|
    {
      var c :| c in todo;
      todo := todo - {c};
      if SentSince(j.actions[c], lane, afterMs) {
        var s := SendTime(j.actions[c].sendAttemptedMs.value, c);
        AddSend(j, done, sends, s);
        sends := Insert(s, sends, SentBefore);
        done := done + {c};
      }
    }
    assert done == SentAfter(j, lane, afterMs);
  }

  lemma BoundIsMax(j: Journal, g: Group, last: int, best: Cloid)
    requires JournalOk(j) && last >= 0
    requires forall c <- j.actions :: j.actions[c].group == g ==> j.actions[c].attemptNo <= last
    requires last == 0 || (best in j.actions && j.actions[best].group == g && j.actions[best].attemptNo == last)
    ensures last == MaxOf(Attempts(j, g))
  {
    var s := Attempts(j, g);
    forall n | n in s ensures 1 <= n <= last {
      var c :| c in j.actions && j.actions[c].group == g && j.actions[c].attemptNo == n;
    }
    if last > 0 {
      assert last in s;
    } else {
      assert forall n :: n !in s;
    }
    MaxIsUnique(last, MaxOf(s), s);
  }

  lemma MaxIsUnique(m: int, n: int, s: set<int>)
    requires IsMaxOf(m, s) && IsMaxOf(n, s)
    ensures m == n
  {
  }

  lemma AttemptsAreOneToN(j: Journal, g: Group)
    requires JournalOk(j)
    ensures forall k :: 1 <= k <= MaxOf(Attempts(j, g)) <==> k in Attempts(j, g)
  {
    var m := MaxOf(Attempts(j, g));
    forall n | n in Attempts(j, g) ensures n >= 1 {
      var c :| c in j.actions && j.actions[c].group == g && j.actions[c].attemptNo == n;
    }
    if Attempts(j, g) != {} {
      assert m in Attempts(j, g);
    }
  }

  lemma RecoveryEmptyIff(actions: map<Cloid, Action>, rows: Rows)
    requires forall c <- actions :: actions[c].cloid == c
    requires forall a :: a in rows <==> a.cloid in actions && actions[a.cloid] == a && RecoveryState(a.state)
    ensures rows == [] <==> forall c <- actions :: TerminalState(actions[c].state)
  {
    if rows == [] {
      forall c | c in actions ensures TerminalState(actions[c].state) {
        assert actions[c] !in rows;
      }
    } else {
      assert rows[0] in rows;
    }
  }
}
