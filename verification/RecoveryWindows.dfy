/**
 The recovery windows of one replayed slot: opened when the stream degrades (or by a reconnect without one), closed
 by a reconnect, and counting what follows it. A window object stays in the list and is edited in place.
 */
module RecoveryWindows {
  import opened Outcomes

  datatype Row =
    | Degraded(ts: int, rowId: string, sourceError: string)
    | Reconnected(ts: int, rowId: string, sourceError: string, gapMs: Option<int>)
    | OtherRecovery(ts: int)
    | Refresh(ts: int, isRest: bool)
    | AccountState(ts: int)
    | SourceAction(ts: int)
    | Passive(ts: int)

  datatype Status = PendingReconnect | RequiresBackfill

  datatype Window = Window(
    sequence: int, status: Status, degradedMs: int, reconnectedMs: Option<int>, gapMs: Option<int>,
    degradedRowId: string, reconnectRowId: string, sourceError: string,
    refreshes: nat, restSnapshots: nat, accountRows: nat, sourceActions: nat,
    firstRefreshMs: Option<int>, firstRestMs: Option<int>)

  datatype Stream = Trusted | StreamDegraded | RecoveryRequired | RecoveryReview

  datatype State = State(
    windows: seq<Window>, stream: Stream, hintsAllowed: bool, pendingBackfill: bool, pendingReconcile: bool,
    degradedEvents: nat, reconnectedEvents: nat, refreshesAfterReconnect: nat)

  const START := State([], Trusted, true, false, false, 0, 0, 0)

  function Opened(sequence: int, ts: int, rowId: string, sourceError: string): Window {
    Window(sequence, PendingReconnect, ts, None, None, rowId, "", sourceError, 0, 0, 0, 0, None, None)
  }

  // The program asks whether the reconnect time is truthy here, so a time of zero reads as "not reconnected yet".
  predicate ReconnectedForStart(w: Window) { w.reconnectedMs.Some? && w.reconnectedMs.value != 0 }

  function MarkedReconnected(w: Window, row: Row): Window
    requires row.Reconnected?
  {
    w.(status := RequiresBackfill, reconnectedMs := Some(row.ts), gapMs := row.gapMs, reconnectRowId := row.rowId)
  }

  function First(seen: Option<int>, ts: int): Option<int> { if seen.Some? then seen else Some(ts) }

  /** What a later row adds to a window that has been reconnected. */
  function FollowedUp(w: Window, row: Row): Window {
    if w.reconnectedMs.None? then w
    else
      match row
      case Refresh(ts, isRest) =>
        var seen := w.(refreshes := w.refreshes + 1, firstRefreshMs := First(w.firstRefreshMs, ts));
        if isRest then seen.(restSnapshots := w.restSnapshots + 1, firstRestMs := First(w.firstRestMs, ts)) else seen
      case AccountState(_) => w.(accountRows := w.accountRows + 1)
      case SourceAction(_) => w.(sourceActions := w.sourceActions + 1)
      case _ => w
  }

  function WithLast(ws: seq<Window>, w: Window): seq<Window>
    requires ws != []
  {
    ws[|ws| - 1 := w]
  }

  function Last(ws: seq<Window>): Window
    requires ws != []
  {
    ws[|ws| - 1]
  }

  predicate StartsImplicitly(st: State, row: Row) {
    row.Reconnected? && (st.windows == [] || ReconnectedForStart(Last(st.windows)))
  }

  /** The window list once an open window is certain for a reconnect. */
  function EnsureOpen(ws: seq<Window>, row: Row): (out: seq<Window>)
    requires row.Reconnected?
    ensures out != []
  {
    if ws == [] || ReconnectedForStart(Last(ws))
    then ws + [Opened(|ws| + 1, row.ts, row.rowId + ":implicit_degraded", row.sourceError)]
    else ws
  }

  function NextWindows(ws: seq<Window>, row: Row): seq<Window> {
    match row
    case Degraded(ts, rowId, sourceError) => ws + [Opened(|ws| + 1, ts, rowId, sourceError)]
    case Reconnected(_, _, _, _) =>
      var open := EnsureOpen(ws, row);
      WithLast(open, MarkedReconnected(Last(open), row))
    case OtherRecovery(_) => ws
    case _ => if ws == [] then ws else WithLast(ws, FollowedUp(Last(ws), row))
  }

  function Next(st: State, row: Row): State {
    var windows := NextWindows(st.windows, row);
    match row
    case Degraded(_, _, _) =>
      State(windows, StreamDegraded, false, true, true, st.degradedEvents + 1, st.reconnectedEvents,
            st.refreshesAfterReconnect)
    case Reconnected(_, _, _, _) =>
      State(windows, RecoveryRequired, false, true, true, st.degradedEvents, st.reconnectedEvents + 1,
            st.refreshesAfterReconnect)
    case OtherRecovery(_) =>
      State(windows, RecoveryReview, false, true, true, st.degradedEvents, st.reconnectedEvents,
            st.refreshesAfterReconnect)
    case Refresh(_, _) =>
      st.(windows := windows,
          refreshesAfterReconnect := st.refreshesAfterReconnect + if st.pendingReconcile then 1 else 0)
    case _ => st.(windows := windows)
  }

  // ---------- What every run keeps ----------

  function ReconnectedCount(ws: seq<Window>): nat {
    if ws == [] then 0
    else ReconnectedCount(ws[..|ws| - 1]) + if Last(ws).reconnectedMs.Some? then 1 else 0
  }

  function RefreshSum(ws: seq<Window>): nat {
    if ws == [] then 0 else RefreshSum(ws[..|ws| - 1]) + Last(ws).refreshes
  }

  /** A reconnect that lands on a window already reconnected at time zero overwrites it. */
  predicate Overwrites(st: State, row: Row) {
    row.Reconnected? && st.windows != [] && Last(st.windows).reconnectedMs == Some(0)
  }

  function Run(rows: seq<Row>): State {
    if rows == [] then START else Next(Run(rows[..|rows| - 1]), rows[|rows| - 1])
  }

  function ImplicitStarts(rows: seq<Row>): nat {
    if rows == [] then 0
    else
      var init, last := rows[..|rows| - 1], rows[|rows| - 1];
      ImplicitStarts(init) + if StartsImplicitly(Run(init), last) then 1 else 0
  }

  function Overwritten(rows: seq<Row>): nat {
    if rows == [] then 0
    else
      var init, last := rows[..|rows| - 1], rows[|rows| - 1];
      Overwritten(init) + if Overwrites(Run(init), last) then 1 else 0
  }

  ghost predicate WindowsOk(st: State, implicit: nat, overwritten: nat) {
    && (forall i :: 0 <= i < |st.windows| ==> st.windows[i].sequence == i + 1)
    && |st.windows| == st.degradedEvents + implicit
    && ReconnectedCount(st.windows) + overwritten == st.reconnectedEvents
    && RefreshSum(st.windows) <= st.refreshesAfterReconnect
    && (st.windows != [] ==> st.pendingReconcile)
    && (forall w <- st.windows :: w.reconnectedMs.None? ==> w.refreshes == 0)
  }

  lemma CountsAfterLast(ws: seq<Window>, w: Window)
    requires ws != []
    ensures ReconnectedCount(WithLast(ws, w)) == ReconnectedCount(ws[..|ws| - 1])
                                                       + if w.reconnectedMs.Some? then 1 else 0
    ensures RefreshSum(WithLast(ws, w)) == RefreshSum(ws[..|ws| - 1]) + w.refreshes
  {
    assert WithLast(ws, w)[..|ws| - 1] == ws[..|ws| - 1];
  }

  lemma CountsAfterAppend(ws: seq<Window>, w: Window)
    ensures ReconnectedCount(ws + [w]) == ReconnectedCount(ws) + if w.reconnectedMs.Some? then 1 else 0
    ensures RefreshSum(ws + [w]) == RefreshSum(ws) + w.refreshes
  {
    assert (ws + [w])[..|ws|] == ws;
  }

  lemma DegradeKeepsWindows(st: State, row: Row, implicit: nat, overwritten: nat)
    requires WindowsOk(st, implicit, overwritten) && row.Degraded?
    ensures WindowsOk(Next(st, row), implicit, overwritten)
  {
    CountsAfterAppend(st.windows, Opened(|st.windows| + 1, row.ts, row.rowId, row.sourceError));
  }

  /** A reconnect of the last window, which has not been reconnected before (or only at time zero). */
  lemma MarkKeepsWindows(st: State, row: Row, implicit: nat, overwritten: nat)
    requires WindowsOk(st, implicit, overwritten) && row.Reconnected? && !StartsImplicitly(st, row)
    ensures WindowsOk(Next(st, row), implicit, overwritten + if Overwrites(st, row) then 1 else 0)
  {
    var ws := st.windows;
    CountsAfterLast(ws, MarkedReconnected(Last(ws), row));
    assert WithLast(ws, Last(ws)) == ws;
    CountsAfterLast(ws, Last(ws));
  }

  /** The state with the window a reconnect starts of itself. */
  function ImplicitlyStarted(st: State, row: Row): State
    requires row.Reconnected?
  {
    st.(windows := EnsureOpen(st.windows, row), pendingReconcile := true)
  }

  lemma ImplicitStartKeepsWindows(st: State, row: Row, implicit: nat, overwritten: nat)
    requires WindowsOk(st, implicit, overwritten) && StartsImplicitly(st, row)
    ensures WindowsOk(ImplicitlyStarted(st, row), implicit + 1, overwritten)
    ensures !StartsImplicitly(ImplicitlyStarted(st, row), row) && !Overwrites(ImplicitlyStarted(st, row), row)
    ensures Next(ImplicitlyStarted(st, row), row) == Next(st, row)
  {
    CountsAfterAppend(st.windows, Last(EnsureOpen(st.windows, row)));
  }

  lemma ReconnectKeepsWindows(st: State, row: Row, implicit: nat, overwritten: nat)
    requires WindowsOk(st, implicit, overwritten) && row.Reconnected?
    ensures WindowsOk(Next(st, row), implicit + (if StartsImplicitly(st, row) then 1 else 0),
                      overwritten + (if Overwrites(st, row) then 1 else 0))
  {
    if StartsImplicitly(st, row) {
      ImplicitStartKeepsWindows(st, row, implicit, overwritten);
      MarkKeepsWindows(ImplicitlyStarted(st, row), row, implicit + 1, overwritten);
    } else {
      MarkKeepsWindows(st, row, implicit, overwritten);
    }
  }

  lemma FollowupKeepsWindows(st: State, row: Row, implicit: nat, overwritten: nat)
    requires WindowsOk(st, implicit, overwritten) && !row.Degraded? && !row.Reconnected? && !row.OtherRecovery?
    ensures WindowsOk(Next(st, row), implicit, overwritten)
  {
    var ws := st.windows;
    if ws != [] {
      CountsAfterLast(ws, FollowedUp(Last(ws), row));
      assert WithLast(ws, Last(ws)) == ws;
      CountsAfterLast(ws, Last(ws));
    }
  }

  lemma StepKeepsWindows(st: State, row: Row, implicit: nat, overwritten: nat)
    requires WindowsOk(st, implicit, overwritten)
    ensures WindowsOk(Next(st, row), implicit + (if StartsImplicitly(st, row) then 1 else 0),
                      overwritten + (if Overwrites(st, row) then 1 else 0))
  {
    match row
    case Degraded(_, _, _) => DegradeKeepsWindows(st, row, implicit, overwritten);
    case Reconnected(_, _, _, _) => ReconnectKeepsWindows(st, row, implicit, overwritten);
    case OtherRecovery(_) =>
    case _ => FollowupKeepsWindows(st, row, implicit, overwritten);
  }

  /**
   In every run: windows are numbered 1 to n, n is degraded events plus implicit starts, reconnected windows plus
   overwritten ones number the reconnects, and the windows' refreshes are among those counted after recovery.
   */
  lemma {:induction false} RunKeepsWindows(rows: seq<Row>)
    ensures WindowsOk(Run(rows), ImplicitStarts(rows), Overwritten(rows))
  {
    if rows != [] {
      var init := rows[..|rows| - 1];
      RunKeepsWindows(init);
      StepKeepsWindows(Run(init), rows[|rows| - 1], ImplicitStarts(init), Overwritten(init));
    }
  }

  /** Reconnected windows number exactly the reconnects if and only if no reconnect overwrote a time-zero one. */
  lemma ReconnectsCountedIff(rows: seq<Row>)
    ensures ReconnectedCount(Run(rows).windows) == Run(rows).reconnectedEvents <==> Overwritten(rows) == 0
  {
    RunKeepsWindows(rows);
  }

  /** Every reconnect time comes from a reconnect row of the run. */
  lemma {:induction false} ReconnectTimesComeFromRows(rows: seq<Row>)
    ensures forall w <- Run(rows).windows :: w.reconnectedMs.Some? ==>
              exists r <- rows :: r.Reconnected? && r.ts == w.reconnectedMs.value
  {
    if rows != [] {
      var init, last := rows[..|rows| - 1], rows[|rows| - 1];
      ReconnectTimesComeFromRows(init);
      assert rows == init + [last];
      forall w | w in Run(rows).windows && w.reconnectedMs.Some?
        ensures exists r <- rows :: r.Reconnected? && r.ts == w.reconnectedMs.value
      {
        var v := Earlier(Run(init), last, w);
        if v.Some? {
          var r :| r in init && r.Reconnected? && r.ts == w.reconnectedMs.value;
          assert r in rows;
        } else {
          assert last in rows;
        }
      }
    }
  }

  /** A window reconnected after a row was reconnected at that time before it, or the row is that reconnect. */
  lemma Earlier(st: State, row: Row, w: Window) returns (v: Option<Window>)
    requires w in Next(st, row).windows && w.reconnectedMs.Some?
    ensures v.Some? ==> v.value in st.windows && v.value.reconnectedMs == w.reconnectedMs
    ensures v.None? ==> row.Reconnected? && row.ts == w.reconnectedMs.value
  {
    var ws := Next(st, row).windows;
    var i :| 0 <= i < |ws| && ws[i] == w;
    if row.Reconnected? && i == |ws| - 1 {
      v := None;
    } else {
      v := Some(st.windows[i]);
    }
  }

  /** With positive reconnect times nothing is overwritten. */
  lemma {:induction false} PositiveTimesOverwriteNothing(rows: seq<Row>)
    requires forall r <- rows :: r.Reconnected? ==> r.ts > 0
    ensures Overwritten(rows) == 0
    ensures ReconnectedCount(Run(rows).windows) == Run(rows).reconnectedEvents
  {
    ReconnectsCountedIff(rows);
    if rows != [] {
      var init := rows[..|rows| - 1];
      PositiveTimesOverwriteNothing(init);
      ReconnectTimesComeFromRows(init);
      var st := Run(init);
      if st.windows != [] {
        assert Last(st.windows) in st.windows;
        assert forall r <- init :: r in rows;
      }
    }
  }

  /** Two reconnects at time zero share one window. */
  lemma ZeroTimeOverwrites()
    ensures exists rows :: ReconnectedCount(Run(rows).windows) != Run(rows).reconnectedEvents
  {
    var r := Reconnected(0, "a", "unknown", None);
    assert [r][..0] == [] && [r, r][..1] == [r];
    assert Overwritten([r]) == 0;
    assert Last(Run([r]).windows).reconnectedMs == Some(0);
    assert Overwritten([r, r]) == 1;
    ReconnectsCountedIff([r, r]);
  }

  // ---------- The same condition on the rows ----------

  predicate ZeroReconnect(r: Row) { r.Reconnected? && r.ts == 0 }

  /** Rows `i` and `j` are reconnects, the first at time zero, with no degraded row in between. */
  ghost predicate RepeatAt(rows: seq<Row>, i: nat, j: nat) {
    && i < j < |rows| && ZeroReconnect(rows[i]) && rows[j].Reconnected?
    && forall k :: i < k < j ==> !rows[k].Degraded?
  }

  /** A reconnect at time zero is followed by another reconnect with no degraded row in between. */
  ghost predicate RepeatsZeroReconnect(rows: seq<Row>) { exists i: nat, j: nat :: RepeatAt(rows, i, j) }

  /** The latest reconnect was at time zero and no degraded row has come since. */
  function EndsAtZero(rows: seq<Row>): bool {
    rows != [] &&
    var last := rows[|rows| - 1];
    if last.Reconnected? then last.ts == 0 else !last.Degraded? && EndsAtZero(rows[..|rows| - 1])
  }

  predicate LastAtZero(ws: seq<Window>) { ws != [] && Last(ws).reconnectedMs == Some(0) }

  lemma RowLeavesAtZero(ws: seq<Window>, row: Row)
    ensures LastAtZero(NextWindows(ws, row))
            <==> if row.Reconnected? then row.ts == 0 else !row.Degraded? && LastAtZero(ws)
  {
  }

  /** That is when the last window reads as reconnected at time zero. */
  lemma {:induction false} EndsAtZeroMeans(rows: seq<Row>)
    ensures EndsAtZero(rows) <==> LastAtZero(Run(rows).windows)
  {
    if rows != [] {
      var init, last := rows[..|rows| - 1], rows[|rows| - 1];
      EndsAtZeroMeans(init);
      RowLeavesAtZero(Run(init).windows, last);
    }
  }

  /** Neither a reconnect nor a degraded row after row `i`. */
  ghost predicate CalmAfter(rows: seq<Row>, i: nat) {
    forall k :: i < k < |rows| ==> !rows[k].Degraded? && !rows[k].Reconnected?
  }

  lemma {:induction false} CalmEndsAtZero(rows: seq<Row>, i: nat)
    requires i < |rows| && ZeroReconnect(rows[i]) && CalmAfter(rows, i)
    ensures EndsAtZero(rows)
  {
    if i < |rows| - 1 {
      CalmEndsAtZero(rows[..|rows| - 1], i);
    }
  }

  lemma {:induction false} LatestZero(rows: seq<Row>) returns (i: nat)
    requires EndsAtZero(rows)
    ensures i < |rows| && ZeroReconnect(rows[i]) && CalmAfter(rows, i)
  {
    if rows[|rows| - 1].Reconnected? {
      i := |rows| - 1;
    } else {
      i := LatestZero(rows[..|rows| - 1]);
    }
  }

  lemma RepeatsExtend(rows: seq<Row>)
    requires rows != [] && RepeatsZeroReconnect(rows[..|rows| - 1])
    ensures RepeatsZeroReconnect(rows)
  {
    var i: nat, j: nat :| RepeatAt(rows[..|rows| - 1], i, j);
    assert RepeatAt(rows, i, j);
  }

  /** In rows without such a repeat so far, a new one must close over a window left at zero. */
  lemma RepeatsAtTheEnd(rows: seq<Row>)
    requires rows != [] && !RepeatsZeroReconnect(rows[..|rows| - 1])
    ensures RepeatsZeroReconnect(rows) <==> rows[|rows| - 1].Reconnected? && EndsAtZero(rows[..|rows| - 1])
  {
    var n := |rows| - 1;
    var init := rows[..n];
    if rows[n].Reconnected? && EndsAtZero(init) {
      var i := LatestZero(init);
      assert RepeatAt(rows, i, n);
    }
    if RepeatsZeroReconnect(rows) {
      var i: nat, j: nat :| RepeatAt(rows, i, j);
      RepeatReachesTheEnd(rows, i, j);
    }
  }

  lemma RepeatReachesTheEnd(rows: seq<Row>, i: nat, j: nat)
    requires RepeatAt(rows, i, j) && !RepeatsZeroReconnect(rows[..|rows| - 1])
    ensures j == |rows| - 1 && EndsAtZero(rows[..|rows| - 1])
  {
    var init := rows[..|rows| - 1];
    assert j < |rows| - 1 ==> RepeatAt(init, i, j);
    forall k: nat | i < k < |init| ensures !init[k].Degraded? && !init[k].Reconnected? {
      assert init[k].Reconnected? ==> RepeatAt(init, i, k);
    }
    CalmEndsAtZero(init, i);
  }

  /**
   Nothing is overwritten exactly when no reconnect at time zero is followed by another without a degraded row
   between.
   */
  lemma {:induction false} OverwrittenIff(rows: seq<Row>)
    ensures Overwritten(rows) == 0 <==> !RepeatsZeroReconnect(rows)
  {
    if rows != [] {
      var init := rows[..|rows| - 1];
      OverwrittenIff(init);
      EndsAtZeroMeans(init);
      if RepeatsZeroReconnect(init) {
        RepeatsExtend(rows);
      } else {
        RepeatsAtTheEnd(rows);
      }
    }
  }

  /** So the rows alone decide whether reconnected windows number exactly the reconnects. */
  lemma ReconnectsCountedByRowsIff(rows: seq<Row>)
    ensures ReconnectedCount(Run(rows).windows) == Run(rows).reconnectedEvents <==> !RepeatsZeroReconnect(rows)
  {
    ReconnectsCountedIff(rows);
    OverwrittenIff(rows);
  }

  /** Only the last window ever changes: a row appends one, or edits the last, and leaves the rest as they were. */
  lemma OnlyTheLastChanges(st: State, row: Row)
    ensures var before, after := st.windows, Next(st, row).windows;
            && |before| <= |after| <= |before| + 1
            && (forall i :: 0 <= i < |before| - 1 ==> after[i] == before[i])
            && (|after| == |before| + 1 && before != [] ==> after[|before| - 1] == before[|before| - 1])
  {
  }

  // ---------- One row in plain terms ----------

  /** A window just opened: nothing is known but the loss. */
  predicate JustOpened(w: Window, sequence: int, ts: int, rowId: string, sourceError: string) {
    && w.sequence == sequence && w.status == PendingReconnect && w.degradedMs == ts && w.degradedRowId == rowId
    && w.sourceError == sourceError && w.reconnectedMs == w.gapMs == None && w.reconnectRowId == ""
    && NoFollowups(w)
  }

  predicate NoFollowups(w: Window) {
    w.refreshes == w.restSnapshots == w.accountRows == w.sourceActions == 0 && w.firstRefreshMs == w.firstRestMs == None
  }

  predicate SameLoss(a: Window, b: Window) {
    b.sequence == a.sequence && b.degradedMs == a.degradedMs && b.degradedRowId == a.degradedRowId
    && b.sourceError == a.sourceError
  }

  predicate SameFollowups(a: Window, b: Window) {
    && b.refreshes == a.refreshes && b.restSnapshots == a.restSnapshots && b.accountRows == a.accountRows
    && b.sourceActions == a.sourceActions && b.firstRefreshMs == a.firstRefreshMs && b.firstRestMs == a.firstRestMs
  }

  /** The window after a reconnect: it records the reconnect and keeps the rest. */
  predicate JustReconnected(a: Window, b: Window, row: Row)
    requires row.Reconnected?
  {
    && SameLoss(a, b) && SameFollowups(a, b)
    && b.status == RequiresBackfill && b.reconnectedMs == Some(row.ts) && b.gapMs == row.gapMs
    && b.reconnectRowId == row.rowId
  }

  predicate FirstSeen(before: Option<int>, after: Option<int>, ts: int, seen: bool) {
    after == if seen && before == None then Some(ts) else before
  }

  /** The window after another row: counted once reconnected, with the first refresh and the first snapshot kept. */
  predicate CountedRow(a: Window, b: Window, row: Row) {
    var counts := a.reconnectedMs != None;
    var refresh := counts && row.Refresh?;
    && SameLoss(a, b) && b.status == a.status && b.reconnectedMs == a.reconnectedMs && b.gapMs == a.gapMs
    && b.reconnectRowId == a.reconnectRowId
    && b.refreshes == a.refreshes + (if refresh then 1 else 0)
    && b.restSnapshots == a.restSnapshots + (if refresh && row.isRest then 1 else 0)
    && b.accountRows == a.accountRows + (if counts && row.AccountState? then 1 else 0)
    && b.sourceActions == a.sourceActions + (if counts && row.SourceAction? then 1 else 0)
    && FirstSeen(a.firstRefreshMs, b.firstRefreshMs, row.ts, refresh)
    && FirstSeen(a.firstRestMs, b.firstRestMs, row.ts, refresh && row.isRest)
  }

  /** The windows after a row. A reconnect uses the last window unless that one reads as reconnected already. */
  predicate WindowsAfter(before: seq<Window>, after: seq<Window>, row: Row) {
    var n := |before|;
    match row
    case Degraded(ts, rowId, sourceError) =>
      |after| == n + 1 && after[..n] == before && JustOpened(after[n], n + 1, ts, rowId, sourceError)
    case Reconnected(ts, rowId, sourceError, _) =>
      var last := if n == 0 then None else before[n - 1].reconnectedMs;
      if n > 0 && (last == None || last == Some(0)) then
        |after| == n && after[..n - 1] == before[..n - 1] && JustReconnected(before[n - 1], after[n - 1], row)
      else
        && |after| == n + 1 && after[..n] == before && after[n].sequence == n + 1 && after[n].degradedMs == ts
        && after[n].degradedRowId == rowId + ":implicit_degraded" && after[n].sourceError == sourceError
        && NoFollowups(after[n]) && JustReconnected(after[n], after[n], row)
    case OtherRecovery(_) => after == before
    case _ =>
      if n == 0 then after == before
      else |after| == n && after[..n - 1] == before[..n - 1] && CountedRow(before[n - 1], after[n - 1], row)
  }

  /** The whole effect of one row. */
  predicate RowEffect(a: State, b: State, row: Row) {
    var recovery := row.Degraded? || row.Reconnected? || row.OtherRecovery?;
    && WindowsAfter(a.windows, b.windows, row)
    && b.stream == (if row.Degraded? then StreamDegraded else if row.Reconnected? then RecoveryRequired
                    else if row.OtherRecovery? then RecoveryReview else a.stream)
    && b.hintsAllowed == (a.hintsAllowed && !recovery)
    && b.pendingBackfill == (a.pendingBackfill || recovery) && b.pendingReconcile == (a.pendingReconcile || recovery)
    && b.degradedEvents == a.degradedEvents + (if row.Degraded? then 1 else 0)
    && b.reconnectedEvents == a.reconnectedEvents + (if row.Reconnected? then 1 else 0)
    && b.refreshesAfterReconnect
       == a.refreshesAfterReconnect + (if row.Refresh? && a.pendingReconcile then 1 else 0)
  }

  lemma NextInWords(st: State, row: Row)
    ensures RowEffect(st, Next(st, row), row)
  {
    WindowsInWords(st.windows, row);
  }

  lemma WindowsInWords(ws: seq<Window>, row: Row)
    ensures WindowsAfter(ws, NextWindows(ws, row), row)
  {
    if ws != [] {
      FollowedUpInWords(Last(ws), row);
    }
  }

  lemma FollowedUpInWords(w: Window, row: Row)
    ensures !row.Degraded? && !row.Reconnected? && !row.OtherRecovery? ==> CountedRow(w, FollowedUp(w, row), row)
  {
  }

  /** Every refresh that comes after a reconnect, with no degraded row since, is counted in a window, and no other. */
  function RefreshesSeen(rows: seq<Row>): nat {
    if rows == [] then 0
    else
      var init, last := rows[..|rows| - 1], rows[|rows| - 1];
      RefreshesSeen(init) + if last.Refresh? && ConnectedAgain(init) then 1 else 0
  }

  /** A reconnect has come, and no degraded row since. */
  predicate ConnectedAgain(rows: seq<Row>) {
    exists i :: 0 <= i < |rows| && rows[i].Reconnected? && forall k :: i < k < |rows| ==> !rows[k].Degraded?
  }

  lemma ConnectedAgainStep(rows: seq<Row>, row: Row)
    ensures ConnectedAgain(rows + [row]) <==> row.Reconnected? || (!row.Degraded? && ConnectedAgain(rows))
  {
    var more := rows + [row];
    if ConnectedAgain(rows) && !row.Degraded? {
      var i :| 0 <= i < |rows| && rows[i].Reconnected? && forall k :: i < k < |rows| ==> !rows[k].Degraded?;
      assert more[i] == rows[i];
    }
    if row.Reconnected? {
      assert more[|rows|].Reconnected?;
    }
    if ConnectedAgain(more) && !row.Reconnected? {
      var i :| 0 <= i < |more| && more[i].Reconnected? && forall k :: i < k < |more| ==> !more[k].Degraded?;
      assert rows[i] == more[i] && !more[|rows|].Degraded?;
      assert forall k :: i < k < |rows| ==> rows[k] == more[k];
    }
  }

  lemma {:induction false} RefreshesCountedExactly(rows: seq<Row>)
    ensures RefreshSum(Run(rows).windows) == RefreshesSeen(rows)
    ensures ConnectedAgain(rows) <==> Run(rows).windows != [] && Last(Run(rows).windows).reconnectedMs.Some?
  {
    if rows != [] {
      var init, row := rows[..|rows| - 1], rows[|rows| - 1];
      assert rows == init + [row];
      RefreshesCountedExactly(init);
      ConnectedAgainStep(init, row);
      RefreshesStep(Run(init).windows, row);
    }
  }

  lemma RefreshesStep(ws: seq<Window>, row: Row)
    ensures var after := NextWindows(ws, row);
            && RefreshSum(after) == RefreshSum(ws)
               + (if row.Refresh? && ws != [] && Last(ws).reconnectedMs.Some? then 1 else 0)
            && (after != [] && Last(after).reconnectedMs.Some?
                <==> row.Reconnected? || (!row.Degraded? && ws != [] && Last(ws).reconnectedMs.Some?))
  {
    match row
    case Degraded(ts, rowId, sourceError) => CountsAfterAppend(ws, Opened(|ws| + 1, ts, rowId, sourceError));
    case Reconnected(_, _, _, _) => ReconnectLeavesRefreshes(ws, row);
    case OtherRecovery(_) =>
    case _ =>
      if ws != [] {
        CountsAfterLast(ws, FollowedUp(Last(ws), row));
        assert WithLast(ws, Last(ws)) == ws;
        CountsAfterLast(ws, Last(ws));
      }
  }

  lemma ReconnectLeavesRefreshes(ws: seq<Window>, row: Row)
    requires row.Reconnected?
    ensures RefreshSum(NextWindows(ws, row)) == RefreshSum(ws)
  {
    var open := EnsureOpen(ws, row);
    if open != ws {
      CountsAfterAppend(ws, Last(open));
    }
    CountsAfterLast(open, MarkedReconnected(Last(open), row));
    assert WithLast(open, Last(open)) == open;
    CountsAfterLast(open, Last(open));
  }

  // ---------- The tracker ----------

  class WindowRecord {
    var now: Window

    constructor (w: Window)
      ensures now == w
    {
      now := w;
    }

    method FollowUp(row: Row)
      modifies this
      ensures now == FollowedUp(old(now), row)
    {
      if now.reconnectedMs.None? {
        return;
      }
      match row {
        case Refresh(ts, isRest) =>
          now := now.(refreshes := now.refreshes + 1);
          if now.firstRefreshMs.None? { now := now.(firstRefreshMs := Some(ts)); }
          if isRest {
            now := now.(restSnapshots := now.restSnapshots + 1);
            if now.firstRestMs.None? { now := now.(firstRestMs := Some(ts)); }
          }
        case AccountState(_) => now := now.(accountRows := now.accountRows + 1);
        case SourceAction(_) => now := now.(sourceActions := now.sourceActions + 1);
        case _ =>
      }
    }
  }

  class Tracker {
    var records: seq<WindowRecord>
    var current: WindowRecord?
    var stream: Stream
    var hintsAllowed: bool
    var pendingBackfill: bool
    var pendingReconcile: bool
    var degradedEvents: nat
    var reconnectedEvents: nat
    var refreshesAfterReconnect: nat

    /** The current window is the last of the list, and the records are distinct objects. */
    ghost predicate Valid()
      reads this, records
    {
      && (forall i, j :: 0 <= i < j < |records| ==> records[i] != records[j])
      && current == (if records == [] then null else records[|records| - 1])
    }

    /** Records are only ever added at the end. */
    ghost predicate Extends(before: seq<WindowRecord>)
      reads this
    {
      before <= records
    }

    ghost function Windows(): seq<Window>
      reads this, records
    {
      seq(|records|, i requires 0 <= i < |records| reads this, records => records[i].now)
    }

    ghost function Now(): State
      reads this, records
    {
      State(Windows(), stream, hintsAllowed, pendingBackfill, pendingReconcile, degradedEvents, reconnectedEvents,
            refreshesAfterReconnect)
    }

    constructor ()
      ensures Valid() && Now() == START && records == []
      ensures stream == Trusted && hintsAllowed && !pendingBackfill && !pendingReconcile
      ensures degradedEvents == reconnectedEvents == refreshesAfterReconnect == 0
    {
      records, current := [], null;
      stream, hintsAllowed, pendingBackfill, pendingReconcile := Trusted, true, false, false;
      degradedEvents, reconnectedEvents, refreshesAfterReconnect := 0, 0, 0;
    }

    method StartWindow(ts: int, rowId: string, sourceError: string)
      requires Valid()
      modifies this`records, this`current
      ensures Valid() && Extends(old(records)) && fresh(records[|old(records)|..])
      ensures Windows() == old(Windows()) + [Opened(|old(records)| + 1, ts, rowId, sourceError)]
    {
      var w := new WindowRecord(Opened(|records| + 1, ts, rowId, sourceError));
      records := records + [w];
      current := w;
    }

    method MarkReconnected(row: Row)
      requires Valid() && row.Reconnected?
      modifies this`records, this`current, records
      ensures Valid() && Extends(old(records)) && fresh(records[|old(records)|..])
      ensures Windows() == NextWindows(old(Windows()), row)
    {
      if current == null || ReconnectedForStart(current.now) {
        StartWindow(row.ts, row.rowId + ":implicit_degraded", row.sourceError);
        assert current in records[|old(records)|..];
      } else {
        assert current in old(records);
      }
      assert Windows() == EnsureOpen(old(Windows()), row);
      current.now := MarkedReconnected(current.now, row);
    }

    method RecordFollowup(row: Row)
      requires Valid() && !row.Degraded? && !row.Reconnected? && !row.OtherRecovery?
      modifies records
      ensures Valid() && Windows() == NextWindows(old(Windows()), row)
    {
      if current != null {
        current.FollowUp(row);
      }
    }

    method ObserveRecovery(row: Row)
      requires Valid() && (row.Degraded? || row.Reconnected? || row.OtherRecovery?)
      modifies this, records
      ensures Valid() && Extends(old(records)) && fresh(records[|old(records)|..])
      ensures Now() == Next(old(Now()), row)
    {
      RecordRecovery(row);
      CountRecovery(row);
    }

    /** Counts the row and stops the hints until a backfill and a reconcile. */
    method CountRecovery(row: Row)
      requires Valid() && (row.Degraded? || row.Reconnected? || row.OtherRecovery?)
      modifies this`stream, this`hintsAllowed, this`pendingBackfill, this`pendingReconcile
      modifies this`degradedEvents, this`reconnectedEvents
      ensures Valid() && Windows() == old(Windows())
      ensures Now() == Next(old(Now()), row).(windows := Windows())
    {
      if row.Degraded? {
        stream, degradedEvents := StreamDegraded, degradedEvents + 1;
      } else if row.Reconnected? {
        stream, reconnectedEvents := RecoveryRequired, reconnectedEvents + 1;
      } else {
        stream := RecoveryReview;
      }
      hintsAllowed, pendingBackfill, pendingReconcile := false, true, true;
    }

    method RecordRecovery(row: Row)
      requires Valid() && (row.Degraded? || row.Reconnected? || row.OtherRecovery?)
      modifies this`records, this`current, records
      ensures Valid() && Extends(old(records)) && fresh(records[|old(records)|..])
      ensures Windows() == NextWindows(old(Windows()), row)
    {
      if row.Degraded? {
        StartWindow(row.ts, row.rowId, row.sourceError);
      } else if row.Reconnected? {
        MarkReconnected(row);
      }
    }

    method Observe(row: Row)
      requires Valid()
      modifies this, records
      ensures Valid() && Extends(old(records)) && fresh(records[|old(records)|..])
      ensures Now() == Next(old(Now()), row)
      ensures RowEffect(old(Now()), Now(), row)
    {
      NextInWords(Now(), row);
      if row.Degraded? || row.Reconnected? || row.OtherRecovery? {
        ObserveRecovery(row);
      } else {
        RecordFollowup(row);
        if row.Refresh? && pendingReconcile {
          refreshesAfterReconnect := refreshesAfterReconnect + 1;
        }
      }
    }
  }
}
