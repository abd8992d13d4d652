/**
 Consuming the merged stream: skipping what a checkpoint already covers, stopping at a limit, writing
 cursors; and why any chain of interrupted runs adds up to the uninterrupted one.
 */
module ReplayEngine {
  import opened Outcomes
  import opened KeyOrder
  import opened ReplayEvents
  import opened Sorting
  import opened StableMerge
  import opened ReplayOrder

  datatype Cursor = Cursor(emittedCount: nat, sortKey: Key, eventId: string)

  /** The cursor after the first `n` emitted rows. */
  function CursorAt(emitted: seq<Row>, n: nat): Cursor
    requires 0 < n <= |emitted|
  {
    Cursor(n, emitted[n - 1].sortKey, emitted[n - 1].event.eventId)
  }

  predicate Covered(resume: Option<Key>, r: Row) {
    resume.Some? && KeyLe(r.sortKey, resume.value)
  }

  /** The rows a checkpoint does not cover yet. */
  function Uncovered(rows: seq<Row>, resume: Option<Key>): seq<Row> {
    if rows == [] then []
    else (if Covered(resume, rows[0]) then [] else [rows[0]]) + Uncovered(rows[1..], resume)
  }

  function Limited(rows: seq<Row>, limit: Option<nat>): seq<Row> {
    if limit.Some? && limit.value < |rows| then rows[..limit.value] else rows
  }

  /** What one run over the merged rows emits. */
  function Emission(rows: seq<Row>, resume: Option<Key>, limit: Option<nat>): seq<Row> {
    Limited(Uncovered(rows, resume), limit)
  }

  lemma {:induction false} UncoveredConcat(a: seq<Row>, b: seq<Row>, resume: Option<Key>)
    ensures Uncovered(a + b, resume) == Uncovered(a, resume) + Uncovered(b, resume)
  {
    if a == [] {
      assert a + b == b;
    } else {
      assert (a + b)[1..] == a[1..] + b;
      UncoveredConcat(a[1..], b, resume);
      var here := if Covered(resume, a[0]) then [] else [a[0]];
      assert here + (Uncovered(a[1..], resume) + Uncovered(b, resume))
             == (here + Uncovered(a[1..], resume)) + Uncovered(b, resume);
    }
  }

  predicate DueAt(hasCheckpoint: bool, every: int, n: nat) {
    hasCheckpoint && every > 0 && n % every == 0
  }

  /** Every write is the cursor of some emitted row, and every row a periodic checkpoint is due at was written. */
  ghost predicate WritesFor(writes: seq<Cursor>, emitted: seq<Row>, hasCheckpoint: bool, every: int) {
    && (forall w <- writes :: 0 < w.emittedCount <= |emitted| && w == CursorAt(emitted, w.emittedCount))
    && (forall n :: 0 < n <= |emitted| && DueAt(hasCheckpoint, every, n) ==> CursorAt(emitted, n) in writes)
    && (!hasCheckpoint ==> writes == [])
  }

  /** The periodic checkpoints of the first `n` emitted rows, in the order they are due. */
  function DueWrites(emitted: seq<Row>, n: nat, hasCheckpoint: bool, every: int): seq<Cursor>
    requires n <= |emitted|
  {
    if n == 0 then []
    else
      DueWrites(emitted, n - 1, hasCheckpoint, every)
      + (if DueAt(hasCheckpoint, every, n) then [CursorAt(emitted, n)] else [])
  }

  /** All checkpoints of a run: the periodic ones, and then the cursor of the last emitted row. */
  function AllWrites(emitted: seq<Row>, hasCheckpoint: bool, every: int): seq<Cursor> {
    DueWrites(emitted, |emitted|, hasCheckpoint, every)
    + (if hasCheckpoint && emitted != [] then [CursorAt(emitted, |emitted|)] else [])
  }

  lemma {:induction false} EarlierWritesStay(emitted: seq<Row>, r: Row, n: nat, hasCheckpoint: bool, every: int)
    requires n <= |emitted|
    ensures DueWrites(emitted + [r], n, hasCheckpoint, every) == DueWrites(emitted, n, hasCheckpoint, every)
  {
    if n > 0 {
      EarlierWritesStay(emitted, r, n - 1, hasCheckpoint, every);
      assert CursorAt(emitted + [r], n) == CursorAt(emitted, n);
    }
  }

  /** They are the cursors of exactly the due rows, each once and in row order. */
  lemma {:induction false} DueWritesMean(emitted: seq<Row>, n: nat, hasCheckpoint: bool, every: int)
    requires n <= |emitted|
    ensures var writes := DueWrites(emitted, n, hasCheckpoint, every);
            && (forall w <- writes :: 0 < w.emittedCount <= n && w == CursorAt(emitted, w.emittedCount)
                                      && DueAt(hasCheckpoint, every, w.emittedCount))
            && (forall i :: 0 < i <= n && DueAt(hasCheckpoint, every, i) ==> CursorAt(emitted, i) in writes)
            && (forall i, j :: 0 <= i < j < |writes| ==> writes[i].emittedCount < writes[j].emittedCount)
            && (!hasCheckpoint ==> writes == [])
  {
    if n > 0 {
      DueWritesMean(emitted, n - 1, hasCheckpoint, every);
    }
  }

  lemma AllWritesMean(emitted: seq<Row>, hasCheckpoint: bool, every: int)
    ensures WritesFor(AllWrites(emitted, hasCheckpoint, every), emitted, hasCheckpoint, every)
  {
    DueWritesMean(emitted, |emitted|, hasCheckpoint, every);
  }

  /** A checkpoint names the row it follows: how many were emitted, its sort key and its event. */
  ghost predicate Follows(w: Cursor, emitted: seq<Row>) {
    && 0 < w.emittedCount <= |emitted|
    && var r := emitted[w.emittedCount - 1]; w.sortKey == r.sortKey && w.eventId == r.event.eventId
  }

  /** In plain numbers: a checkpoint after every `every` rows, in row order, and then one after the last row. */
  lemma CheckpointsWritten(emitted: seq<Row>, hasCheckpoint: bool, every: int)
    ensures var writes := AllWrites(emitted, hasCheckpoint, every);
            && (writes != [] <==> hasCheckpoint && emitted != [])
            && (forall w <- writes :: Follows(w, emitted))
            && (writes != [] ==> writes[|writes| - 1].emittedCount == |emitted|)
            && (forall i :: 0 <= i < |writes| - 1 ==> every > 0 && writes[i].emittedCount % every == 0)
            && (forall n :: hasCheckpoint && every > 0 && 0 < n <= |emitted| && n % every == 0 ==>
                  exists w <- writes :: w.emittedCount == n)
            && (forall i, j :: 0 <= i < j < |writes| - 1 ==> writes[i].emittedCount < writes[j].emittedCount)
  {
    DueWritesMean(emitted, |emitted|, hasCheckpoint, every);
    var due, writes := DueWrites(emitted, |emitted|, hasCheckpoint, every), AllWrites(emitted, hasCheckpoint, every);
    var tail := if hasCheckpoint && emitted != [] then [CursorAt(emitted, |emitted|)] else [];
    assert writes == due + tail;
    if !hasCheckpoint || emitted == [] {
      assert due == [] && writes == [];
    } else {
      forall n | every > 0 && 0 < n <= |emitted| && n % every == 0 ensures exists w <- writes :: w.emittedCount == n {
        assert DueAt(hasCheckpoint, every, n) && CursorAt(emitted, n) in due;
        assert CursorAt(emitted, n) in writes;
      }
      forall i | 0 <= i < |writes| - 1 ensures writes[i] == due[i] && writes[i] in due {
      }
    }
  }

  /** The state of the loop after `i` rows. */
  ghost predicate EmittedSoFar(rows: seq<Row>, i: nat, resume: Option<Key>, limit: Option<nat>, emitted: seq<Row>,
                               skipped: int) {
    && i <= |rows| && emitted == Uncovered(rows[..i], resume)
    && skipped == i - |emitted| && (limit.Some? ==> |emitted| <= limit.value)
  }

  lemma SkipOne(rows: seq<Row>, i: nat, resume: Option<Key>, limit: Option<nat>, emitted: seq<Row>, skipped: int)
    requires i < |rows| && EmittedSoFar(rows, i, resume, limit, emitted, skipped) && Covered(resume, rows[i])
    ensures EmittedSoFar(rows, i + 1, resume, limit, emitted, skipped + 1)
  {
    TakeOneMore(rows, i, resume);
  }

  lemma EmitOne(rows: seq<Row>, i: nat, resume: Option<Key>, limit: Option<nat>, emitted: seq<Row>, skipped: int)
    requires i < |rows| && EmittedSoFar(rows, i, resume, limit, emitted, skipped) && !Covered(resume, rows[i])
    requires limit.Some? ==> |emitted| < limit.value
    ensures EmittedSoFar(rows, i + 1, resume, limit, emitted + [rows[i]], skipped)
  {
    TakeOneMore(rows, i, resume);
  }

  /** At the limit, what is emitted is already the whole emission, and no later row would have been skipped. */
  lemma StopHere(rows: seq<Row>, i: nat, resume: Option<Key>, limit: Option<nat>, emitted: seq<Row>, skipped: int)
    requires Sorted(rows) && i < |rows| && EmittedSoFar(rows, i, resume, limit, emitted, skipped)
    requires !Covered(resume, rows[i]) && limit.Some? && |emitted| >= limit.value
    ensures emitted == Emission(rows, resume, limit)
    ensures skipped == |rows| - |Uncovered(rows, resume)|
  {
    NothingCoveredLater(rows, i, resume);
    LimitedTo(emitted, rows[i..], limit);
  }

  lemma LimitedTo(a: seq<Row>, b: seq<Row>, limit: Option<nat>)
    requires limit == Some(|a|)
    ensures Limited(a + b, limit) == a
  {
  }

  lemma AllTaken(rows: seq<Row>, resume: Option<Key>, limit: Option<nat>, emitted: seq<Row>, skipped: int)
    requires EmittedSoFar(rows, |rows|, resume, limit, emitted, skipped)
    ensures emitted == Emission(rows, resume, limit)
    ensures skipped == |rows| - |Uncovered(rows, resume)|
  {
    assert rows[..|rows|] == rows;
  }

  /** `consume_replay` over the merged rows; `writes` are the checkpoints in the order they hit the disk. */
  method ConsumeReplay(rows: seq<Row>, limit: Option<nat>, resume: Option<Key>, hasCheckpoint: bool, every: int)
    returns (emitted: seq<Row>, skipped: nat, truncated: bool, writes: seq<Cursor>)
    requires Sorted(rows)
    ensures emitted == Emission(rows, resume, limit)
    ensures skipped == |rows| - |Uncovered(rows, resume)|
    ensures truncated <==> limit.Some? && |emitted| == limit.value
    ensures writes == AllWrites(emitted, hasCheckpoint, every)
    ensures WritesFor(writes, emitted, hasCheckpoint, every)
    ensures hasCheckpoint && emitted != [] ==> writes != [] && writes[|writes| - 1] == CursorAt(emitted, |emitted|)
  {
    emitted, skipped, writes := [], 0, [];
    var lastCursor: Option<Cursor> := None;
    var i := 0;
    assert rows[..0] == [];
    while i < |rows|
      invariant 0 <= i <= |rows| && EmittedSoFar(rows, i, resume, limit, emitted, skipped)
      invariant lastCursor == if emitted == [] then None else Some(CursorAt(emitted, |emitted|))
      invariant writes == DueWrites(emitted, |emitted|, hasCheckpoint, every)
    {
      if Covered(resume, rows[i]) {
        SkipOne(rows, i, resume, limit, emitted, skipped);
        skipped := skipped + 1;
      } else {
        if limit.Some? && |emitted| >= limit.value {
          StopHere(rows, i, resume, limit, emitted, skipped);
          break;
        }
        EmitOne(rows, i, resume, limit, emitted, skipped);
        EarlierWritesStay(emitted, rows[i], |emitted|, hasCheckpoint, every);
        emitted := emitted + [rows[i]];
        var cursor := CursorAt(emitted, |emitted|);
        lastCursor := Some(cursor);
        if DueAt(hasCheckpoint, every, |emitted|) {
          writes := writes + [cursor];
        }
      }
      i := i + 1;
    }
    if i == |rows| {
      AllTaken(rows, resume, limit, emitted, skipped);
    }
    if hasCheckpoint && lastCursor.Some? {
      writes := writes + [lastCursor.value];
    }
    AllWritesMean(emitted, hasCheckpoint, every);
    truncated := limit.Some? && |emitted| >= limit.value;
  }

  lemma TakeOneMore(rows: seq<Row>, i: nat, resume: Option<Key>)
    requires i < |rows|
    ensures Uncovered(rows[..i + 1], resume)
            == Uncovered(rows[..i], resume) + if Covered(resume, rows[i]) then [] else [rows[i]]
  {
    assert rows[..i + 1] == rows[..i] + [rows[i]];
    UncoveredConcat(rows[..i], [rows[i]], resume);
    assert Uncovered([], resume) == [];
  }

  /** In sorted rows the covered ones come first, so a run that has started emitting skips no more. */
  lemma NothingCoveredLater(rows: seq<Row>, i: nat, resume: Option<Key>)
    requires Sorted(rows) && i < |rows| && !Covered(resume, rows[i])
    ensures Uncovered(rows[i..], resume) == rows[i..]
    ensures Uncovered(rows, resume) == Uncovered(rows[..i], resume) + rows[i..]
  {
    KeysAreTotallyOrdered();
    forall r | r in rows[i..] ensures !Covered(resume, r) {
      var j :| i <= j < |rows| && rows[j] == r;
      assert j > i ==> KeyLe(rows[i].sortKey, rows[j].sortKey);
    }
    AllUncovered(rows[i..], resume);
    UncoveredConcat(rows[..i], rows[i..], resume);
    SplitAt(rows, i);
  }

  lemma {:induction false} AllUncovered(rows: seq<Row>, resume: Option<Key>)
    requires forall r <- rows :: !Covered(resume, r)
    ensures Uncovered(rows, resume) == rows
  {
    if rows != [] {
      AllUncovered(rows[1..], resume);
    }
  }

  lemma {:induction false} AllCovered(rows: seq<Row>, resume: Option<Key>)
    requires forall r <- rows :: Covered(resume, r)
    ensures Uncovered(rows, resume) == []
  {
    if rows != [] {
      AllCovered(rows[1..], resume);
    }
  }

  // ---------- Resuming ----------

  ghost predicate DistinctKeys(rows: seq<Row>) {
    forall i, j :: 0 <= i < j < |rows| ==> rows[i].sortKey != rows[j].sortKey
  }

  /** Sorted rows up to row `n` are all covered by its key. */
  lemma EarlierIsCovered(rows: seq<Row>, n: nat, r: Row)
    requires Sorted(rows) && 0 < n <= |rows| && r in rows[..n]
    ensures Covered(Some(rows[n - 1].sortKey), r)
  {
    var j :| 0 <= j < n && rows[j] == r;
    KeyIsOrdered(r.sortKey, r.sortKey);
  }

  lemma PrefixIsCovered(rows: seq<Row>, n: nat)
    requires Sorted(rows) && 0 < n <= |rows|
    ensures Uncovered(rows, Some(rows[n - 1].sortKey)) == Uncovered(rows[n..], Some(rows[n - 1].sortKey))
  {
    var resume := Some(rows[n - 1].sortKey);
    forall r | r in rows[..n] ensures Covered(resume, r) {
      EarlierIsCovered(rows, n, r);
    }
    AllCovered(rows[..n], resume);
    UncoveredConcat(rows[..n], rows[n..], resume);
    SplitAt(rows, n);
  }

  lemma SplitAt(rows: seq<Row>, n: nat)
    requires n <= |rows|
    ensures rows[..n] + rows[n..] == rows
  {
  }

  /** A resume after row `n` emits exactly the rows from `n` on, unless row `n` shares its key with row `n - 1`. */
  lemma ResumeEmitsTheRestIff(rows: seq<Row>, n: nat)
    requires Sorted(rows) && 0 < n <= |rows|
    ensures Uncovered(rows, Some(rows[n - 1].sortKey)) == rows[n..]
            <==> (n == |rows| || rows[n].sortKey != rows[n - 1].sortKey)
  {
    var k := rows[n - 1].sortKey;
    PrefixIsCovered(rows, n);
    if n < |rows| {
      KeysAreTotallyOrdered();
      assert KeyLe(k, rows[n].sortKey) && KeyLe(k, k);
      if rows[n].sortKey != k {
        NothingCoveredLater(rows, n, Some(k));
      } else {
        UncoveredNoLonger(rows[n..][1..], Some(k));
      }
    }
  }

  lemma {:induction false} UncoveredNoLonger(rows: seq<Row>, resume: Option<Key>)
    ensures |Uncovered(rows, resume)| <= |rows|
  {
    if rows != [] {
      UncoveredNoLonger(rows[1..], resume);
    }
  }

  /**
   One interrupted run: it may stop at a limit, and the checkpoint that survives it covers its first
   `kept` rows (all of them after a clean stop, fewer when it died after an intermediate checkpoint).
   */
  datatype Session = Session(limit: Option<nat>, kept: nat)

  function KeptOf(rows: seq<Row>, resume: Option<Key>, s: Session): seq<Row> {
    var out := Emission(rows, resume, s.limit);
    if s.kept < |out| then out[..s.kept] else out
  }

  /** The checkpoint after the session: none of its own if nothing was kept. */
  function ResumeAfter(rows: seq<Row>, resume: Option<Key>, s: Session): Option<Key> {
    var kept := KeptOf(rows, resume, s);
    if kept == [] then resume else Some(kept[|kept| - 1].sortKey)
  }

  /** Everything a chain of sessions emitted, followed by one last run without a limit. */
  function ChainOutput(rows: seq<Row>, resume: Option<Key>, sessions: seq<Session>): seq<Row>
    decreases sessions
  {
    if sessions == [] then Emission(rows, resume, None)
    else KeptOf(rows, resume, sessions[0]) + ChainOutput(rows, ResumeAfter(rows, resume, sessions[0]), sessions[1..])
  }

  lemma {:induction false} ChainFrom(rows: seq<Row>, n: nat, resume: Option<Key>, sessions: seq<Session>)
    requires Sorted(rows) && DistinctKeys(rows) && n <= |rows|
    requires Uncovered(rows, resume) == rows[n..]
    ensures ChainOutput(rows, resume, sessions) == rows[n..]
    decreases sessions
  {
    if sessions != [] {
      var s := sessions[0];
      var m := SessionKeeps(rows, n, resume, s);
      ChainFrom(rows, m, ResumeAfter(rows, resume, s), sessions[1..]);
      SplitTail(rows, n, m);
    }
  }

  lemma SplitTail(rows: seq<Row>, n: nat, m: nat)
    requires n <= m <= |rows|
    ensures rows[n..] == rows[n..m] + rows[m..]
  {
  }

  lemma KeptIsPrefix(rows: seq<Row>, resume: Option<Key>, s: Session)
    ensures KeptOf(rows, resume, s) <= Uncovered(rows, resume)
  {
  }

  lemma PrefixOfTail(rows: seq<Row>, n: nat, kept: seq<Row>)
    requires n <= |rows| && kept <= rows[n..]
    ensures n + |kept| <= |rows| && kept == rows[n..n + |kept|]
    ensures kept != [] ==> kept[|kept| - 1] == rows[n + |kept| - 1]
  {
  }

  lemma SessionKeeps(rows: seq<Row>, n: nat, resume: Option<Key>, s: Session) returns (m: nat)
    requires Sorted(rows) && DistinctKeys(rows) && n <= |rows|
    requires Uncovered(rows, resume) == rows[n..]
    ensures n <= m <= |rows| && KeptOf(rows, resume, s) == rows[n..m]
    ensures Uncovered(rows, ResumeAfter(rows, resume, s)) == rows[m..]
  {
    var kept := KeptOf(rows, resume, s);
    m := n + |kept|;
    KeptIsPrefix(rows, resume, s);
    PrefixOfTail(rows, n, kept);
    if kept != [] {
      ResumeEmitsTheRestIff(rows, m);
    }
  }

  /**
   Any number of runs, each stopped at any limit or any checkpoint and resumed from it, emit together
   exactly the uninterrupted sequence, for every chain if and only if no two rows share a sort key.
   */
  lemma ResumeIsLosslessIff(rows: seq<Row>)
    requires Sorted(rows)
    ensures (forall sessions :: ChainOutput(rows, None, sessions) == rows) <==> DistinctKeys(rows)
  {
    AllUncovered(rows, None);
    if DistinctKeys(rows) {
      forall sessions ensures ChainOutput(rows, None, sessions) == rows {
        ChainFrom(rows, 0, None, sessions);
      }
    } else {
      SharedKeyLosesARow(rows);
    }
  }

  lemma OneSessionThenRest(rows: seq<Row>, s: Session)
    ensures ChainOutput(rows, None, [s]) == KeptOf(rows, None, s) + Uncovered(rows, ResumeAfter(rows, None, s))
  {
    assert [s][1..] == [];
  }

  lemma StoppedAfter(rows: seq<Row>, n: nat)
    requires 0 < n <= |rows|
    ensures KeptOf(rows, None, Session(Some(n), n)) == rows[..n]
    ensures ResumeAfter(rows, None, Session(Some(n), n)) == Some(rows[n - 1].sortKey)
  {
    AllUncovered(rows, None);
  }

  lemma NeighboursShareAKey(rows: seq<Row>) returns (n: nat)
    requires Sorted(rows) && !DistinctKeys(rows)
    ensures 0 < n < |rows| && rows[n - 1].sortKey == rows[n].sortKey
  {
    var i, j :| 0 <= i < j < |rows| && rows[i].sortKey == rows[j].sortKey;
    n := i + 1;
    KeysAreTotallyOrdered();
    assert KeyLe(rows[i].sortKey, rows[n].sortKey);
    assert n < j ==> KeyLe(rows[n].sortKey, rows[j].sortKey);
  }

  /** With a shared key there is a chain that loses a row: stop right after its first bearer. */
  lemma SharedKeyLosesARow(rows: seq<Row>)
    requires Sorted(rows) && !DistinctKeys(rows)
    ensures exists sessions :: ChainOutput(rows, None, sessions) != rows
  {
    var n := NeighboursShareAKey(rows);
    var s := Session(Some(n), n);
    ResumeEmitsTheRestIff(rows, n);
    StoppedAfter(rows, n);
    OneSessionThenRest(rows, s);
    var out := ChainOutput(rows, None, [s]);
    assert out[n..] != rows[n..];
  }

  // ---------- The whole replay ----------

  function AsRows(events: seq<ReplayEvent>): seq<Row> {
    seq(|events|, i requires 0 <= i < |events| => Row(events[i].SortKey(), events[i]))
  }

  datatype Summary = Summary(totalNormalized: nat, emitted: seq<Row>, skipped: nat, truncated: bool,
                             writes: seq<Cursor>)

  /** Chunk, sort and merge: the stable sort of the recording, whatever the chunk size. */
  method SortRecording(events: seq<ReplayEvent>, chunkSize: nat) returns (merged: seq<Row>, total: nat)
    requires chunkSize > 0
    ensures merged == StableSort(AsRows(events)) && Sorted(merged)
    ensures total == |merged| == |events|
    ensures multiset(merged) == multiset(AsRows(events)) && InReplayOrder(merged)
  {
    SortedRecordingIsInOrder(events);
    var rows := AsRows(events);
    MergedChunksAreSorted(rows, chunkSize);
    StableIsPermutation(StableSort(rows), rows);
    var chunks;
    chunks, total := WriteSortedChunks(rows, chunkSize);
    merged := MergeChunks(chunks);
  }

  /** Every merged row is an event of the recording, and they stand in replay order. */
  lemma SortedRecordingIsInOrder(events: seq<ReplayEvent>)
    ensures InReplayOrder(StableSort(AsRows(events)))
  {
    var rows, merged := AsRows(events), StableSort(AsRows(events));
    StableSortSorts(rows);
    SortMembers(rows, RowLe);
    forall r | r in merged ensures r.sortKey == r.event.SortKey() {
      assert r in rows;
    }
    SortedIsReplayOrder(merged);
  }

  lemma {:induction false} UncoveredMembers(rows: seq<Row>, resume: Option<Key>)
    ensures forall r :: r in Uncovered(rows, resume) <==> r in rows && !Covered(resume, r)
  {
    if rows != [] {
      UncoveredMembers(rows[1..], resume);
      assert rows == [rows[0]] + rows[1..];
    }
  }

  lemma {:induction false} UncoveredInOrder(rows: seq<Row>, resume: Option<Key>)
    requires InReplayOrder(rows)
    ensures InReplayOrder(Uncovered(rows, resume))
  {
    if rows != [] {
      var rest := Uncovered(rows[1..], resume);
      UncoveredInOrder(rows[1..], resume);
      UncoveredMembers(rows[1..], resume);
      forall r | r in rest ensures !Earlier(r.event, rows[0].event) {
        var i :| 1 <= i < |rows| && rows[i] == r;
      }
    }
  }

  /** What a run emits stands in replay order too. */
  lemma EmissionInOrder(events: seq<ReplayEvent>, resume: Option<Key>, limit: Option<nat>)
    ensures InReplayOrder(Emission(StableSort(AsRows(events)), resume, limit))
  {
    SortedRecordingIsInOrder(events);
    UncoveredInOrder(StableSort(AsRows(events)), resume);
  }

  /** A run resumed from the checkpoint of an event emits only events that come after it, and all of them. */
  lemma ResumeEmitsLaterEvents(events: seq<ReplayEvent>, last: ReplayEvent, r: Row)
    ensures r in Emission(StableSort(AsRows(events)), Some(last.SortKey()), None)
            <==> r in AsRows(events) && Earlier(last, r.event)
  {
    var rows := AsRows(events);
    UncoveredMembers(StableSort(rows), Some(last.SortKey()));
    SortMembers(rows, RowLe);
    KeysAreTotallyOrdered();
    KeysTellTheOrder(last, r.event);
    if r in rows {
      assert r.sortKey == r.event.SortKey();
      assert KeyLe(r.sortKey, last.SortKey()) || KeyLt(last.SortKey(), r.sortKey);
    }
  }

  function AsLimit(limitEvents: Option<int>): Option<nat>
    requires limitEvents.Some? ==> limitEvents.value >= 0
  {
    if limitEvents.Some? then Some(limitEvents.value) else None
  }

  /** `replay_recording` once the events have been read. */
  method ReplayRecording(events: seq<ReplayEvent>, chunkSize: int, limitEvents: Option<int>, resume: Option<Key>,
                         hasCheckpoint: bool, checkpointEvery: int)
    returns (r: Result<Summary, ReplayError>)
    ensures chunkSize <= 0 ==> r == Err(ChunkSizeNotPositive)
    ensures chunkSize > 0 && limitEvents.Some? && limitEvents.value < 0 ==> r == Err(LimitNegative)
    ensures chunkSize > 0 && (limitEvents.Some? ==> limitEvents.value >= 0) ==>
              && r.Ok?
              && r.value.totalNormalized == |events| && InReplayOrder(r.value.emitted)
              && (forall e <- r.value.emitted :: e in AsRows(events))
              && (r.value.truncated <==> limitEvents.Some? && |r.value.emitted| == limitEvents.value)
              && (limitEvents.Some? ==> |r.value.emitted| <= limitEvents.value)
              && (|r.value.emitted| == |events| - r.value.skipped
                  || (limitEvents.Some? && |r.value.emitted| == limitEvents.value))
              && r.value.emitted == Emission(StableSort(AsRows(events)), resume, AsLimit(limitEvents))
              && r.value.skipped == |events| - |Uncovered(StableSort(AsRows(events)), resume)|
              && r.value.writes == AllWrites(r.value.emitted, hasCheckpoint, checkpointEvery)
              && WritesFor(r.value.writes, r.value.emitted, hasCheckpoint, checkpointEvery)
              && (hasCheckpoint && r.value.emitted != [] ==>
                    CursorAt(r.value.emitted, |r.value.emitted|) in r.value.writes)
  {
    if chunkSize <= 0 {
      return Err(ChunkSizeNotPositive);
    }
    if limitEvents.Some? && limitEvents.value < 0 {
      return Err(LimitNegative);
    }
    var merged, total := SortRecording(events, chunkSize);
    EmissionInOrder(events, resume, AsLimit(limitEvents));
    UncoveredMembers(merged, resume);
    SortMembers(AsRows(events), RowLe);
    var emitted, skipped, truncated, writes :=
      ConsumeReplay(merged, AsLimit(limitEvents), resume, hasCheckpoint, checkpointEvery);
    r := Ok(Summary(total, emitted, skipped, truncated, writes));
  }

  lemma {:induction false} SortedRowsKeepKeys(events: seq<ReplayEvent>)
    ensures DistinctKeys(StableSort(AsRows(events))) <==> KeysDistinct(events)
  {
    var rows := AsRows(events);
    var sorted := StableSort(rows);
    StableSortSorts(rows);
    StableIsPermutation(sorted, rows);
    if DistinctKeys(sorted) {
      DistinctIsAboutTheMultiset(sorted, rows);
    } else if DistinctKeys(rows) {
      DistinctIsAboutTheMultiset(rows, sorted);
    }
    if KeysDistinct(events) {
      forall i, j | 0 <= i < j < |rows| ensures rows[i].sortKey != rows[j].sortKey {
        assert events[i].SortKey() != events[j].SortKey();
      }
    }
    if DistinctKeys(rows) {
      forall i, j | 0 <= i < j < |events| ensures events[i].SortKey() != events[j].SortKey() {
        assert rows[i].sortKey != rows[j].sortKey;
      }
    }
  }

  lemma TwoOccurrences(b: seq<Row>, i: nat, j: nat)
    requires i < j < |b| && b[i] == b[j]
    ensures multiset(b)[b[i]] >= 2
  {
    var before, after := b[..j], b[j..];
    assert b == before + after;
    assert before[i] in multiset(before) && after[0] in multiset(after);
  }

  lemma DistinctIsAboutTheMultiset(a: seq<Row>, b: seq<Row>)
    requires multiset(a) == multiset(b) && DistinctKeys(a)
    ensures DistinctKeys(b)
  {
    forall i, j | 0 <= i < j < |b| ensures b[i].sortKey != b[j].sortKey {
      if b[i] == b[j] {
        TwoOccurrences(b, i, j);
        AtMostOnce(a, b[i]);
      } else {
        assert b[i] in multiset(a) && b[j] in multiset(a);
        var x :| 0 <= x < |a| && a[x] == b[i];
        var y :| 0 <= y < |a| && a[y] == b[j];
        assert x != y;
      }
    }
  }

  lemma {:induction false} AtMostOnce(a: seq<Row>, r: Row)
    requires DistinctKeys(a)
    ensures multiset(a)[r] <= 1
  {
    if a != [] {
      AtMostOnce(a[1..], r);
      assert a == [a[0]] + a[1..];
      assert forall i :: 1 <= i < |a| ==> a[0].sortKey != a[i].sortKey;
      assert a[0] !in a[1..];
    }
  }

  /**
   Replaying a recording in any number of interrupted runs emits each event exactly once, in one fixed order,
   for every chain of runs, exactly when no address that contributes events is listed twice.
   */
  lemma RecordingReplaysLosslesslyIff(addresses: seq<string>, files: map<string, Files>, opts: ReadOptions)
    requires forall a <- addresses :: a in files
    requires Recording(addresses, files, opts).Ok?
    ensures var rows := StableSort(AsRows(Recording(addresses, files, opts).value));
            (forall sessions :: ChainOutput(rows, None, sessions) == rows)
                <==> !RepeatsBusyAddress(addresses, files, opts)
  {
    var events := Recording(addresses, files, opts).value;
    RecordingKeysDistinctIff(addresses, files, opts);
    SortedRowsKeepKeys(events);
    StableSortSorts(AsRows(events));
    ResumeIsLosslessIff(StableSort(AsRows(events)));
  }

  // ---------- Which addresses are replayed ----------

  predicate TextLe(a: string, b: string) { CompareText(a, b) <= 0 }

  function FirstOfEach(ts: seq<string>): seq<string> {
    if ts == [] then []
    else
      var init, last := FirstOfEach(ts[..|ts| - 1]), ts[|ts| - 1];
      if last in init then init else init + [last]
  }

  /** An address filter is stripped of repeats; a manifest's valid addresses are only sorted. */
  function DiscoverAddresses(filter: seq<string>, manifest: seq<string>): seq<string> {
    if filter != [] then Sort(FirstOfEach(filter), TextLe) else Sort(manifest, TextLe)
  }

  ghost predicate NoRepeats(ts: seq<string>) { forall i, j :: 0 <= i < j < |ts| ==> ts[i] != ts[j] }

  lemma {:induction false} FirstOfEachNoRepeats(ts: seq<string>)
    ensures NoRepeats(FirstOfEach(ts))
  {
    if ts != [] {
      FirstOfEachNoRepeats(ts[..|ts| - 1]);
    }
  }

  lemma {:induction false} NoRepeatsIff(ts: seq<string>)
    ensures NoRepeats(ts) <==> forall t :: multiset(ts)[t] <= 1
  {
    if ts != [] {
      NoRepeatsIff(ts[1..]);
      assert ts == [ts[0]] + ts[1..];
      if NoRepeats(ts) {
        assert forall i :: 1 <= i < |ts| ==> ts[0] != ts[i];
        assert ts[0] !in ts[1..];
        assert NoRepeats(ts[1..]);
      } else if forall t :: multiset(ts)[t] <= 1 {
        assert forall t :: multiset(ts[1..])[t] <= multiset(ts)[t];
        assert multiset(ts)[ts[0]] == 1 + multiset(ts[1..])[ts[0]];
      }
    }
  }

  lemma {:induction false} FirstOfEachMembers(ts: seq<string>)
    ensures forall t :: t in FirstOfEach(ts) <==> t in ts
  {
    if ts != [] {
      FirstOfEachMembers(ts[..|ts| - 1]);
      assert ts == ts[..|ts| - 1] + [ts[|ts| - 1]];
    }
  }

  /**
   The addresses are in dictionary order: those of the filter, each once, or without a filter those of the manifest,
   as often as it lists them.
   */
  lemma DiscoveredAddresses(filter: seq<string>, manifest: seq<string>)
    ensures var out := DiscoverAddresses(filter, manifest);
            && (forall i, j :: 0 <= i < j < |out| ==> !TextBefore(out[j], out[i]))
            && (filter != [] ==> NoRepeats(out) && forall a :: a in out <==> a in filter)
            && (filter == [] ==> multiset(out) == multiset(manifest))
  {
    var out := DiscoverAddresses(filter, manifest);
    var listed := if filter != [] then FirstOfEach(filter) else manifest;
    TextsAreTotallyOrdered();
    SortOrders(listed, TextLe);
    SortMembers(listed, TextLe);
    forall i, j | 0 <= i < j < |out| ensures !TextBefore(out[j], out[i]) {
      assert TextLe(out[i], out[j]);
      ComparesAsText(out[j], out[i]);
      TextIsOrdered(out[i], out[j]);
    }
    FirstOfEachMembers(filter);
    FirstOfEachNoRepeats(filter);
    NoRepeatsIff(FirstOfEach(filter));
    NoRepeatsIff(out);
  }

  lemma TextsAreTotallyOrdered()
    ensures Transitive(TextLe) && forall a, b :: TextLe(a, b) || TextLe(b, a)
  {
    forall a, b, c | TextLe(a, b) && TextLe(b, c) ensures TextLe(a, c) {
      TextIsTransitive(a, b, c);
    }
    forall a, b ensures TextLe(a, b) || TextLe(b, a) {
      TextIsOrdered(a, b);
    }
  }

  /** With an address filter every chain of interrupted replays is lossless. */
  lemma FilteredReplayIsLossless(filter: seq<string>, manifest: seq<string>, files: map<string, Files>,
                                 opts: ReadOptions, sessions: seq<Session>)
    requires filter != []
    requires forall a <- DiscoverAddresses(filter, manifest) :: a in files
    requires Recording(DiscoverAddresses(filter, manifest), files, opts).Ok?
    ensures var rows := StableSort(AsRows(Recording(DiscoverAddresses(filter, manifest), files, opts).value));
            ChainOutput(rows, None, sessions) == rows
  {
    var addresses := DiscoverAddresses(filter, manifest);
    FirstOfEachNoRepeats(filter);
    SortMembers(FirstOfEach(filter), TextLe);
    NoRepeatsIff(FirstOfEach(filter));
    NoRepeatsIff(addresses);
    RecordingReplaysLosslesslyIff(addresses, files, opts);
  }

  /** Some chain of interrupted replays of the manifest's addresses does not emit every event. */
  ghost predicate CanLoseEvents(manifest: seq<string>, files: map<string, Files>, opts: ReadOptions)
    requires forall a <- DiscoverAddresses([], manifest) :: a in files
  {
    var recording := Recording(DiscoverAddresses([], manifest), files, opts);
    recording.Ok? && var rows := StableSort(AsRows(recording.value));
    exists sessions :: ChainOutput(rows, None, sessions) != rows
  }

  /** A manifest that names one address twice: a run stopped after one event never emits the second copy. */
  lemma RepeatedManifestAddressLosesAnEvent(a: string)
    ensures DiscoverAddresses([], [a, a]) == [a, a]
    ensures CanLoseEvents([a, a], map[a := Files([Some(Control(a, 5, "connected"))], [])],
                          ReadOptions(None, false, true))
  {
    RepeatedAddressIsListedTwice(a);
    var lines := [Some(Control(a, 5, "connected"))];
    var files := map[a := Files(lines, [])];
    var opts := ReadOptions(None, false, true);
    assert EventFile(a, lines, 1, None, true, None) == Ok([]);
    assert EventFile(a, lines, 0, None, true, None).Ok? && EventFile(a, lines, 0, None, true, None) != Ok([]);
    assert Recording([], files, opts) == Ok([]);
    assert [a, a][1..] == [a] && [a][1..] == [];
    assert Recording([a], files, opts).Ok? && Recording([a, a], files, opts).Ok?;
    assert [a, a][0] == [a, a][1] && RepeatsBusyAddress([a, a], files, opts);
    RecordingReplaysLosslesslyIff([a, a], files, opts);
  }

  lemma RepeatedAddressIsListedTwice(a: string)
    ensures DiscoverAddresses([], [a, a]) == [a, a]
  {
    TextIsOrdered(a, a);
    assert [a, a][1..] == [a] && [a][1..] == [];
    assert Sort([a], TextLe) == [a];
    assert Insert(a, [a], TextLe) == [a, a];
  }
}
