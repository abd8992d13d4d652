/**
 Normalisation of recorded streams into replay events: each event file line and each item inside it
 gets the position that makes the event's sort key unique.
 */
module ReplayEvents {
  import opened Outcomes
  import opened KeyOrder

  datatype TimestampSource = Exchange | Observed
  datatype SourceKind = EventKind | SnapshotKind

  datatype ReplayEvent = ReplayEvent(
    address: string,
    channel: string,
    eventType: string,
    subtype: string,
    sortTsMs: int,
    timestampSource: TimestampSource,
    observedMs: int,
    sourceKind: SourceKind,
    lineNo: nat,
    itemIndex: nat,
    eventId: string,
    synthetic: bool,
    gapMs: Option<int>)
  {
    function SortKey(): Key {
      [Num(sortTsMs),
       Num(if timestampSource.Exchange? then 0 else 1),
       Num(observedMs),
       Text(address),
       Num(if sourceKind.EventKind? then 0 else 1),
       Num(lineNo),
       Num(itemIndex),
       Num(if synthetic then 1 else 0),
       Text(eventId)]
    }
  }

  /** One already parsed entry of a message: its labels, its exchange time if it carries one, and its id tags. */
  datatype Item = Item(eventType: string, subtype: string, eventTsMs: Option<int>, tags: seq<string>)

  /** A list entry that is not an object is skipped by the program; here it is `None`. */
  type Entries = seq<Option<Item>>

  datatype Message =
    | Single(item: Item)          // subscriptionResponse and any channel the replay does not know
    | Listed(entries: Entries)    // channels whose entries are numbered by their place in the list
    | UserChannel(fills: Entries, funding: Option<Item>, liquidation: Option<Item>,
                  cancels: Entries, twapHistory: Entries, twapSlices: Entries)
    | NotAnObject                 // a known channel whose data is not an object: nothing is emitted

  datatype Record =
    | Control(address: string, receivedMs: int, event: string)
    | Websocket(address: string, receivedMs: int, channel: string, message: Message)
    | Snapshot(address: string, receivedMs: int)
    | Malformed

  datatype ReplayError =
    | AddressMismatch(lineNo: nat)
    | UnsupportedRecord(lineNo: nat)
    | ChunkSizeNotPositive
    | LimitNegative

  type Events = Result<seq<ReplayEvent>, ReplayError>

  function Digits(n: nat): string
  {
    if n < 10 then ['0' + n as char] else Digits(n / 10) + ['0' + (n % 10) as char]
  }

  function Shown(n: int): string { if n < 0 then "-" + Digits(-n) else Digits(n) }

  function Joined(parts: seq<string>): string
  {
    if parts == [] then "" else if |parts| == 1 then parts[0] else parts[0] + ":" + Joined(parts[1..])
  }

  function MakeEvent(address: string, channel: string, item: Item, observedMs: int, sourceKind: SourceKind,
                     lineNo: nat, itemIndex: nat, synthetic: bool, gapMs: Option<int>): ReplayEvent
  {
    var sortTsMs := if item.eventTsMs.Some? then item.eventTsMs.value else observedMs;
    var kindName := if sourceKind.EventKind? then "event" else "snapshot";
    ReplayEvent(
      address, channel, item.eventType, item.subtype, sortTsMs,
      if item.eventTsMs.Some? then Exchange else Observed,
      observedMs, sourceKind, lineNo, itemIndex,
      Joined([address, kindName, Shown(lineNo), Shown(itemIndex), channel, item.eventType, item.subtype,
              Shown(sortTsMs)] + item.tags),
      synthetic, gapMs)
  }

  // Where an event of the stream was read from.
  datatype Origin = Origin(address: string, channel: string, observedMs: int, lineNo: nat)

  function Observe(o: Origin, item: Item, itemIndex: nat): ReplayEvent {
    MakeEvent(o.address, o.channel, item, o.observedMs, EventKind, o.lineNo, itemIndex, false, None)
  }

  /** Entries numbered by their place in the list, from place `i` on. */
  function ListedEvents(o: Origin, entries: Entries, i: nat): seq<ReplayEvent>
    requires i <= |entries|
    decreases |entries| - i
  {
    if i == |entries| then []
    else (if entries[i].Some? then [Observe(o, entries[i].value, i)] else []) + ListedEvents(o, entries, i + 1)
  }

  /** Entries numbered by how many were emitted before them, starting at `next`. */
  function CountedEvents(o: Origin, entries: Entries, next: nat): seq<ReplayEvent>
  {
    if entries == [] then []
    else if entries[0].None? then CountedEvents(o, entries[1..], next)
    else [Observe(o, entries[0].value, next)] + CountedEvents(o, entries[1..], next + 1)
  }

  function UserEntries(m: Message): Entries
    requires m.UserChannel?
  {
    m.fills + [m.funding] + [m.liquidation] + m.cancels + m.twapHistory + m.twapSlices
  }

  function MessageEvents(o: Origin, m: Message): seq<ReplayEvent>
  {
    match m
    case Single(item) => [Observe(o, item, 0)]
    case Listed(entries) => ListedEvents(o, entries, 0)
    case UserChannel(_, _, _, _, _, _) => CountedEvents(o, UserEntries(m), 0)
    case NotAnObject => []
  }

  lemma {:induction false} CountedConcat(o: Origin, a: Entries, b: Entries, next: nat)
    ensures CountedEvents(o, a + b, next)
            == CountedEvents(o, a, next) + CountedEvents(o, b, next + |CountedEvents(o, a, next)|)
  {
    if a == [] {
      assert a + b == b;
    } else {
      assert (a + b)[1..] == a[1..] + b;
      CountedConcat(o, a[1..], b, if a[0].None? then next else next + 1);
    }
  }

  /** Emits one group of a `user` message after the groups `before`, keeping the message-wide item counter. */
  method EmitGroup(o: Origin, ghost before: Entries, group: Entries, sofar: seq<ReplayEvent>, next: nat)
    returns (out: seq<ReplayEvent>, after: nat)
    requires sofar == CountedEvents(o, before, 0) && next == |sofar|
    ensures out == CountedEvents(o, before + group, 0) && after == |out|
  {
    out, after := sofar, next;
    var i := 0;
    while i < |group|
      invariant 0 <= i <= |group|
      invariant out + CountedEvents(o, group[i..], after) == sofar + CountedEvents(o, group, next)
      invariant after == |out|
    {
      assert group[i..][1..] == group[i + 1..];
      if group[i].Some? {
        out := out + [Observe(o, group[i].value, after)];
        after := after + 1;
      }
      i := i + 1;
    }
    CountedConcat(o, before, group, 0);
  }

  method UserChannelEvents(o: Origin, m: Message) returns (out: seq<ReplayEvent>)
    requires m.UserChannel?
    ensures out == MessageEvents(o, m)
  {
    ghost var done: Entries := [];
    var next: nat;
    out, next := EmitGroup(o, done, m.fills, [], 0);
    done := done + m.fills;
    out, next := EmitGroup(o, done, [m.funding], out, next);
    done := done + [m.funding];
    out, next := EmitGroup(o, done, [m.liquidation], out, next);
    done := done + [m.liquidation];
    out, next := EmitGroup(o, done, m.cancels, out, next);
    done := done + m.cancels;
    out, next := EmitGroup(o, done, m.twapHistory, out, next);
    done := done + m.twapHistory;
    out, next := EmitGroup(o, done, m.twapSlices, out, next);
    assert done + m.twapSlices == UserEntries(m);
  }

  function ControlItem(event: string): Item { Item("control", event, None, []) }

  const DEGRADED := Item("recovery", "stream_degraded", None, [])
  const RECOVERED := Item("recovery", "reconnect_recovered", None, [])

  function Gap(disconnectedMs: int, receivedMs: int): int {
    var since := if disconnectedMs != 0 then disconnectedMs else receivedMs;
    Max(0, receivedMs - since)
  }

  function Synthetic(o: Origin, item: Item, gapMs: Option<int>): ReplayEvent {
    MakeEvent(o.address, "replay", item, o.observedMs, EventKind, o.lineNo, 1, true, gapMs)
  }

  /** The events of one record, given when the stream was last lost. */
  function RecordEvents(address: string, r: Record, lineNo: nat, injectGaps: bool, lost: Option<int>): seq<ReplayEvent>
    requires r.Control? || r.Websocket?
  {
    match r
    case Control(_, receivedMs, event) =>
      var o := Origin(address, "control", receivedMs, lineNo);
      [Observe(o, ControlItem(event), 0)] +
      (if injectGaps && event == "websocket_error" then [Synthetic(o, DEGRADED, None)]
       else if injectGaps && event == "connected" && lost.Some? then
         [Synthetic(o, RECOVERED, Some(Gap(lost.value, receivedMs)))]
       else [])
    case Websocket(_, receivedMs, channel, message) =>
      MessageEvents(Origin(address, channel, receivedMs, lineNo), message)
  }

  function LostAfter(r: Record, injectGaps: bool, lost: Option<int>): Option<int> {
    if !injectGaps || !r.Control? then lost
    else if r.event == "websocket_error" then Some(r.receivedMs)
    else if r.event == "connected" then None
    else lost
  }

  function RecordError(address: string, r: Record, lineNo: nat, eventFile: bool): Option<ReplayError> {
    if r.Malformed? then Some(UnsupportedRecord(lineNo))
    else if r.address != address then Some(AddressMismatch(lineNo))
    else if eventFile == r.Snapshot? then Some(UnsupportedRecord(lineNo))
    else None
  }

  function Before(first: seq<ReplayEvent>, rest: Events): Events {
    if rest.Ok? then Ok(first + rest.value) else rest
  }

  lemma BeforeIsAssociative(a: seq<ReplayEvent>, b: seq<ReplayEvent>, rest: Events)
    ensures Before([], rest) == rest
    ensures Before(a, Before(b, rest)) == Before(a + b, rest)
    ensures Before(a, Ok([])) == Ok(a)
  {
    if rest.Ok? {
      assert [] + rest.value == rest.value && a + (b + rest.value) == (a + b) + rest.value;
    }
    assert a + [] == a;
  }

  /** A blank line is `None`; line numbers count from one and stop after `maxRecords`. */
  function EventFile(address: string, lines: seq<Option<Record>>, i: nat, maxRecords: Option<int>,
                     injectGaps: bool, lost: Option<int>): Events
    requires i <= |lines|
    decreases |lines| - i
  {
    if i == |lines| || (maxRecords.Some? && i + 1 > maxRecords.value) then Ok([])
    else if lines[i].None? then EventFile(address, lines, i + 1, maxRecords, injectGaps, lost)
    else
      var r := lines[i].value;
      var failed := RecordError(address, r, i + 1, true);
      if failed.Some? then Err(failed.value)
      else Before(RecordEvents(address, r, i + 1, injectGaps, lost),
                  EventFile(address, lines, i + 1, maxRecords, injectGaps, LostAfter(r, injectGaps, lost)))
  }

  method IterEventFile(address: string, lines: seq<Option<Record>>, maxRecords: Option<int>, injectGaps: bool)
    returns (r: Events)
    ensures r == EventFile(address, lines, 0, maxRecords, injectGaps, None)
  {
    var out: seq<ReplayEvent> := [];
    var pendingDisconnect: Option<int> := None;
    var i := 0;
    BeforeIsAssociative([], [], EventFile(address, lines, 0, maxRecords, injectGaps, None));
    while i < |lines|
      invariant 0 <= i <= |lines|
      invariant EventFile(address, lines, 0, maxRecords, injectGaps, None)
                == Before(out, EventFile(address, lines, i, maxRecords, injectGaps, pendingDisconnect))
    {
      var lineNo := i + 1;
      if maxRecords.Some? && lineNo > maxRecords.value {
        BeforeIsAssociative(out, [], Ok([]));
        return Ok(out);
      }
      if lines[i].Some? {
        var record := lines[i].value;
        var failed := RecordError(address, record, lineNo, true);
        if failed.Some? {
          return Err(failed.value);
        }
        ghost var lost := pendingDisconnect;
        var events: seq<ReplayEvent> := [];
        match record {
          case Control(_, receivedMs, event) =>
            var o := Origin(address, "control", receivedMs, lineNo);
            events := [Observe(o, ControlItem(event), 0)];
            if injectGaps && event == "websocket_error" {
              pendingDisconnect := Some(receivedMs);
              events := events + [Synthetic(o, DEGRADED, None)];
            } else if injectGaps && event == "connected" && pendingDisconnect.Some? {
              events := events + [Synthetic(o, RECOVERED, Some(Gap(pendingDisconnect.value, receivedMs)))];
              pendingDisconnect := None;
            }
          case Websocket(_, receivedMs, channel, message) =>
            var o := Origin(address, channel, receivedMs, lineNo);
            if message.UserChannel? {
              events := UserChannelEvents(o, message);
            } else {
              events := MessageEvents(o, message);
            }
        }
        assert events == RecordEvents(address, record, lineNo, injectGaps, lost);
        assert pendingDisconnect == LostAfter(record, injectGaps, lost);
        BeforeIsAssociative(out, events, EventFile(address, lines, i + 1, maxRecords, injectGaps, pendingDisconnect));
        out := out + events;
      }
      i := i + 1;
    }
    BeforeIsAssociative(out, [], Ok([]));
    r := Ok(out);
  }

  function SnapshotFile(address: string, lines: seq<Option<Record>>, i: nat, maxRecords: Option<int>): Events
    requires i <= |lines|
    decreases |lines| - i
  {
    if i == |lines| || (maxRecords.Some? && i + 1 > maxRecords.value) then Ok([])
    else if lines[i].None? then SnapshotFile(address, lines, i + 1, maxRecords)
    else
      var failed := RecordError(address, lines[i].value, i + 1, false);
      if failed.Some? then Err(failed.value)
      else Before([MakeEvent(address, "rest_snapshot", Item("snapshot", "rest_snapshot", None, []),
                             lines[i].value.receivedMs, SnapshotKind, i + 1, 0, false, None)],
                  SnapshotFile(address, lines, i + 1, maxRecords))
  }

  method IterSnapshotFile(address: string, lines: seq<Option<Record>>, maxRecords: Option<int>) returns (r: Events)
    ensures r == SnapshotFile(address, lines, 0, maxRecords)
  {
    var out: seq<ReplayEvent> := [];
    var i := 0;
    BeforeIsAssociative([], [], SnapshotFile(address, lines, 0, maxRecords));
    while i < |lines| && (maxRecords.Some? ==> i + 1 <= maxRecords.value)
      invariant 0 <= i <= |lines|
      invariant SnapshotFile(address, lines, 0, maxRecords) == Before(out, SnapshotFile(address, lines, i, maxRecords))
    {
      if lines[i].Some? {
        var failed := RecordError(address, lines[i].value, i + 1, false);
        if failed.Some? {
          return Err(failed.value);
        }
        var event := MakeEvent(address, "rest_snapshot", Item("snapshot", "rest_snapshot", None, []),
                               lines[i].value.receivedMs, SnapshotKind, i + 1, 0, false, None);
        BeforeIsAssociative(out, [event], SnapshotFile(address, lines, i + 1, maxRecords));
        out := out + [event];
      }
      i := i + 1;
    }
    BeforeIsAssociative(out, [], Ok([]));
    r := Ok(out);
  }

  datatype Files = Files(events: seq<Option<Record>>, snapshots: seq<Option<Record>>)
  datatype ReadOptions = ReadOptions(maxRecords: Option<int>, includeSnapshots: bool, injectGaps: bool)

  function AddressEvents(address: string, files: Files, opts: ReadOptions): Events {
    var events := EventFile(address, files.events, 0, opts.maxRecords, opts.injectGaps, None);
    if events.Err? then events
    else Before(events.value,
                if opts.includeSnapshots then SnapshotFile(address, files.snapshots, 0, opts.maxRecords) else Ok([]))
  }

  /** Every event of the recording, in the order it is read. */
  function Recording(addresses: seq<string>, files: map<string, Files>, opts: ReadOptions): Events
    requires forall a <- addresses :: a in files
  {
    if addresses == [] then Ok([])
    else
      var first := AddressEvents(addresses[0], files[addresses[0]], opts);
      if first.Err? then first else Before(first.value, Recording(addresses[1..], files, opts))
  }

  // ---------- Sort keys are unique ----------

  ghost predicate KeysDistinct(es: seq<ReplayEvent>) {
    forall i, j :: 0 <= i < j < |es| ==> es[i].SortKey() != es[j].SortKey()
  }

  /** `a` comes from an earlier line than `b`, or from an earlier item of the same line. */
  predicate PlaceLt(a: ReplayEvent, b: ReplayEvent) {
    a.lineNo < b.lineNo || (a.lineNo == b.lineNo && a.itemIndex < b.itemIndex)
  }

  /** Events read in order from one file, none before line `from`. */
  ghost predicate InFileOrder(es: seq<ReplayEvent>, address: string, kind: SourceKind, from: nat) {
    && (forall e <- es :: e.address == address && e.sourceKind == kind && from <= e.lineNo)
    && (forall i, j :: 0 <= i < j < |es| ==> PlaceLt(es[i], es[j]))
  }

  ghost predicate InLineOrder(es: seq<ReplayEvent>, o: Origin, fromItem: nat) {
    && (forall e <- es ::
          e.address == o.address && e.sourceKind == EventKind && e.lineNo == o.lineNo && fromItem <= e.itemIndex)
    && (forall i, j :: 0 <= i < j < |es| ==> es[i].itemIndex < es[j].itemIndex)
  }

  lemma {:induction false} ListedInOrder(o: Origin, entries: Entries, i: nat)
    requires i <= |entries|
    ensures InLineOrder(ListedEvents(o, entries, i), o, i)
    decreases |entries| - i
  {
    if i < |entries| {
      ListedInOrder(o, entries, i + 1);
    }
  }

  lemma {:induction false} CountedInOrder(o: Origin, entries: Entries, next: nat)
    ensures InLineOrder(CountedEvents(o, entries, next), o, next)
    ensures forall i :: 0 <= i < |CountedEvents(o, entries, next)| ==>
              CountedEvents(o, entries, next)[i].itemIndex == next + i
  {
    if entries != [] {
      CountedInOrder(o, entries[1..], if entries[0].None? then next else next + 1);
    }
  }

  lemma RecordInOrder(address: string, r: Record, lineNo: nat, injectGaps: bool, lost: Option<int>)
    requires r.Control? || r.Websocket?
    ensures InLineOrder(RecordEvents(address, r, lineNo, injectGaps, lost), Origin(address, "", 0, lineNo), 0)
  {
    if r.Websocket? {
      var o := Origin(address, r.channel, r.receivedMs, lineNo);
      match r.message
      case Listed(entries) => ListedInOrder(o, entries, 0);
      case UserChannel(_, _, _, _, _, _) => CountedInOrder(o, UserEntries(r.message), 0);
      case _ =>
    }
  }

  lemma {:induction false} EventFileInOrder(address: string, lines: seq<Option<Record>>, i: nat,
                                            maxRecords: Option<int>, injectGaps: bool, lost: Option<int>)
    requires i <= |lines|
    requires EventFile(address, lines, i, maxRecords, injectGaps, lost).Ok?
    ensures InFileOrder(EventFile(address, lines, i, maxRecords, injectGaps, lost).value, address, EventKind, i + 1)
    decreases |lines| - i
  {
    if i == |lines| || (maxRecords.Some? && i + 1 > maxRecords.value) {
    } else if lines[i].None? {
      EventFileInOrder(address, lines, i + 1, maxRecords, injectGaps, lost);
    } else {
      var r := lines[i].value;
      RecordInOrder(address, r, i + 1, injectGaps, lost);
      EventFileInOrder(address, lines, i + 1, maxRecords, injectGaps, LostAfter(r, injectGaps, lost));
    }
  }

  lemma {:induction false} SnapshotFileInOrder(address: string, lines: seq<Option<Record>>, i: nat,
                                               maxRecords: Option<int>)
    requires i <= |lines|
    requires SnapshotFile(address, lines, i, maxRecords).Ok?
    ensures InFileOrder(SnapshotFile(address, lines, i, maxRecords).value, address, SnapshotKind, i + 1)
    decreases |lines| - i
  {
    if i == |lines| || (maxRecords.Some? && i + 1 > maxRecords.value) {
    } else {
      SnapshotFileInOrder(address, lines, i + 1, maxRecords);
    }
  }

  // ---------- Which events a line gives ----------

  /** Looking back from line `n`: the time of the latest stream error not yet followed by a reconnect. */
  function OpenError(lines: seq<Option<Record>>, n: nat): Option<int>
    requires n <= |lines|
  {
    if n == 0 then None
    else if lines[n - 1].Some? && lines[n - 1].value.Control? && lines[n - 1].value.event == "websocket_error" then
      Some(lines[n - 1].value.receivedMs)
    else if lines[n - 1].Some? && lines[n - 1].value.Control? && lines[n - 1].value.event == "connected" then None
    else OpenError(lines, n - 1)
  }

  function AtLine(es: seq<ReplayEvent>, lineNo: nat): seq<ReplayEvent> {
    if es == [] then [] else (if es[0].lineNo == lineNo then [es[0]] else []) + AtLine(es[1..], lineNo)
  }

  lemma {:induction false} AtLineConcat(a: seq<ReplayEvent>, b: seq<ReplayEvent>, lineNo: nat)
    ensures AtLine(a + b, lineNo) == AtLine(a, lineNo) + AtLine(b, lineNo)
  {
    if a == [] {
      assert a + b == b;
    } else {
      assert (a + b)[1..] == a[1..] + b;
      AtLineConcat(a[1..], b, lineNo);
      var here := if a[0].lineNo == lineNo then [a[0]] else [];
      assert here + (AtLine(a[1..], lineNo) + AtLine(b, lineNo)) == (here + AtLine(a[1..], lineNo)) + AtLine(b, lineNo);
    }
  }

  lemma {:induction false} AllAtLine(es: seq<ReplayEvent>, at: nat, lineNo: nat)
    requires forall e <- es :: e.lineNo == at
    ensures AtLine(es, lineNo) == if at == lineNo then es else []
  {
    if es != [] {
      AllAtLine(es[1..], at, lineNo);
    }
  }

  lemma {:induction false} NoneAtLine(es: seq<ReplayEvent>, lineNo: nat)
    requires forall e <- es :: e.lineNo != lineNo
    ensures AtLine(es, lineNo) == []
  {
    if es != [] {
      NoneAtLine(es[1..], lineNo);
    }
  }

  /**
   In a readable file, line `n + 1` gives exactly the events of its own record, where a reconnect is reported as
   recovered precisely when the latest error looking back from it is still open, with the gap since that error.
   */
  lemma {:induction false} LineGivesItsEvents(address: string, lines: seq<Option<Record>>, i: nat, n: nat,
                                              maxRecords: Option<int>, injectGaps: bool, lost: Option<int>)
    requires i <= n < |lines| && lines[n].Some?
    requires maxRecords.Some? ==> n + 1 <= maxRecords.value
    requires lost == (if injectGaps then OpenError(lines, i) else None)
    requires EventFile(address, lines, i, maxRecords, injectGaps, lost).Ok?
    ensures lines[n].value.Control? || lines[n].value.Websocket?
    ensures AtLine(EventFile(address, lines, i, maxRecords, injectGaps, lost).value, n + 1)
            == RecordEvents(address, lines[n].value, n + 1, injectGaps,
                            if injectGaps then OpenError(lines, n) else None)
    decreases n - i
  {
    if lines[i].None? {
      LineGivesItsEvents(address, lines, i + 1, n, maxRecords, injectGaps, lost);
    } else {
      LineThenRest(address, lines, i, n, maxRecords, injectGaps, lost);
      var next := LostAfter(lines[i].value, injectGaps, lost);
      if i < n {
        LineGivesItsEvents(address, lines, i + 1, n, maxRecords, injectGaps, next);
      } else {
        EventFileInOrder(address, lines, i + 1, maxRecords, injectGaps, next);
        NoneAtLine(EventFile(address, lines, i + 1, maxRecords, injectGaps, next).value, n + 1);
      }
    }
  }

  /** The events of line `i + 1` come first; the rest of the file is read with the error state it leaves. */
  lemma LineThenRest(address: string, lines: seq<Option<Record>>, i: nat, n: nat,
                     maxRecords: Option<int>, injectGaps: bool, lost: Option<int>)
    requires i <= n < |lines| && lines[i].Some? && (maxRecords.Some? ==> n + 1 <= maxRecords.value)
    requires EventFile(address, lines, i, maxRecords, injectGaps, lost).Ok?
    ensures lines[i].value.Control? || lines[i].value.Websocket?
    ensures var rest := EventFile(address, lines, i + 1, maxRecords, injectGaps,
                                  LostAfter(lines[i].value, injectGaps, lost));
            && rest.Ok?
            && AtLine(EventFile(address, lines, i, maxRecords, injectGaps, lost).value, n + 1)
               == (if i == n then RecordEvents(address, lines[i].value, i + 1, injectGaps, lost) else [])
                  + AtLine(rest.value, n + 1)
  {
    var r := lines[i].value;
    var here := RecordEvents(address, r, i + 1, injectGaps, lost);
    var rest := EventFile(address, lines, i + 1, maxRecords, injectGaps, LostAfter(r, injectGaps, lost)).value;
    RecordInOrder(address, r, i + 1, injectGaps, lost);
    AllAtLine(here, i + 1, n + 1);
    AtLineConcat(here, rest, n + 1);
  }

  lemma KeyNamesPlace(a: ReplayEvent, b: ReplayEvent)
    requires a.SortKey() == b.SortKey()
    ensures a.address == b.address && a.sourceKind == b.sourceKind && a.lineNo == b.lineNo && a.itemIndex == b.itemIndex
  {
    var k, l := a.SortKey(), b.SortKey();
    assert k[3] == l[3] && k[4] == l[4] && k[5] == l[5] && k[6] == l[6];
  }

  lemma AddressKeysDistinct(address: string, files: Files, opts: ReadOptions)
    requires AddressEvents(address, files, opts).Ok?
    ensures KeysDistinct(AddressEvents(address, files, opts).value)
    ensures forall e <- AddressEvents(address, files, opts).value :: e.address == address
  {
    EventFileInOrder(address, files.events, 0, opts.maxRecords, opts.injectGaps, None);
    if opts.includeSnapshots {
      SnapshotFileInOrder(address, files.snapshots, 0, opts.maxRecords);
    }
    var es := AddressEvents(address, files, opts).value;
    forall i, j | 0 <= i < j < |es|
      ensures es[i].SortKey() != es[j].SortKey()
    {
      if es[i].SortKey() == es[j].SortKey() {
        KeyNamesPlace(es[i], es[j]);
      }
    }
  }

  /** Some address that contributes events is listed twice. */
  ghost predicate RepeatsBusyAddress(addresses: seq<string>, files: map<string, Files>, opts: ReadOptions)
    requires forall a <- addresses :: a in files
  {
    exists i, j :: 0 <= i < j < |addresses| && addresses[i] == addresses[j]
                   && AddressEvents(addresses[i], files[addresses[i]], opts) != Ok([])
  }

  lemma {:induction false} EventsOfRecording(addresses: seq<string>, files: map<string, Files>, opts: ReadOptions,
                                             e: ReplayEvent)
    requires forall a <- addresses :: a in files
    requires Recording(addresses, files, opts).Ok?
    ensures e in Recording(addresses, files, opts).value <==>
            exists i :: 0 <= i < |addresses| && AddressEvents(addresses[i], files[addresses[i]], opts).Ok?
                        && e in AddressEvents(addresses[i], files[addresses[i]], opts).value
    ensures forall i :: 0 <= i < |addresses| ==> AddressEvents(addresses[i], files[addresses[i]], opts).Ok?
  {
    if addresses != [] {
      EventsOfRecording(addresses[1..], files, opts, e);
      var rest := addresses[1..];
      forall i | 0 <= i < |addresses|
        ensures AddressEvents(addresses[i], files[addresses[i]], opts).Ok?
        ensures e in AddressEvents(addresses[i], files[addresses[i]], opts).value
                ==> e in Recording(addresses, files, opts).value
      {
        if i > 0 { assert addresses[i] == rest[i - 1]; }
      }
    }
  }

  ghost predicate NoSharedKey(a: seq<ReplayEvent>, b: seq<ReplayEvent>) {
    forall x, y :: x in a && y in b ==> x.SortKey() != y.SortKey()
  }

  lemma ConcatKeysDistinct(a: seq<ReplayEvent>, b: seq<ReplayEvent>)
    ensures KeysDistinct(a + b) <==> KeysDistinct(a) && KeysDistinct(b) && NoSharedKey(a, b)
  {
    var all := a + b;
    if KeysDistinct(all) {
      assert forall i :: 0 <= i < |a| ==> all[i] == a[i];
      assert forall i :: 0 <= i < |b| ==> all[|a| + i] == b[i];
      forall i, j | 0 <= i < j < |b|
        ensures b[i].SortKey() != b[j].SortKey()
      {
        assert all[|a| + i] == b[i] && all[|a| + j] == b[j];
      }
    } else {
      var i, j :| 0 <= i < j < |all| && all[i].SortKey() == all[j].SortKey();
      if i < |a| <= j {
        assert all[i] in a && all[j] in b;
      }
    }
  }

  /** Sort keys of a recording are pairwise distinct exactly when no address with events is listed twice. */
  lemma {:induction false} RecordingKeysDistinctIff(addresses: seq<string>, files: map<string, Files>,
                                                    opts: ReadOptions)
    requires forall a <- addresses :: a in files
    requires Recording(addresses, files, opts).Ok?
    ensures KeysDistinct(Recording(addresses, files, opts).value) <==> !RepeatsBusyAddress(addresses, files, opts)
  {
    if addresses != [] {
      var head, rest := addresses[0], addresses[1..];
      var first := AddressEvents(head, files[head], opts).value;
      var tail := Recording(rest, files, opts).value;
      RecordingKeysDistinctIff(rest, files, opts);
      AddressKeysDistinct(head, files[head], opts);
      ConcatKeysDistinct(first, tail);
      if RepeatsBusyAddress(rest, files, opts) {
        TailRepeats(addresses, files, opts);
      } else if head in rest && first != [] {
        HeadRepeats(addresses, files, opts);
      } else {
        HeadStandsAlone(addresses, files, opts);
      }
    }
  }

  lemma HeadRepeats(addresses: seq<string>, files: map<string, Files>, opts: ReadOptions)
    requires forall a <- addresses :: a in files
    requires addresses != [] && Recording(addresses, files, opts).Ok?
    requires addresses[0] in addresses[1..] && AddressEvents(addresses[0], files[addresses[0]], opts) != Ok([])
    ensures RepeatsBusyAddress(addresses, files, opts)
    ensures !NoSharedKey(AddressEvents(addresses[0], files[addresses[0]], opts).value,
                         Recording(addresses[1..], files, opts).value)
  {
    var rest := addresses[1..];
    var j :| 0 <= j < |rest| && rest[j] == addresses[0];
    assert addresses[0] == addresses[j + 1];
    var first := AddressEvents(addresses[0], files[addresses[0]], opts).value;
    ListedAgain(rest, files, opts, j, first[0]);
    SharesKey(first, Recording(rest, files, opts).value, first[0]);
  }

  lemma SharesKey(a: seq<ReplayEvent>, b: seq<ReplayEvent>, e: ReplayEvent)
    requires e in a && e in b
    ensures !NoSharedKey(a, b)
  {
  }

  lemma ListedAgain(rest: seq<string>, files: map<string, Files>, opts: ReadOptions, j: nat, e: ReplayEvent)
    requires forall a <- rest :: a in files
    requires Recording(rest, files, opts).Ok? && j < |rest|
    requires var es := AddressEvents(rest[j], files[rest[j]], opts); es.Ok? && e in es.value
    ensures e in Recording(rest, files, opts).value
  {
    EventsOfRecording(rest, files, opts, e);
  }

  lemma TailRepeats(addresses: seq<string>, files: map<string, Files>, opts: ReadOptions)
    requires forall a <- addresses :: a in files
    requires addresses != [] && RepeatsBusyAddress(addresses[1..], files, opts)
    ensures RepeatsBusyAddress(addresses, files, opts)
  {
    var rest := addresses[1..];
    var i, j :| 0 <= i < j < |rest| && rest[i] == rest[j] && AddressEvents(rest[i], files[rest[i]], opts) != Ok([]);
    assert addresses[i + 1] == addresses[j + 1];
  }

  lemma HeadStandsAlone(addresses: seq<string>, files: map<string, Files>, opts: ReadOptions)
    requires forall a <- addresses :: a in files
    requires addresses != [] && Recording(addresses, files, opts).Ok?
    requires !RepeatsBusyAddress(addresses[1..], files, opts)
    requires addresses[0] !in addresses[1..] || AddressEvents(addresses[0], files[addresses[0]], opts) == Ok([])
    ensures !RepeatsBusyAddress(addresses, files, opts)
    ensures NoSharedKey(AddressEvents(addresses[0], files[addresses[0]], opts).value,
                        Recording(addresses[1..], files, opts).value)
  {
    var head, rest := addresses[0], addresses[1..];
    AddressKeysDistinct(head, files[head], opts);
    forall a, b | a in AddressEvents(head, files[head], opts).value && b in Recording(rest, files, opts).value
      ensures a.SortKey() != b.SortKey()
    {
      EventsOfRecording(rest, files, opts, b);
      var i :| 0 <= i < |rest| && b in AddressEvents(rest[i], files[rest[i]], opts).value;
      AddressKeysDistinct(rest[i], files[rest[i]], opts);
      if a.SortKey() == b.SortKey() {
        KeyNamesPlace(a, b);
      }
    }
    forall i, j | 0 <= i < j < |addresses| && addresses[i] == addresses[j]
      ensures AddressEvents(addresses[i], files[addresses[i]], opts) == Ok([])
    {
      if i > 0 { assert rest[i - 1] == rest[j - 1]; }
      else { assert rest[j - 1] == head; }
    }
  }
}
