/**
 What the events of a recording say, field by field: which line and entry each comes from, whose time it carries, and
 when a file is refused.
 */
module ReplayContents {
  import opened Outcomes
  import opened ReplayEvents

  // ---------- One event ----------

  /** The event reports this entry of this line: an exchange time if the entry has one, else the time of receipt. */
  ghost predicate Reports(e: ReplayEvent, o: Origin, item: Item, index: nat) {
    && e.address == o.address && e.channel == o.channel && e.eventType == item.eventType && e.subtype == item.subtype
    && e.observedMs == o.observedMs && e.sourceKind == EventKind && e.lineNo == o.lineNo && e.itemIndex == index
    && !e.synthetic && e.gapMs == None && TimeFits(e, item.eventTsMs) && IdTells(e, item.tags)
  }

  ghost predicate TimeFits(e: ReplayEvent, eventTsMs: Option<int>) {
    match eventTsMs
    case Some(t) => e.sortTsMs == t && e.timestampSource == Exchange
    case None => e.sortTsMs == e.observedMs && e.timestampSource == Observed
  }

  /** The id names the event's place and contents, one part after the other. */
  ghost predicate IdTells(e: ReplayEvent, tags: seq<string>) {
    e.eventId == Joined([e.address, if e.sourceKind.EventKind? then "event" else "snapshot", Shown(e.lineNo),
                         Shown(e.itemIndex), e.channel, e.eventType, e.subtype, Shown(e.sortTsMs)] + tags)
  }

  lemma ObservedReports(o: Origin, item: Item, index: nat)
    ensures Reports(Observe(o, item, index), o, item, index)
  {
  }

  function ValueOf(digits: string): int {
    if digits == [] then 0
    else ValueOf(digits[..|digits| - 1]) * 10 + (digits[|digits| - 1] as int - '0' as int)
  }

  /** Numbers in ids are decimal. */
  lemma {:induction false} DigitsAreDecimal(n: nat)
    ensures Digits(n) != "" && ValueOf(Digits(n)) == n
    ensures forall c <- Digits(n) :: '0' <= c <= '9'
    ensures n > 0 ==> Digits(n)[0] != '0'
  {
    var last := ['0' + (n % 10) as char];
    if n < 10 {
      assert Digits(n) == last && last[..0] == "" && ValueOf(last[..0]) == 0;
    } else {
      DigitsAreDecimal(n / 10);
      assert (Digits(n / 10) + last)[..|Digits(n / 10)|] == Digits(n / 10);
    }
  }

  lemma ShownIsDecimal(n: int)
    ensures n >= 0 ==> ValueOf(Shown(n)) == n
    ensures n < 0 ==> Shown(n) == "-" + Shown(-n) && ValueOf(Shown(n)[1..]) == -n
  {
    DigitsAreDecimal(if n < 0 then -n else n);
    assert n < 0 ==> Shown(n)[1..] == Digits(-n);
  }

  /** The parts of an id are separated by colons. */
  lemma JoinedByColons(first: string, rest: seq<string>)
    ensures Joined([first]) == first && Joined([]) == ""
    ensures rest != [] ==> Joined([first] + rest) == first + ":" + Joined(rest)
  {
    assert ([first] + rest)[1..] == rest;
  }

  // ---------- The events of one line ----------

  /** Entries that parsed, counted before place `k`. */
  function ParsedBefore(entries: Entries, k: nat): nat
    requires k <= |entries|
  {
    if k == 0 then 0 else ParsedBefore(entries, k - 1) + if entries[k - 1].Some? then 1 else 0
  }

  /** A listed message gives one event per parsed entry, numbered by the entry's place. */
  lemma {:induction false} ListedReport(o: Origin, entries: Entries, i: nat)
    requires i <= |entries|
    ensures forall e <- ListedEvents(o, entries, i) ::
              i <= e.itemIndex < |entries| && entries[e.itemIndex].Some?
              && Reports(e, o, entries[e.itemIndex].value, e.itemIndex)
    ensures forall k :: i <= k < |entries| && entries[k].Some? ==>
              exists e <- ListedEvents(o, entries, i) :: Reports(e, o, entries[k].value, k)
    decreases |entries| - i
  {
    if i < |entries| {
      ListedReport(o, entries, i + 1);
      if entries[i].Some? {
        ObservedReports(o, entries[i].value, i);
        assert ListedEvents(o, entries, i)[0] in ListedEvents(o, entries, i);
      }
      forall k | i < k < |entries| && entries[k].Some?
        ensures exists e <- ListedEvents(o, entries, i) :: Reports(e, o, entries[k].value, k)
      {
        var e :| e in ListedEvents(o, entries, i + 1) && Reports(e, o, entries[k].value, k);
        assert e in ListedEvents(o, entries, i);
      }
    }
  }

  lemma {:induction false} CountedConcatSplits(o: Origin, entries: Entries, k: nat)
    requires k < |entries|
    ensures |CountedEvents(o, entries[..k], 0)| == ParsedBefore(entries, k)
    ensures entries[k].Some? ==>
              |CountedEvents(o, entries, 0)| > ParsedBefore(entries, k)
              && CountedEvents(o, entries, 0)[ParsedBefore(entries, k)]
                 == Observe(o, entries[k].value, ParsedBefore(entries, k))
  {
    CountParsed(o, entries, k);
    var before, here, after := entries[..k], entries[k..k + 1], entries[k + 1..];
    assert entries == before + (here + after) && here == [entries[k]];
    CountedConcat(o, before, here + after, 0);
    CountedConcat(o, here, after, |CountedEvents(o, before, 0)|);
    assert [entries[k]][1..] == [];
    assert (here + after)[0] == entries[k];
  }

  lemma {:induction false} CountParsed(o: Origin, entries: Entries, k: nat)
    requires k <= |entries|
    ensures |CountedEvents(o, entries[..k], 0)| == ParsedBefore(entries, k)
  {
    if k > 0 {
      CountParsed(o, entries, k - 1);
      assert entries[..k] == entries[..k - 1] + [entries[k - 1]];
      CountedConcat(o, entries[..k - 1], [entries[k - 1]], 0);
      assert [entries[k - 1]][1..] == [];
    }
  }

  /** A user message gives its parsed entries in order, numbered by how many came before; nothing else. */
  lemma UserChannelReports(o: Origin, m: Message)
    requires m.UserChannel?
    ensures var all := UserEntries(m);
            && |MessageEvents(o, m)| == ParsedBefore(all, |all|)
            && forall k :: 0 <= k < |all| && all[k].Some? ==>
                 && ParsedBefore(all, k) < |MessageEvents(o, m)|
                 && Reports(MessageEvents(o, m)[ParsedBefore(all, k)], o, all[k].value, ParsedBefore(all, k))
  {
    var all := UserEntries(m);
    CountParsed(o, all, |all|);
    assert all[..|all|] == all;
    forall k | 0 <= k < |all| && all[k].Some?
      ensures ParsedBefore(all, k) < |MessageEvents(o, m)|
              && Reports(MessageEvents(o, m)[ParsedBefore(all, k)], o, all[k].value, ParsedBefore(all, k))
    {
      CountedConcatSplits(o, all, k);
      ObservedReports(o, all[k].value, ParsedBefore(all, k));
    }
  }

  /** Any other message gives its one entry, its listed entries, or nothing. */
  lemma OtherMessagesReport(o: Origin, m: Message)
    requires !m.UserChannel?
    ensures m.Single? ==> |MessageEvents(o, m)| == 1 && Reports(MessageEvents(o, m)[0], o, m.item, 0)
    ensures m.Listed? ==> MessageEvents(o, m) == ListedEvents(o, m.entries, 0)
    ensures m.NotAnObject? ==> MessageEvents(o, m) == []
  {
    if m.Single? {
      ObservedReports(o, m.item, 0);
    }
  }

  /** A synthetic recovery event of a control line. */
  ghost predicate Marks(e: ReplayEvent, address: string, receivedMs: int, lineNo: nat, subtype: string,
                        gapMs: Option<int>) {
    && e.address == address && e.channel == "replay" && e.eventType == "recovery" && e.subtype == subtype
    && e.sortTsMs == e.observedMs == receivedMs && e.timestampSource == Observed
    && e.sourceKind == EventKind && e.lineNo == lineNo && e.itemIndex == 1 && e.synthetic && e.gapMs == gapMs
  }

  /** The milliseconds from a loss to a reconnect; a loss at time zero, read as none, or a later one gives none. */
  ghost predicate GapBetween(gap: int, lostMs: int, receivedMs: int) {
    gap == if lostMs == 0 || receivedMs <= lostMs then 0 else receivedMs - lostMs
  }

  /** A control line gives its own event and, with gaps injected, the loss or the recovery it marks. */
  lemma ControlReports(address: string, r: Record, lineNo: nat, injectGaps: bool, lost: Option<int>)
    requires r.Control?
    ensures var es := RecordEvents(address, r, lineNo, injectGaps, lost);
            var o := Origin(address, "control", r.receivedMs, lineNo);
            && 1 <= |es| <= 2 && Reports(es[0], o, Item("control", r.event, None, []), 0)
            && (|es| == 2 <==> injectGaps && (r.event == "websocket_error" || (r.event == "connected" && lost.Some?)))
            && (|es| == 2 && r.event == "websocket_error" ==>
                  Marks(es[1], address, r.receivedMs, lineNo, "stream_degraded", None))
            && (|es| == 2 && r.event == "connected" ==>
                  && es[1].gapMs.Some? && GapBetween(es[1].gapMs.value, lost.value, r.receivedMs)
                  && Marks(es[1], address, r.receivedMs, lineNo, "reconnect_recovered", es[1].gapMs))
  {
  }

  // ---------- Whole files ----------

  predicate Says(lines: seq<Option<Record>>, k: nat, event: string)
    requires k < |lines|
  {
    lines[k].Some? && lines[k].value.Control? && lines[k].value.event == event
  }

  /** Line `k` tells of an error, and no error or connect comes between it and line `n`. */
  ghost predicate OpenSince(lines: seq<Option<Record>>, k: nat, n: nat)
    requires k < n <= |lines|
  {
    && Says(lines, k, "websocket_error")
    && forall j :: k < j < n ==> !Says(lines, j, "websocket_error") && !Says(lines, j, "connected")
  }

  /** The error open at line `n` is that of the one line since which nothing was heard. */
  lemma {:induction false} OpenErrorIff(lines: seq<Option<Record>>, n: nat)
    requires n <= |lines|
    ensures OpenError(lines, n).Some? <==> exists k: nat | k < n :: OpenSince(lines, k, n)
    ensures forall k: nat | k < n :: OpenSince(lines, k, n) ==> OpenError(lines, n) == Some(lines[k].value.receivedMs)
  {
    if n > 0 {
      var last := n - 1;
      OpenErrorIff(lines, last);
      if Says(lines, last, "websocket_error") {
        assert OpenSince(lines, last, n);
      } else if !Says(lines, last, "connected") {
        forall k: nat | k < last ensures OpenSince(lines, k, n) <==> OpenSince(lines, k, last) {
        }
        if k: nat :| k < last && OpenSince(lines, k, last) {
          assert OpenSince(lines, k, n);
        }
      }
    }
  }

  /** A readable event file, from its start: line `n + 1` gives its own record's events, given the error open there. */
  lemma FileGivesItsEvents(address: string, lines: seq<Option<Record>>, n: nat, maxRecords: Option<int>,
                           injectGaps: bool)
    requires n < |lines| && lines[n].Some? && (maxRecords.Some? ==> n + 1 <= maxRecords.value)
    requires EventFile(address, lines, 0, maxRecords, injectGaps, None).Ok?
    ensures lines[n].value.Control? || lines[n].value.Websocket?
    ensures AtLine(EventFile(address, lines, 0, maxRecords, injectGaps, None).value, n + 1)
            == RecordEvents(address, lines[n].value, n + 1, injectGaps,
                            if injectGaps then OpenError(lines, n) else None)
  {
    OpenErrorIff(lines, 0);
    LineGivesItsEvents(address, lines, 0, n, maxRecords, injectGaps, None);
  }

  /** The line is read: not blank, and not past the limit. */
  predicate Read(lines: seq<Option<Record>>, n: nat, maxRecords: Option<int>) {
    n < |lines| && lines[n].Some? && (maxRecords.Some? ==> n + 1 <= maxRecords.value)
  }

  /** Why a line is refused: it is no record of the file's kind, or of another address. */
  ghost predicate RefusedFor(r: Record, address: string, snapshots: bool, lineNo: nat, error: ReplayError) {
    if r.Malformed? then error == UnsupportedRecord(lineNo)
    else if r.address != address then error == AddressMismatch(lineNo)
    else (if snapshots then !r.Snapshot? else r.Snapshot?) && error == UnsupportedRecord(lineNo)
  }

  ghost predicate Good(r: Record, address: string, snapshots: bool) {
    !r.Malformed? && r.address == address && (r.Snapshot? <==> snapshots)
  }

  /** From line `i` on, every line read is good, or the first bad one gives the error. */
  ghost predicate Verdict(events: Events, address: string, lines: seq<Option<Record>>, i: nat, maxRecords: Option<int>,
                          snapshots: bool) {
    match events
    case Ok(_) => forall n :: i <= n && Read(lines, n, maxRecords) ==> Good(lines[n].value, address, snapshots)
    case Err(error) =>
      exists n :: i <= n && Read(lines, n, maxRecords)
                  && RefusedFor(lines[n].value, address, snapshots, n + 1, error)
                  && forall k :: i <= k < n && Read(lines, k, maxRecords) ==> Good(lines[k].value, address, snapshots)
  }

  lemma VerdictFromNext(events: Events, address: string, lines: seq<Option<Record>>, i: nat, maxRecords: Option<int>,
                        snapshots: bool)
    requires Verdict(events, address, lines, i + 1, maxRecords, snapshots)
    requires Read(lines, i, maxRecords) ==> Good(lines[i].value, address, snapshots)
    ensures Verdict(events, address, lines, i, maxRecords, snapshots)
  {
  }

  /** An event file is read unless a line read is bad, and then the first such line names the error. */
  lemma {:induction false} EventFileVerdict(address: string, lines: seq<Option<Record>>, i: nat,
                                            maxRecords: Option<int>, injectGaps: bool, lost: Option<int>)
    requires i <= |lines|
    ensures Verdict(EventFile(address, lines, i, maxRecords, injectGaps, lost), address, lines, i, maxRecords, false)
    decreases |lines| - i
  {
    var events := EventFile(address, lines, i, maxRecords, injectGaps, lost);
    if i == |lines| || (maxRecords.Some? && i + 1 > maxRecords.value) {
    } else if lines[i].None? {
      EventFileVerdict(address, lines, i + 1, maxRecords, injectGaps, lost);
      VerdictFromNext(events, address, lines, i, maxRecords, false);
    } else if Good(lines[i].value, address, false) {
      var next := LostAfter(lines[i].value, injectGaps, lost);
      EventFileVerdict(address, lines, i + 1, maxRecords, injectGaps, next);
      VerdictFromNext(events, address, lines, i, maxRecords, false);
    } else {
      assert Read(lines, i, maxRecords);
      assert events.Err? && RefusedFor(lines[i].value, address, false, i + 1, events.error);
    }
  }

  lemma {:induction false} SnapshotFileVerdict(address: string, lines: seq<Option<Record>>, i: nat,
                                               maxRecords: Option<int>)
    requires i <= |lines|
    ensures Verdict(SnapshotFile(address, lines, i, maxRecords), address, lines, i, maxRecords, true)
    decreases |lines| - i
  {
    var events := SnapshotFile(address, lines, i, maxRecords);
    if i == |lines| || (maxRecords.Some? && i + 1 > maxRecords.value) {
    } else if lines[i].None? {
      SnapshotFileVerdict(address, lines, i + 1, maxRecords);
      VerdictFromNext(events, address, lines, i, maxRecords, true);
    } else if Good(lines[i].value, address, true) {
      SnapshotFileVerdict(address, lines, i + 1, maxRecords);
      VerdictFromNext(events, address, lines, i, maxRecords, true);
    } else {
      assert Read(lines, i, maxRecords);
      assert events.Err? && RefusedFor(lines[i].value, address, true, i + 1, events.error);
    }
  }

  /** The event of a snapshot line, seen when it was received. */
  ghost predicate ReportsSnapshot(e: ReplayEvent, address: string, receivedMs: int, lineNo: nat) {
    && e.address == address && e.channel == e.subtype == "rest_snapshot" && e.eventType == "snapshot"
    && e.sortTsMs == e.observedMs == receivedMs && e.timestampSource == Observed && e.sourceKind == SnapshotKind
    && e.lineNo == lineNo && e.itemIndex == 0 && !e.synthetic && e.gapMs == None && IdTells(e, [])
  }

  lemma SnapshotEventReports(address: string, receivedMs: int, lineNo: nat)
    ensures ReportsSnapshot(MakeEvent(address, "rest_snapshot", Item("snapshot", "rest_snapshot", None, []), receivedMs,
                                      SnapshotKind, lineNo, 0, false, None), address, receivedMs, lineNo)
  {
  }

  /** Line `n` of a snapshot file is the one the event reports. */
  ghost predicate FromSnapshotLine(e: ReplayEvent, address: string, lines: seq<Option<Record>>, n: nat,
                                   maxRecords: Option<int>) {
    && Read(lines, n, maxRecords) && lines[n].value.Snapshot?
    && ReportsSnapshot(e, address, lines[n].value.receivedMs, n + 1)
  }

  /** A readable snapshot file gives one event for each line read, and nothing else. */
  lemma {:induction false} SnapshotFileReports(address: string, lines: seq<Option<Record>>, i: nat,
                                               maxRecords: Option<int>)
    requires i <= |lines| && SnapshotFile(address, lines, i, maxRecords).Ok?
    ensures var es := SnapshotFile(address, lines, i, maxRecords).value;
            && (forall e <- es :: exists n :: i <= n && FromSnapshotLine(e, address, lines, n, maxRecords))
            && (forall n :: i <= n && Read(lines, n, maxRecords) ==>
                  exists e <- es :: FromSnapshotLine(e, address, lines, n, maxRecords))
    decreases |lines| - i
  {
    if i == |lines| || (maxRecords.Some? && i + 1 > maxRecords.value) {
    } else {
      SnapshotFileReports(address, lines, i + 1, maxRecords);
      if lines[i].Some? {
        SnapshotLineFirst(address, lines, i, maxRecords);
      }
    }
  }

  lemma SnapshotLineFirst(address: string, lines: seq<Option<Record>>, i: nat,
                                               maxRecords: Option<int>)
    requires i < |lines| && Read(lines, i, maxRecords) && SnapshotFile(address, lines, i, maxRecords).Ok?
    ensures var es := SnapshotFile(address, lines, i, maxRecords);
            var rest := SnapshotFile(address, lines, i + 1, maxRecords);
            && rest.Ok? && es.value != [] && es.value == [es.value[0]] + rest.value
            && FromSnapshotLine(es.value[0], address, lines, i, maxRecords)
  {
    SnapshotEventReports(address, lines[i].value.receivedMs, i + 1);
  }

  // ---------- The whole recording ----------

  /** An address contributes its event file, and after it its snapshot file if snapshots are asked for. */
  lemma AddressContributes(address: string, files: Files, opts: ReadOptions)
    ensures var all := AddressEvents(address, files, opts);
            var events := EventFile(address, files.events, 0, opts.maxRecords, opts.injectGaps, None);
            var snapshots := SnapshotFile(address, files.snapshots, 0, opts.maxRecords);
            && (all.Ok? <==> events.Ok? && (opts.includeSnapshots ==> snapshots.Ok?))
            && (all.Err? ==> all.error == if events.Err? then events.error else snapshots.error)
            && (all.Ok? ==> forall e :: e in all.value
                              <==> e in events.value || (opts.includeSnapshots && e in snapshots.value))
  {
  }

  /** The address is the first unreadable one, and this is its error. */
  ghost predicate FailsFirst(addresses: seq<string>, files: map<string, Files>, opts: ReadOptions, i: nat,
                             events: Events)
    requires forall a <- addresses :: a in files
  {
    && i < |addresses| && events.Err? && AddressEvents(addresses[i], files[addresses[i]], opts) == events
    && forall a <- addresses[..i] :: AddressEvents(a, files[a], opts).Ok?
  }

  lemma FailsInRest(addresses: seq<string>, files: map<string, Files>, opts: ReadOptions, i: nat, events: Events)
    requires addresses != [] && forall a <- addresses :: a in files
    requires AddressEvents(addresses[0], files[addresses[0]], opts).Ok?
    requires FailsFirst(addresses[1..], files, opts, i, events)
    ensures FailsFirst(addresses, files, opts, i + 1, events)
  {
    assert addresses[..i + 1] == [addresses[0]] + addresses[1..][..i];
  }

  /** A recording is readable exactly when each of its addresses is, and else fails as its first unreadable address. */
  lemma {:induction false} RecordingVerdict(addresses: seq<string>, files: map<string, Files>, opts: ReadOptions)
    requires forall a <- addresses :: a in files
    ensures Recording(addresses, files, opts).Ok?
            <==> forall a <- addresses :: AddressEvents(a, files[a], opts).Ok?
    ensures Recording(addresses, files, opts).Err? ==>
              exists i: nat :: FailsFirst(addresses, files, opts, i, Recording(addresses, files, opts))
  {
    if addresses != [] {
      var first, rest := addresses[0], addresses[1..];
      RecordingVerdict(rest, files, opts);
      assert addresses == [first] + rest;
      var all := Recording(addresses, files, opts);
      if AddressEvents(first, files[first], opts).Err? {
        assert first in addresses;
        assert FailsFirst(addresses, files, opts, 0, all);
      } else if Recording(rest, files, opts).Err? {
        var i: nat :| FailsFirst(rest, files, opts, i, Recording(rest, files, opts));
        FailsInRest(addresses, files, opts, i, all);
      }
    }
  }
}
