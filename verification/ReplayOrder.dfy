/**
 The replay order in terms of what the events say: exchange time first, then where and when an event was seen.
 */
module ReplayOrder {
  import opened KeyOrder
  import opened ReplayEvents
  import opened StableMerge

  /** Of two events at one time: exchange times before receive times, then earlier receipt, then place. */
  ghost predicate EarlierAtOneTime(a: ReplayEvent, b: ReplayEvent) {
    || (a.timestampSource.Exchange? && b.timestampSource.Observed?)
    || (a.timestampSource == b.timestampSource
        && (a.observedMs < b.observedMs || (a.observedMs == b.observedMs && EarlierPlace(a, b))))
  }

  /** By address, event files before snapshot files, then line, item, and real events before synthetic ones. */
  ghost predicate EarlierPlace(a: ReplayEvent, b: ReplayEvent) {
    || TextBefore(a.address, b.address)
    || (a.address == b.address &&
        (|| (a.sourceKind.EventKind? && b.sourceKind.SnapshotKind?)
         || (a.sourceKind == b.sourceKind && EarlierInFile(a, b))))
  }

  ghost predicate EarlierInFile(a: ReplayEvent, b: ReplayEvent) {
    a.lineNo < b.lineNo || (a.lineNo == b.lineNo && EarlierInLine(a, b))
  }

  ghost predicate EarlierInLine(a: ReplayEvent, b: ReplayEvent) {
    || a.itemIndex < b.itemIndex
    || (a.itemIndex == b.itemIndex &&
        (|| (!a.synthetic && b.synthetic)
         || (a.synthetic == b.synthetic && TextBefore(a.eventId, b.eventId))))
  }

  /** Event `a` is replayed before event `b`. */
  ghost predicate Earlier(a: ReplayEvent, b: ReplayEvent) {
    a.sortTsMs < b.sortTsMs || (a.sortTsMs == b.sortTsMs && EarlierAtOneTime(a, b))
  }

  lemma IdDecides(a: ReplayEvent, b: ReplayEvent, k: Key, l: Key)
    requires k == a.SortKey() && l == b.SortKey()
    ensures CompareKey(k[8..], l[8..]) < 0 <==> TextBefore(a.eventId, b.eventId)
  {
    NothingLeftDecides(k, l);
    TextsDecide(k, l, 8, a.eventId, b.eventId);
  }

  lemma SyntheticDecides(a: ReplayEvent, b: ReplayEvent, k: Key, l: Key)
    requires k == a.SortKey() && l == b.SortKey()
    ensures CompareKey(k[7..], l[7..]) < 0
            <==> || (!a.synthetic && b.synthetic)
                 || (a.synthetic == b.synthetic && TextBefore(a.eventId, b.eventId))
  {
    var m, n := if a.synthetic then 1 else 0, if b.synthetic then 1 else 0;
    IdDecides(a, b, k, l);
    NumbersDecide(k, l, 7, m, n);
  }

  lemma InLineDecides(a: ReplayEvent, b: ReplayEvent, k: Key, l: Key)
    requires k == a.SortKey() && l == b.SortKey()
    ensures CompareKey(k[6..], l[6..]) < 0 <==> EarlierInLine(a, b)
  {
    SyntheticDecides(a, b, k, l);
    NumbersDecide(k, l, 6, a.itemIndex, b.itemIndex);
  }

  lemma LineDecides(a: ReplayEvent, b: ReplayEvent, k: Key, l: Key)
    requires k == a.SortKey() && l == b.SortKey()
    ensures CompareKey(k[5..], l[5..]) < 0 <==> EarlierInFile(a, b)
  {
    InLineDecides(a, b, k, l);
    NumbersDecide(k, l, 5, a.lineNo, b.lineNo);
  }

  lemma FileDecides(a: ReplayEvent, b: ReplayEvent, k: Key, l: Key)
    requires k == a.SortKey() && l == b.SortKey()
    ensures CompareKey(k[4..], l[4..]) < 0
            <==> || (a.sourceKind.EventKind? && b.sourceKind.SnapshotKind?)
                 || (a.sourceKind == b.sourceKind && EarlierInFile(a, b))
  {
    var m, n := if a.sourceKind.EventKind? then 0 else 1, if b.sourceKind.EventKind? then 0 else 1;
    LineDecides(a, b, k, l);
    NumbersDecide(k, l, 4, m, n);
  }

  lemma PlaceDecides(a: ReplayEvent, b: ReplayEvent, k: Key, l: Key)
    requires k == a.SortKey() && l == b.SortKey()
    ensures CompareKey(k[3..], l[3..]) < 0 <==> EarlierPlace(a, b)
  {
    FileDecides(a, b, k, l);
    TextsDecide(k, l, 3, a.address, b.address);
  }

  lemma TimeDecides(a: ReplayEvent, b: ReplayEvent, k: Key, l: Key)
    requires k == a.SortKey() && l == b.SortKey()
    ensures CompareKey(k[1..], l[1..]) < 0 <==> EarlierAtOneTime(a, b)
  {
    var m, n := if a.timestampSource.Exchange? then 0 else 1, if b.timestampSource.Exchange? then 0 else 1;
    PlaceDecides(a, b, k, l);
    NumbersDecide(k, l, 2, a.observedMs, b.observedMs);
    NumbersDecide(k, l, 1, m, n);
  }

  /** The sort keys order events exactly so. */
  lemma KeysTellTheOrder(a: ReplayEvent, b: ReplayEvent)
    ensures KeyLt(a.SortKey(), b.SortKey()) <==> Earlier(a, b)
  {
    var k, l := a.SortKey(), b.SortKey();
    TimeDecides(a, b, k, l);
    NumbersDecide(k, l, 0, a.sortTsMs, b.sortTsMs);
    assert k[0..] == k && l[0..] == l;
  }

  /** No event is replayed after one it is earlier than. */
  ghost predicate InReplayOrder(rows: seq<Row>) {
    forall i, j :: 0 <= i < j < |rows| ==> !Earlier(rows[j].event, rows[i].event)
  }

  lemma SortedIsReplayOrder(rows: seq<Row>)
    requires Sorted(rows) && forall r <- rows :: r.sortKey == r.event.SortKey()
    ensures InReplayOrder(rows)
  {
    KeysAreTotallyOrdered();
    forall i, j | 0 <= i < j < |rows| ensures !Earlier(rows[j].event, rows[i].event) {
      KeysTellTheOrder(rows[j].event, rows[i].event);
      assert rows[i] in rows && rows[j] in rows;
      assert KeyLe(rows[i].sortKey, rows[j].sortKey);
    }
  }
}
