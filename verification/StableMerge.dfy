/**
 External merge sort: fixed-size chunks are sorted one by one and merged through a heap of
 (key, chunk index) pairs. The result is the one stable sort of the whole input.
 */
module StableMerge {
  import opened Sorting
  import opened KeyOrder
  import opened ReplayEvents

  // One line of a chunk file: the event together with its stored sort key.
  datatype Row = Row(sortKey: Key, event: ReplayEvent)

  // ---------- What a stable sort is ----------

  predicate RowLe(a: Row, b: Row) { KeyLe(a.sortKey, b.sortKey) }

  ghost predicate Sorted(s: seq<Row>) {
    forall i, j :: 0 <= i < j < |s| ==> KeyLe(s[i].sortKey, s[j].sortKey)
  }

  /** The rows with key `k`, in order. */
  function WithKey(s: seq<Row>, k: Key): seq<Row> {
    if s == [] then []
    else (if s[0].sortKey == k then [s[0]] else []) + WithKey(s[1..], k)
  }

  /** `b` moves rows of `a` around but keeps, for every key, the rows of that key in their order. */
  ghost predicate StableRearrangement(a: seq<Row>, b: seq<Row>) {
    forall k :: WithKey(a, k) == WithKey(b, k)
  }

  lemma {:induction false} WithKeyConcat(a: seq<Row>, b: seq<Row>, k: Key)
    ensures WithKey(a + b, k) == WithKey(a, k) + WithKey(b, k)
  {
    if a == [] {
      assert a + b == b;
    } else {
      assert (a + b)[1..] == a[1..] + b;
      WithKeyConcat(a[1..], b, k);
      var here := if a[0].sortKey == k then [a[0]] else [];
      assert here + (WithKey(a[1..], k) + WithKey(b, k)) == (here + WithKey(a[1..], k)) + WithKey(b, k);
    }
  }

  lemma {:induction false} WithKeyMembers(s: seq<Row>, k: Key)
    ensures forall r :: r in WithKey(s, k) <==> r in s && r.sortKey == k
  {
    if s != [] {
      WithKeyMembers(s[1..], k);
      assert s == [s[0]] + s[1..];
    }
  }

  lemma {:induction false} WithKeyCounts(s: seq<Row>, r: Row)
    ensures multiset(s)[r] == multiset(WithKey(s, r.sortKey))[r]
  {
    if s != [] {
      WithKeyCounts(s[1..], r);
      assert s == [s[0]] + s[1..];
    }
  }

  lemma StableIsPermutation(a: seq<Row>, b: seq<Row>)
    requires StableRearrangement(a, b)
    ensures multiset(a) == multiset(b)
    ensures |a| == |b|
  {
    forall r: Row
      ensures multiset(a)[r] == multiset(b)[r]
    {
      WithKeyCounts(a, r);
      WithKeyCounts(b, r);
    }
    assert |a| == |multiset(a)| && |b| == |multiset(b)|;
  }

  /** There is at most one sorted stable rearrangement. */
  lemma {:induction false} StableSortIsUnique(a: seq<Row>, b: seq<Row>)
    requires Sorted(a) && Sorted(b) && StableRearrangement(a, b)
    ensures a == b
  {
    StableIsPermutation(a, b);
    if a != [] {
      KeysAreTotallyOrdered();
      var k, l := a[0].sortKey, b[0].sortKey;
      WithKeyMembers(a, l);
      WithKeyMembers(b, k);
      WithKeyMembers(a, k);
      WithKeyMembers(b, l);
      assert b[0] in a && a[0] in b;
      assert KeyLe(k, l) && KeyLe(l, k);
      assert WithKey(a, k)[0] == a[0] && WithKey(b, k)[0] == b[0];
      forall m
        ensures WithKey(a[1..], m) == WithKey(b[1..], m)
      {
        var skip := if m == k then [a[0]] else [];
        assert WithKey(a, m) == skip + WithKey(a[1..], m) && WithKey(b, m) == skip + WithKey(b[1..], m);
        assert WithKey(a[1..], m) == WithKey(a, m)[|skip|..] && WithKey(b[1..], m) == WithKey(b, m)[|skip|..];
      }
      StableSortIsUnique(a[1..], b[1..]);
    }
  }

  // ---------- list.sort: Python's sort is stable ----------

  function StableSort(s: seq<Row>): seq<Row> { Sort(s, RowLe) }

  lemma StableSortOrders(s: seq<Row>)
    ensures Sorted(StableSort(s))
  {
    KeysAreTotallyOrdered();
    SortOrders(s, RowLe);
    var out := StableSort(s);
    forall i, j | 0 <= i < j < |out| ensures KeyLe(out[i].sortKey, out[j].sortKey) {
      assert RowLe(out[i], out[j]);
    }
  }

  /** The inserted row goes before the rows of its own key. */
  lemma {:induction false} InsertIsStable(r: Row, s: seq<Row>, k: Key)
    ensures WithKey(Insert(r, s, RowLe), k) == WithKey([r] + s, k)
  {
    if s == [] || RowLe(r, s[0]) {
    } else {
      KeysAreTotallyOrdered();
      InsertIsStable(r, s[1..], k);
      assert Insert(r, s, RowLe)[1..] == Insert(r, s[1..], RowLe) && ([r] + s)[1..] == s
             && ([r] + s[1..])[1..] == s[1..];
    }
  }

  lemma {:induction false} SortIsStable(s: seq<Row>, k: Key)
    ensures WithKey(StableSort(s), k) == WithKey(s, k)
  {
    if s != [] {
      SortIsStable(s[1..], k);
      InsertIsStable(s[0], StableSort(s[1..]), k);
      assert ([s[0]] + StableSort(s[1..]))[1..] == StableSort(s[1..]);
    }
  }

  /** The sort used on each chunk gives a sorted stable rearrangement. */
  lemma StableSortSorts(s: seq<Row>)
    ensures Sorted(StableSort(s)) && StableRearrangement(StableSort(s), s)
  {
    StableSortOrders(s);
    forall k ensures WithKey(StableSort(s), k) == WithKey(s, k) {
      SortIsStable(s, k);
    }
  }

  lemma SortOf(out: seq<Row>, s: seq<Row>)
    requires Sorted(out) && StableRearrangement(out, s)
    ensures out == StableSort(s)
  {
    StableSortSorts(s);
    assert StableRearrangement(out, StableSort(s)) by {
      forall k ensures WithKey(out, k) == WithKey(StableSort(s), k) {
        assert WithKey(out, k) == WithKey(s, k);
        assert WithKey(StableSort(s), k) == WithKey(s, k);
      }
    }
    StableSortIsUnique(out, StableSort(s));
  }

  // ---------- Chunks ----------

  function Flatten(cs: seq<seq<Row>>): seq<Row> {
    if cs == [] then [] else cs[0] + Flatten(cs[1..])
  }

  /** Consecutive pieces of `n` rows; the last may be shorter. */
  function Partition(s: seq<Row>, n: nat): seq<seq<Row>>
    requires n > 0
  {
    if s == [] then []
    else if |s| <= n then [s]
    else [s[..n]] + Partition(s[n..], n)
  }

  function SortEach(cs: seq<seq<Row>>): seq<seq<Row>> {
    if cs == [] then [] else [StableSort(cs[0])] + SortEach(cs[1..])
  }

  lemma FlattenCons(c: seq<Row>, cs: seq<seq<Row>>)
    ensures Flatten([c] + cs) == c + Flatten(cs)
  {
    assert ([c] + cs)[1..] == cs;
  }

  lemma {:induction false} PartitionKeepsAll(s: seq<Row>, n: nat)
    requires n > 0
    ensures Flatten(Partition(s, n)) == s
  {
    if s == [] {
    } else if |s| <= n {
      FlattenCons(s, []);
      assert [s] + [] == [s];
    } else {
      PartitionKeepsAll(s[n..], n);
      FlattenCons(s[..n], Partition(s[n..], n));
      assert s == s[..n] + s[n..];
    }
  }

  lemma {:induction false} SortEachConcat(a: seq<seq<Row>>, c: seq<Row>)
    ensures SortEach(a + [c]) == SortEach(a) + [StableSort(c)]
  {
    if a != [] {
      SortEachConcat(a[1..], c);
      assert (a + [c])[1..] == a[1..] + [c];
    } else {
      assert a + [c] == [c];
    }
  }

  lemma {:induction false} SortEachIsStable(cs: seq<seq<Row>>)
    ensures forall c <- SortEach(cs) :: Sorted(c)
    ensures StableRearrangement(Flatten(SortEach(cs)), Flatten(cs))
  {
    if cs != [] {
      SortEachIsStable(cs[1..]);
      StableSortSorts(cs[0]);
      forall k
        ensures WithKey(Flatten(SortEach(cs)), k) == WithKey(Flatten(cs), k)
      {
        WithKeyConcat(StableSort(cs[0]), Flatten(SortEach(cs[1..])), k);
        WithKeyConcat(cs[0], Flatten(cs[1..]), k);
        assert WithKey(StableSort(cs[0]), k) == WithKey(cs[0], k);
      }
    }
  }

  /** A full buffer is one piece of the partition of everything still to come. */
  lemma PartitionFull(chunk: seq<Row>, rest: seq<Row>, n: nat)
    requires n > 0 && |chunk| == n
    ensures Partition(chunk + rest, n) == [chunk] + Partition(rest, n)
  {
    var all := chunk + rest;
    assert all[..n] == chunk && all[n..] == rest;
    if rest == [] {
      assert all == chunk && Partition(rest, n) == [];
    }
  }

  /** What is written and buffered, followed by the partition of what is to come, is the partition of all rows. */
  ghost predicate Buffered(rows: seq<Row>, n: nat, done: seq<seq<Row>>, chunk: seq<Row>, total: nat)
    requires n > 0
  {
    total <= |rows| && Partition(rows, n) == done + Partition(chunk + rows[total..], n)
  }

  lemma BufferOne(rows: seq<Row>, n: nat, done: seq<seq<Row>>, chunk: seq<Row>, total: nat)
    requires n > 0 && Buffered(rows, n, done, chunk, total) && total < |rows|
    ensures Buffered(rows, n, done, chunk + [rows[total]], total + 1)
  {
    assert chunk + rows[total..] == (chunk + [rows[total]]) + rows[total + 1..];
  }

  lemma Flush(rows: seq<Row>, n: nat, done: seq<seq<Row>>, chunk: seq<Row>, total: nat)
    requires n > 0 && Buffered(rows, n, done, chunk, total) && |chunk| == n
    ensures Buffered(rows, n, done + [chunk], [], total)
  {
    var rest := rows[total..];
    PartitionFull(chunk, rest, n);
    assert [] + rest == rest;
    assert done + ([chunk] + Partition(rest, n)) == (done + [chunk]) + Partition(rest, n);
  }

  lemma LastFlush(rows: seq<Row>, n: nat, done: seq<seq<Row>>, chunk: seq<Row>)
    requires n > 0 && Buffered(rows, n, done, chunk, |rows|) && |chunk| < n
    ensures Partition(rows, n) == if chunk == [] then done else done + [chunk]
  {
    assert chunk + rows[|rows|..] == chunk;
    assert done + [] == done;
  }

  /** `write_sorted_chunks`: buffers rows and writes a sorted chunk each time the buffer is full. */
  method WriteSortedChunks(rows: seq<Row>, chunkSize: nat) returns (chunks: seq<seq<Row>>, total: nat)
    requires chunkSize > 0
    ensures chunks == SortEach(Partition(rows, chunkSize))
    ensures total == |rows|
  {
    chunks, total := [], 0;
    var chunk: seq<Row> := [];
    ghost var done: seq<seq<Row>> := [];
    assert [] + rows[0..] == rows && done + Partition(rows, chunkSize) == Partition(rows, chunkSize);
    while total < |rows|
      invariant Buffered(rows, chunkSize, done, chunk, total) && |chunk| < chunkSize
      invariant chunks == SortEach(done)
    {
      BufferOne(rows, chunkSize, done, chunk, total);
      chunk := chunk + [rows[total]];
      total := total + 1;
      if |chunk| >= chunkSize {
        Flush(rows, chunkSize, done, chunk, total);
        SortEachConcat(done, chunk);
        chunks := chunks + [StableSort(chunk)];
        done := done + [chunk];
        chunk := [];
      }
    }
    LastFlush(rows, chunkSize, done, chunk);
    if chunk != [] {
      SortEachConcat(done, chunk);
      chunks := chunks + [StableSort(chunk)];
    }
  }

  // ---------- The merge ----------

  datatype Entry = Entry(key: Key, index: nat, row: Row)

  /** Tuple order of the heap entries; two entries never share an index, so rows are never compared. */
  predicate EntryLe(a: Entry, b: Entry) {
    KeyLt(a.key, b.key) || (a.key == b.key && a.index <= b.index)
  }

  lemma EntryOrder(a: Entry, b: Entry, c: Entry)
    ensures EntryLe(a, b) || EntryLe(b, a)
    ensures EntryLe(a, b) && EntryLe(b, c) ==> EntryLe(a, c)
  {
    KeysAreTotallyOrdered();
    assert KeyLe(a.key, b.key) || KeyLt(b.key, a.key);
    if EntryLe(a, b) && EntryLe(b, c) {
      assert KeyLe(a.key, a.key) && KeyLe(a.key, b.key) && KeyLe(b.key, c.key);
    }
  }

  /** `heappop`: takes out the least entry. */
  method PopLeast(heap: set<Entry>) returns (least: Entry, rest: set<Entry>)
    requires heap != {}
    ensures least in heap && rest == heap - {least}
    ensures forall e <- heap :: EntryLe(least, e)
  {
    least :| least in heap;
    EntryOrder(least, least, least);
    var todo := heap - {least};
    while todo != {}
      invariant todo <= heap && least in heap
      invariant forall e <- heap - todo :: EntryLe(least, e)
      decreases |todo|
    {
      var e :| e in todo;
      todo := todo - {e};
      EntryOrder(least, e, e);
      if !EntryLe(least, e) {
        forall x | x in heap && EntryLe(least, x) ensures EntryLe(e, x) { EntryOrder(e, least, x); }
        EntryOrder(e, e, e);
        least := e;
      }
    }
    rest := heap - {least};
  }

  ghost function HeadEntry(rem: seq<seq<Row>>, i: nat): Entry
    requires i < |rem| && rem[i] != []
  {
    Entry(rem[i][0].sortKey, i, rem[i][0])
  }

  /** The heap holds the first remaining row of every chunk that has one, and nothing else. */
  ghost predicate HeapMirrors(heap: set<Entry>, rem: seq<seq<Row>>) {
    && (forall i :: 0 <= i < |rem| && rem[i] != [] ==> HeadEntry(rem, i) in heap)
    && (forall e <- heap :: e.index < |rem| && rem[e.index] != [] && e == HeadEntry(rem, e.index))
  }

  /** Row `rem[i][0]` may go out next: no head is smaller, and equal heads come from later chunks. */
  ghost predicate IsNext(rem: seq<seq<Row>>, i: nat) {
    && i < |rem| && rem[i] != []
    && forall j :: 0 <= j < |rem| && rem[j] != [] ==> EntryLe(HeadEntry(rem, i), HeadEntry(rem, j))
  }

  lemma {:induction false} NoSmallerKeyBefore(c: seq<Row>, k: Key)
    requires Sorted(c) && (c != [] ==> KeyLt(k, c[0].sortKey))
    ensures WithKey(c, k) == []
  {
    if c != [] {
      KeysAreTotallyOrdered();
      assert |c| > 1 ==> KeyLe(k, c[0].sortKey) && KeyLe(c[0].sortKey, c[1].sortKey);
      NoSmallerKeyBefore(c[1..], k);
    }
  }

  lemma NextInTail(rem: seq<seq<Row>>, i: nat)
    requires forall c <- rem :: Sorted(c)
    requires IsNext(rem, i) && i > 0
    ensures IsNext(rem[1..], i - 1)
    ensures WithKey(rem[0], rem[i][0].sortKey) == []
  {
    var tail := rem[1..];
    forall j | 0 <= j < |tail| && tail[j] != []
      ensures EntryLe(HeadEntry(tail, i - 1), HeadEntry(tail, j))
    {
      assert EntryLe(HeadEntry(rem, i), HeadEntry(rem, j + 1));
    }
    assert rem[0] != [] ==> EntryLe(HeadEntry(rem, i), HeadEntry(rem, 0));
    NoSmallerKeyBefore(rem[0], rem[i][0].sortKey);
  }

  /** Taking the next row out leaves, for each key, exactly the remaining rows in their order. */
  lemma {:induction false} TakingNextIsStable(rem: seq<seq<Row>>, i: nat, k: Key)
    requires forall c <- rem :: Sorted(c)
    requires IsNext(rem, i)
    ensures WithKey(Flatten(rem), k)
            == WithKey([rem[i][0]], k) + WithKey(Flatten(rem[i := rem[i][1..]]), k)
  {
    var taken := rem[i := rem[i][1..]];
    var here, later := WithKey(rem[0], k), WithKey(Flatten(taken[1..]), k);
    var head := WithKey([rem[i][0]], k);
    WithKeyConcat(rem[0], Flatten(rem[1..]), k);
    WithKeyConcat(taken[0], Flatten(taken[1..]), k);
    if i == 0 {
      TakeFirst(rem, k);
    } else {
      assert taken[1..] == rem[1..][i - 1 := rem[i][1..]];
      NextInTail(rem, i);
      TakingNextIsStable(rem[1..], i - 1, k);
      OneKeyOnly(rem[i][0], k);
      assert WithKey(Flatten(rem[1..]), k) == head + later;
      assert here == [] || head == [];
      assert here + (head + later) == head + (here + later);
    }
  }

  lemma TakeFirst(rem: seq<seq<Row>>, k: Key)
    requires rem != [] && rem[0] != []
    ensures WithKey(Flatten(rem), k)
            == WithKey([rem[0][0]], k) + WithKey(Flatten(rem[0 := rem[0][1..]]), k)
  {
    var taken := rem[0 := rem[0][1..]];
    assert taken[1..] == rem[1..];
    assert Flatten(rem) == [rem[0][0]] + Flatten(taken);
    WithKeyConcat([rem[0][0]], Flatten(taken), k);
  }

  lemma OneKeyOnly(r: Row, k: Key)
    ensures WithKey([r], k) == if r.sortKey == k then [r] else []
  {
  }

  lemma {:induction false} NothingLeft(rem: seq<seq<Row>>)
    requires forall i :: 0 <= i < |rem| ==> rem[i] == []
    ensures Flatten(rem) == []
  {
    if rem != [] {
      NothingLeft(rem[1..]);
      assert rem[0] == [];
    }
  }

  /** Every row already out is no later than every row still in a chunk. */
  ghost predicate OutFirst(out: seq<Row>, rem: seq<seq<Row>>) {
    forall r, j :: r in out && 0 <= j < |rem| && rem[j] != [] ==> KeyLe(r.sortKey, rem[j][0].sortKey)
  }

  ghost predicate MergeInvariant(chunks: seq<seq<Row>>, rem: seq<seq<Row>>, out: seq<Row>) {
    && |rem| == |chunks|
    && (forall c <- rem :: Sorted(c))
    && Sorted(out) && OutFirst(out, rem)
    && forall k :: WithKey(out, k) + WithKey(Flatten(rem), k) == WithKey(Flatten(chunks), k)
  }

  lemma NextStaysSorted(rem: seq<seq<Row>>, i: nat)
    requires (forall c <- rem :: Sorted(c)) && i < |rem| && rem[i] != []
    ensures forall c <- rem[i := rem[i][1..]] :: Sorted(c)
  {
    assert Sorted(rem[i]);
    forall c | c in rem[i := rem[i][1..]] ensures Sorted(c) {
      if c != rem[i][1..] { assert c in rem; }
    }
  }

  /** The next row is no later than any row still in a chunk. */
  lemma NextIsEarliest(rem: seq<seq<Row>>, i: nat, j: nat)
    requires (forall c <- rem :: Sorted(c)) && IsNext(rem, i)
    requires var next := rem[i := rem[i][1..]]; j < |next| && next[j] != []
    ensures KeyLe(rem[i][0].sortKey, rem[i := rem[i][1..]][j][0].sortKey)
  {
    if j == i {
      assert Sorted(rem[i]);
    } else {
      KeysAreTotallyOrdered();
      assert EntryLe(HeadEntry(rem, i), HeadEntry(rem, j));
    }
  }

  lemma OutStaysFirst(out: seq<Row>, rem: seq<seq<Row>>, i: nat)
    requires (forall c <- rem :: Sorted(c)) && Sorted(out) && OutFirst(out, rem) && IsNext(rem, i)
    ensures Sorted(out + [rem[i][0]]) && OutFirst(out + [rem[i][0]], rem[i := rem[i][1..]])
  {
    KeysAreTotallyOrdered();
    assert forall x: Row <- out :: KeyLe(x.sortKey, rem[i][0].sortKey);
    var next: seq<seq<Row>> := rem[i := rem[i][1..]];
    forall x: Row, j: nat | x in out + [rem[i][0]] && 0 <= j < |next| && next[j] != []
      ensures KeyLe(x.sortKey, next[j][0].sortKey)
    {
      NextIsEarliest(rem, i, j);
      assert KeyLe(x.sortKey, rem[i][0].sortKey);
    }
  }

  lemma MergeStep(chunks: seq<seq<Row>>, rem: seq<seq<Row>>, out: seq<Row>, i: nat)
    requires MergeInvariant(chunks, rem, out) && IsNext(rem, i)
    ensures MergeInvariant(chunks, rem[i := rem[i][1..]], out + [rem[i][0]])
  {
    var r := rem[i][0];
    var next: seq<seq<Row>> := rem[i := rem[i][1..]];
    NextStaysSorted(rem, i);
    OutStaysFirst(out, rem, i);
    forall k
      ensures WithKey(out + [r], k) + WithKey(Flatten(next), k) == WithKey(Flatten(chunks), k)
    {
      WithKeyConcat(out, [r], k);
      TakingNextIsStable(rem, i, k);
      assert WithKey(out, k) + WithKey(Flatten(rem), k) == WithKey(Flatten(chunks), k);
    }
  }

  /** What the open chunk files still have to offer after their buffered row. */
  ghost predicate Unread(handles: seq<seq<Row>>, rem: seq<seq<Row>>) {
    && |handles| == |rem|
    && forall i :: 0 <= i < |rem| ==> handles[i] == if rem[i] == [] then [] else rem[i][1..]
  }

  lemma Refill(heap: set<Entry>, handles: seq<seq<Row>>, rem: seq<seq<Row>>, i: nat)
    requires HeapMirrors(heap, rem) && Unread(handles, rem)
    requires i < |rem| && rem[i] != []
    ensures var rest, next := heap - {HeadEntry(rem, i)}, rem[i := rem[i][1..]];
            if handles[i] == [] then HeapMirrors(rest, next) && Unread(handles, next)
            else HeapMirrors(rest + {Entry(handles[i][0].sortKey, i, handles[i][0])}, next)
                 && Unread(handles[i := handles[i][1..]], next)
  {
    var next := rem[i := rem[i][1..]];
    assert forall j :: 0 <= j < |rem| && j != i && next[j] != [] ==> HeadEntry(next, j) == HeadEntry(rem, j);
    assert forall e <- heap - {HeadEntry(rem, i)} :: e.index != i;
  }

  method OpenChunks(chunks: seq<seq<Row>>) returns (handles: seq<seq<Row>>, heap: set<Entry>)
    ensures HeapMirrors(heap, chunks) && Unread(handles, chunks)
  {
    handles, heap := chunks, {};
    var n := 0;
    while n < |chunks|
      invariant 0 <= n <= |chunks| == |handles|
      invariant forall i :: 0 <= i < n ==> handles[i] == if chunks[i] == [] then [] else chunks[i][1..]
      invariant forall i :: n <= i < |chunks| ==> handles[i] == chunks[i]
      invariant forall i :: 0 <= i < n && chunks[i] != [] ==> HeadEntry(chunks, i) in heap
      invariant forall e <- heap :: e.index < n && chunks[e.index] != [] && e == HeadEntry(chunks, e.index)
    {
      if handles[n] != [] {
        heap := heap + {Entry(handles[n][0].sortKey, n, handles[n][0])};
        handles := handles[n := handles[n][1..]];
      }
      n := n + 1;
    }
  }

  lemma MergeDone(chunks: seq<seq<Row>>, rem: seq<seq<Row>>, out: seq<Row>)
    requires MergeInvariant(chunks, rem, out) && HeapMirrors({}, rem)
    ensures out == StableSort(Flatten(chunks))
  {
    NothingLeft(rem);
    forall k ensures WithKey(out, k) == WithKey(Flatten(chunks), k) {
      assert WithKey(out, k) + WithKey(Flatten(rem), k) == WithKey(Flatten(chunks), k);
    }
    SortOf(out, Flatten(chunks));
  }

  /** `merge_chunks`: repeatedly emits the least buffered row and refills from the chunk it came from. */
  method MergeChunks(chunks: seq<seq<Row>>) returns (out: seq<Row>)
    requires forall c <- chunks :: Sorted(c)
    ensures out == StableSort(Flatten(chunks))
  {
    out := [];
    var handles, heap := OpenChunks(chunks);
    ghost var rem := chunks;
    while heap != {}
      invariant HeapMirrors(heap, rem) && Unread(handles, rem)
      invariant MergeInvariant(chunks, rem, out)
      decreases |Flatten(rem)|
    {
      ghost var before := heap;
      var entry;
      entry, heap := PopLeast(heap);
      var i := entry.index;
      NextIsLeast(before, rem, entry);
      MergeStep(chunks, rem, out, i);
      FlattenShrinks(rem, i);
      Refill(before, handles, rem, i);
      out := out + [entry.row];
      if handles[i] != [] {
        heap := heap + {Entry(handles[i][0].sortKey, i, handles[i][0])};
        handles := handles[i := handles[i][1..]];
      }
      rem := rem[i := rem[i][1..]];
    }
    MergeDone(chunks, rem, out);
  }

  lemma NextIsLeast(heap: set<Entry>, rem: seq<seq<Row>>, least: Entry)
    requires HeapMirrors(heap, rem) && least in heap
    requires forall e <- heap :: EntryLe(least, e)
    ensures IsNext(rem, least.index)
  {
  }

  lemma {:induction false} FlattenShrinks(rem: seq<seq<Row>>, i: nat)
    requires i < |rem| && rem[i] != []
    ensures |Flatten(rem[i := rem[i][1..]])| == |Flatten(rem)| - 1
  {
    var taken := rem[i := rem[i][1..]];
    if i == 0 {
      assert taken[1..] == rem[1..];
    } else {
      assert taken[1..] == rem[1..][i - 1 := rem[i][1..]];
      FlattenShrinks(rem[1..], i - 1);
    }
  }

  /** Sorting chunk by chunk and merging gives the stable sort of the whole input, whatever the chunk size. */
  lemma MergedChunksAreSorted(rows: seq<Row>, chunkSize: nat)
    requires chunkSize > 0
    ensures forall c <- SortEach(Partition(rows, chunkSize)) :: Sorted(c)
    ensures StableSort(Flatten(SortEach(Partition(rows, chunkSize)))) == StableSort(rows)
    ensures Sorted(StableSort(rows)) && StableRearrangement(StableSort(rows), rows)
    ensures multiset(StableSort(rows)) == multiset(rows)
  {
    var cs := SortEach(Partition(rows, chunkSize));
    SortEachIsStable(Partition(rows, chunkSize));
    PartitionKeepsAll(rows, chunkSize);
    StableSortSorts(Flatten(cs));
    StableSortSorts(rows);
    StableIsPermutation(StableSort(rows), rows);
    forall k ensures WithKey(StableSort(Flatten(cs)), k) == WithKey(rows, k) {
      assert WithKey(Flatten(cs), k) == WithKey(rows, k);
      assert WithKey(StableSort(Flatten(cs)), k) == WithKey(Flatten(cs), k);
    }
    SortOf(StableSort(Flatten(cs)), rows);
  }
}
