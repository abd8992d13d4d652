/**
 The owner of the current source, follower and book revisions. A plan captures a fence of their numbers and is
 stale as soon as one of them moved on.
 */
module StateBook {
  import opened Outcomes

  datatype SourceRev = SourceRev(slot: string, revision: int, catalog: string)
  datatype FollowerRev = FollowerRev(address: string, revision: int)
  datatype BookRev = BookRev(market: string, revision: int)

  datatype Fence = Fence(source: int, follower: int, catalog: string, book: int)
  {
    predicate Matches(s: SourceRev, f: FollowerRev, currentCatalog: string, b: BookRev) {
      source == s.revision && follower == f.revision && catalog == currentCatalog && book == b.revision
    }
  }

  datatype Books = Books(sources: map<string, SourceRev>, followers: map<string, FollowerRev>,
                         books: map<string, BookRev>)

  /** Whether `next` may follow what is published under its key. */
  predicate Advances(previous: Option<int>, next: int) { previous.None? || next == previous.value + 1 }

  function SourceNo(b: Books, slot: string): Option<int> {
    if slot in b.sources then Some(b.sources[slot].revision) else None
  }

  function FollowerNo(b: Books, address: string): Option<int> {
    if address in b.followers then Some(b.followers[address].revision) else None
  }

  function BookNo(b: Books, market: string): Option<int> {
    if market in b.books then Some(b.books[market].revision) else None
  }

  datatype Op =
    | PublishSource(s: SourceRev)
    | PublishFollower(f: FollowerRev)
    | PublishBook(b: BookRev)
    | RetireBook(market: string)

  function Step(b: Books, op: Op): Books {
    match op
    case PublishSource(s) =>
      if Advances(SourceNo(b, s.slot), s.revision) then b.(sources := b.sources[s.slot := s]) else b
    case PublishFollower(f) =>
      if Advances(FollowerNo(b, f.address), f.revision) then b.(followers := b.followers[f.address := f]) else b
    case PublishBook(k) => if Advances(BookNo(b, k.market), k.revision) then b.(books := b.books[k.market := k]) else b
    case RetireBook(market) => b.(books := b.books - {market})
  }

  function Capture(b: Books, slot: string, address: string, market: string): Option<Fence> {
    if slot !in b.sources || address !in b.followers || market !in b.books then None
    else Some(Fence(b.sources[slot].revision, b.followers[address].revision, b.sources[slot].catalog,
                    b.books[market].revision))
  }

  class AccountStateBook {
    var sources: map<string, SourceRev>
    var followers: map<string, FollowerRev>
    var books: map<string, BookRev>

    function Now(): Books
      reads this
    {
      Books(sources, followers, books)
    }

    constructor ()
      ensures Now() == Books(map[], map[], map[])
    {
      sources, followers, books := map[], map[], map[];
    }

    method PublishSource(s: SourceRev) returns (ok: bool)
      modifies this
      ensures Now() == Step(old(Now()), Op.PublishSource(s))
      ensures ok <==> s.slot !in old(sources) || s.revision == old(sources)[s.slot].revision + 1
    {
      ok := s.slot !in sources || s.revision == sources[s.slot].revision + 1;
      if ok { sources := sources[s.slot := s]; }
    }

    method PublishFollower(f: FollowerRev) returns (ok: bool)
      modifies this
      ensures Now() == Step(old(Now()), Op.PublishFollower(f))
      ensures ok <==> f.address !in old(followers) || f.revision == old(followers)[f.address].revision + 1
    {
      ok := f.address !in followers || f.revision == followers[f.address].revision + 1;
      if ok { followers := followers[f.address := f]; }
    }

    method PublishBook(b: BookRev) returns (ok: bool)
      modifies this
      ensures Now() == Step(old(Now()), Op.PublishBook(b))
      ensures ok <==> b.market !in old(books) || b.revision == old(books)[b.market].revision + 1
    {
      ok := b.market !in books || b.revision == books[b.market].revision + 1;
      if ok { books := books[b.market := b]; }
    }

    method RetireBook(market: string)
      modifies this
      ensures Now() == Step(old(Now()), Op.RetireBook(market))
    {
      books := books - {market};
    }

    method TakeFence(slot: string, address: string, market: string) returns (r: Option<Fence>)
      ensures r == Capture(Now(), slot, address, market)
    {
      if slot !in sources || address !in followers || market !in books { return None; }
      r := Some(Fence(sources[slot].revision, followers[address].revision, sources[slot].catalog,
                      books[market].revision));
    }
  }

  // ---------- A fence detects every publish ----------

  function Run(b: Books, ops: seq<Op>): Books {
    if ops == [] then b else Step(Run(b, ops[..|ops| - 1]), ops[|ops| - 1])
  }

  /** An accepted publish under one of the fence's three keys. */
  predicate Publishes(b: Books, op: Op, slot: string, address: string, market: string) {
    match op
    case PublishSource(s) => s.slot == slot && Advances(SourceNo(b, slot), s.revision)
    case PublishFollower(f) => f.address == address && Advances(FollowerNo(b, address), f.revision)
    case PublishBook(k) => k.market == market && Advances(BookNo(b, market), k.revision)
    case RetireBook(_) => false
  }

  function Published(b: Books, ops: seq<Op>, slot: string, address: string, market: string): nat {
    if ops == [] then 0
    else
      var init, last := ops[..|ops| - 1], ops[|ops| - 1];
      Published(b, init, slot, address, market) + if Publishes(Run(b, init), last, slot, address, market) then 1 else 0
  }

  /** The accepted publishes of the fence's source or follower. */
  function Moved(b: Books, ops: seq<Op>, slot: string, address: string): nat {
    if ops == [] then 0
    else
      var init, last := ops[..|ops| - 1], ops[|ops| - 1];
      var now := Run(b, init);
      Moved(b, init, slot, address) +
      (if (last.PublishSource? && last.s.slot == slot && Advances(SourceNo(now, slot), last.s.revision))
          || (last.PublishFollower? && last.f.address == address && Advances(FollowerNo(now, address), last.f.revision))
       then 1 else 0)
  }

  ghost predicate RetireFree(ops: seq<Op>, market: string) {
    forall op <- ops :: !(op.RetireBook? && op.market == market)
  }

  /** How far the three revision numbers have moved together. */
  function Distance(b: Books, later: Books, slot: string, address: string, market: string): int
    requires Capture(b, slot, address, market).Some? && Capture(later, slot, address, market).Some?
  {
    (later.sources[slot].revision - b.sources[slot].revision)
    + (later.followers[address].revision - b.followers[address].revision)
    + (later.books[market].revision - b.books[market].revision)
  }

  /**
   Without a retirement of the market's book, the three numbers never fall and move by exactly one per accepted
   publish.
   */
  lemma {:induction false} RevisionsCountPublishes(b: Books, ops: seq<Op>, slot: string, address: string,
                                                   market: string)
    requires Capture(b, slot, address, market).Some?
    requires RetireFree(ops, market)
    ensures var later := Run(b, ops);
            && Capture(later, slot, address, market).Some?
            && later.sources[slot].revision >= b.sources[slot].revision
            && later.followers[address].revision >= b.followers[address].revision
            && later.books[market].revision >= b.books[market].revision
            && Distance(b, later, slot, address, market) == Published(b, ops, slot, address, market)
            && (Published(b, ops, slot, address, market) == 0 ==> later.sources[slot] == b.sources[slot])
  {
    if ops != [] {
      RevisionsCountPublishes(b, ops[..|ops| - 1], slot, address, market);
      assert ops[|ops| - 1] in ops;
    }
  }

  /** The fence agrees with what is published now. */
  predicate Agrees(fence: Fence, now: Books, slot: string, address: string, market: string) {
    && slot in now.sources && address in now.followers && market in now.books
    && fence.Matches(now.sources[slot], now.followers[address], now.sources[slot].catalog, now.books[market])
  }

  /**
   Without a retirement of the book, a fence matches exactly when none of the three was published since it was taken.
   */
  lemma FenceMatchesIff(b: Books, ops: seq<Op>, slot: string, address: string, market: string)
    requires Capture(b, slot, address, market).Some? && RetireFree(ops, market)
    ensures var fence, later := Capture(b, slot, address, market).value, Run(b, ops);
            && slot in later.sources && address in later.followers && market in later.books
            && (Agrees(fence, later, slot, address, market) <==> Published(b, ops, slot, address, market) == 0)
  {
    RevisionsCountPublishes(b, ops, slot, address, market);
  }

  /** Against a catalog of the caller's, it matches exactly when that is also the catalog the fence was taken under. */
  lemma FenceMatchesCatalogIff(b: Books, ops: seq<Op>, slot: string, address: string, market: string, catalog: string)
    requires Capture(b, slot, address, market).Some? && RetireFree(ops, market)
    ensures var fence, later := Capture(b, slot, address, market).value, Run(b, ops);
            && slot in later.sources && address in later.followers && market in later.books
            && (fence.Matches(later.sources[slot], later.followers[address], catalog, later.books[market])
                <==> Published(b, ops, slot, address, market) == 0 && catalog == b.sources[slot].catalog)
  {
    RevisionsCountPublishes(b, ops, slot, address, market);
  }

  // ---------- Runs that retire the book ----------

  lemma {:induction false} RunsCompose(b: Books, first: seq<Op>, second: seq<Op>, slot: string, address: string,
                                       market: string)
    ensures Run(b, first + second) == Run(Run(b, first), second)
    ensures Published(b, first + second, slot, address, market)
            == Published(b, first, slot, address, market) + Published(Run(b, first), second, slot, address, market)
    ensures Moved(b, first + second, slot, address) == Moved(b, first, slot, address)
                                                      + Moved(Run(b, first), second, slot, address)
  {
    if second == [] {
      assert first + second == first;
    } else {
      var n := |second| - 1;
      assert (first + second)[..|first + second| - 1] == first + second[..n];
      RunsCompose(b, first, second[..n], slot, address, market);
    }
  }

  /** Source and follower are never retired: their numbers count their publishes in every run. */
  lemma {:induction false} AccountsCount(b: Books, ops: seq<Op>, slot: string, address: string)
    requires slot in b.sources && address in b.followers
    ensures var later := Run(b, ops);
            && slot in later.sources && address in later.followers
            && later.sources[slot].revision >= b.sources[slot].revision
            && later.followers[address].revision >= b.followers[address].revision
            && (later.sources[slot].revision - b.sources[slot].revision)
               + (later.followers[address].revision - b.followers[address].revision) == Moved(b, ops, slot, address)
            && (Moved(b, ops, slot, address) == 0 ==> later.sources[slot] == b.sources[slot])
  {
    if ops != [] {
      AccountsCount(b, ops[..|ops| - 1], slot, address);
    }
  }

  /** In every run a fence matches exactly when neither account moved and the book's number is the one captured. */
  lemma AgreesIff(b: Books, ops: seq<Op>, slot: string, address: string, market: string)
    requires Capture(b, slot, address, market).Some?
    ensures var fence, later := Capture(b, slot, address, market).value, Run(b, ops);
            Agrees(fence, later, slot, address, market)
            <==> Moved(b, ops, slot, address) == 0 && BookNo(later, market) == Some(fence.book)
  {
    AccountsCount(b, ops, slot, address);
  }

  /** The book came back after a retirement under a number at or below `limit`. */
  ghost predicate Reissued(b: Books, ops: seq<Op>, market: string, limit: int) {
    exists i :: 0 <= i < |ops| && Reissues(Run(b, ops[..i]), ops[i], market, limit)
  }

  predicate Reissues(now: Books, op: Op, market: string, limit: int) {
    op.PublishBook? && op.b.market == market && BookNo(now, market).None? && op.b.revision <= limit
  }

  lemma ReissuedPrefix(b: Books, ops: seq<Op>, market: string, limit: int)
    requires ops != [] && Reissued(b, ops[..|ops| - 1], market, limit)
    ensures Reissued(b, ops, market, limit)
  {
    var init := ops[..|ops| - 1];
    var i :| 0 <= i < |init| && Reissues(Run(b, init[..i]), init[i], market, limit);
    assert init[..i] == ops[..i] && Reissues(Run(b, ops[..i]), ops[i], market, limit);
  }

  /** Until such a re-issue the book's number, if any, is above the captured one, or the book was never published. */
  lemma {:induction false} BookStaysAbove(b: Books, ops: seq<Op>, slot: string, address: string, market: string)
    requires Capture(b, slot, address, market).Some? && !Reissued(b, ops, market, b.books[market].revision)
    ensures var later, was := Run(b, ops), b.books[market].revision;
            && (BookNo(later, market).Some? ==> BookNo(later, market).value >= was)
            && (BookNo(later, market) == Some(was) ==>
                Published(b, ops, slot, address, market) == Moved(b, ops, slot, address))
  {
    if ops != [] {
      var init, was := ops[..|ops| - 1], b.books[market].revision;
      if Reissued(b, init, market, was) {
        ReissuedPrefix(b, ops, market, was);
      }
      BookStaysAbove(b, init, slot, address, market);
      assert Reissues(Run(b, init), ops[|ops| - 1], market, was) ==> Reissued(b, ops, market, was);
    }
  }

  /** In every run a stale fence can match only after the book was re-issued at or below the captured number. */
  lemma StaleMatchNeedsReissue(b: Books, ops: seq<Op>, slot: string, address: string, market: string)
    requires Capture(b, slot, address, market).Some?
    requires Agrees(Capture(b, slot, address, market).value, Run(b, ops), slot, address, market)
    ensures Published(b, ops, slot, address, market) == 0 || Reissued(b, ops, market, b.books[market].revision)
  {
    AgreesIff(b, ops, slot, address, market);
    if !Reissued(b, ops, market, b.books[market].revision) {
      BookStaysAbove(b, ops, slot, address, market);
    }
  }

  /** No later run without a further retirement makes the fence match once it is stale. */
  ghost predicate SafeFromNow(b: Books, ops: seq<Op>, slot: string, address: string, market: string)
    requires Capture(b, slot, address, market).Some?
  {
    forall later: seq<Op> :: RetireFree(later, market) ==>
      Agrees(Capture(b, slot, address, market).value, Run(Run(b, ops), later), slot, address, market)
      ==> Published(b, ops + later, slot, address, market) == 0
  }

  /**
   An account moved, or the book stands above the fence, or the fence is not stale. The last needs the publish history:
   a book re-issued at exactly the captured number looks untouched.
   */
  predicate CannotReturn(b: Books, ops: seq<Op>, slot: string, address: string, market: string)
    requires Capture(b, slot, address, market).Some?
  {
    var now := BookNo(Run(b, ops), market);
    || Moved(b, ops, slot, address) > 0
    || (now.Some? && (now.value > b.books[market].revision || Published(b, ops, slot, address, market) == 0))
  }

  /** The next `n` publishes of a book at number `from`. */
  function Climb(market: string, from: int, n: nat): seq<Op> {
    if n == 0 then [] else Climb(market, from, n - 1) + [PublishBook(BookRev(market, from + n))]
  }

  lemma {:induction false} ClimbReaches(b: Books, market: string, from: int, n: nat, slot: string, address: string)
    requires BookNo(b, market) == Some(from)
    ensures RetireFree(Climb(market, from, n), market) && Moved(b, Climb(market, from, n), slot, address) == 0
    ensures BookNo(Run(b, Climb(market, from, n)), market) == Some(from + n)
  {
    if n > 0 {
      ClimbReaches(b, market, from, n - 1, slot, address);
      var ops := Climb(market, from, n);
      assert ops[..|ops| - 1] == Climb(market, from, n - 1);
    }
  }

  /** A book that is absent, or back at or below the captured number, can be brought to it again. */
  lemma CanReturn(b: Books, ops: seq<Op>, slot: string, address: string, market: string) returns (later: seq<Op>)
    requires Capture(b, slot, address, market).Some? && !CannotReturn(b, ops, slot, address, market)
    ensures RetireFree(later, market) && Published(b, ops + later, slot, address, market) > 0
    ensures Agrees(Capture(b, slot, address, market).value, Run(Run(b, ops), later), slot, address, market)
  {
    var now, was := Run(b, ops), b.books[market].revision;
    if BookNo(now, market).None? {
      var publish := PublishBook(BookRev(market, was));
      later := [publish];
      assert later[..0] == [] && Run(now, []) == now;
    } else {
      var from := BookNo(now, market).value;
      later := Climb(market, from, was - from);
      ClimbReaches(now, market, from, was - from, slot, address);
    }
    RunsCompose(b, ops, later, slot, address, market);
    AgreesIff(b, ops + later, slot, address, market);
  }

  /** Without retirement a book's number only grows, and stays only if it is not published. */
  lemma {:induction false} BookGrows(b: Books, ops: seq<Op>, slot: string, address: string, market: string)
    requires RetireFree(ops, market) && BookNo(b, market).Some?
    ensures var later := BookNo(Run(b, ops), market);
            && later.Some? && later.value >= b.books[market].revision
            && later.value - b.books[market].revision
               == Published(b, ops, slot, address, market) - Moved(b, ops, slot, address)
  {
    if ops != [] {
      BookGrows(b, ops[..|ops| - 1], slot, address, market);
      assert ops[|ops| - 1] in ops;
    }
  }

  /**
   After any run, retirements included, a stale fence can never match again (short of a further retirement) exactly
   when an account moved, or the book is published above the captured number, or nothing was published at all.
   */
  lemma FenceIsSafeIff(b: Books, ops: seq<Op>, slot: string, address: string, market: string)
    requires Capture(b, slot, address, market).Some?
    ensures SafeFromNow(b, ops, slot, address, market) <==> CannotReturn(b, ops, slot, address, market)
  {
    if CannotReturn(b, ops, slot, address, market) {
      forall later: seq<Op> | RetireFree(later, market)
          && Agrees(Capture(b, slot, address, market).value, Run(Run(b, ops), later), slot, address, market)
        ensures Published(b, ops + later, slot, address, market) == 0
      {
        NoReturn(b, ops, later, slot, address, market);
      }
    } else {
      var later := CanReturn(b, ops, slot, address, market);
    }
  }

  lemma NoReturn(b: Books, ops: seq<Op>, later: seq<Op>, slot: string, address: string, market: string)
    requires Capture(b, slot, address, market).Some? && CannotReturn(b, ops, slot, address, market)
    requires RetireFree(later, market)
    requires Agrees(Capture(b, slot, address, market).value, Run(Run(b, ops), later), slot, address, market)
    ensures Published(b, ops + later, slot, address, market) == 0
  {
    RunsCompose(b, ops, later, slot, address, market);
    AgreesIff(b, ops + later, slot, address, market);
    BookGrows(Run(b, ops), later, slot, address, market);
    if Published(b, ops, slot, address, market) == 0 {
      NothingPublished(b, ops, slot, address, market);
    }
  }

  lemma {:induction false} NothingPublished(b: Books, ops: seq<Op>, slot: string, address: string, market: string)
    requires BookNo(b, market).Some? && Published(b, ops, slot, address, market) == 0
    ensures BookNo(Run(b, ops), market).Some? ==> BookNo(Run(b, ops), market) == BookNo(b, market)
  {
    if ops != [] {
      NothingPublished(b, ops[..|ops| - 1], slot, address, market);
    }
  }

  /** A retired book may come back under an old number, and then a stale fence matches again. */
  lemma RetiredBookCanMatchAgain()
    ensures exists b: Books, ops: seq<Op>, slot: string, address: string, market: string ::
              && Capture(b, slot, address, market).Some?
              && Published(b, ops, slot, address, market) > 0
              && var fence, later := Capture(b, slot, address, market).value, Run(b, ops);
              Agrees(fence, later, slot, address, market)
  {
    var b := Books(map["s" := SourceRev("s", 1, "k")], map["f" := FollowerRev("f", 1)], map["m" := BookRev("m", 7)]);
    var retire, publish := Op.RetireBook("m"), Op.PublishBook(BookRev("m", 7));
    assert [retire][..0] == [] && [retire, publish][..1] == [retire];
    assert Run(b, []) == b;
    var gone := Run(b, [retire]);
    assert gone == b.(books := map[]);
    assert Run(b, [retire, publish]) == Step(gone, publish) == b;
    assert Published(b, [retire, publish], "s", "f", "m") == Published(b, [retire], "s", "f", "m") + 1;
  }
}
