/** A stable sort by a comparison, in the place of the program's `list.sort`, `sorted` and `ORDER BY`. */
module Sorting {
  ghost predicate Ordered<T(!new)>(s: seq<T>, le: (T, T) -> bool) { forall i, j :: 0 <= i < j < |s| ==> le(s[i], s[j]) }

  ghost predicate Transitive<T(!new)>(le: (T, T) -> bool) { forall a, b, c :: le(a, b) && le(b, c) ==> le(a, c) }

  /** Puts `x` before the first element it may precede, so before its equals. */
  function Insert<T>(x: T, s: seq<T>, le: (T, T) -> bool): seq<T> {
    if s == [] || le(x, s[0]) then [x] + s else [s[0]] + Insert(x, s[1..], le)
  }

  function Sort<T>(s: seq<T>, le: (T, T) -> bool): seq<T> {
    if s == [] then [] else Insert(s[0], Sort(s[1..], le), le)
  }

  lemma {:induction false} InsertMembers<T>(x: T, s: seq<T>, le: (T, T) -> bool)
    ensures multiset(Insert(x, s, le)) == multiset{x} + multiset(s)
    ensures |Insert(x, s, le)| == |s| + 1
    ensures forall y :: y in Insert(x, s, le) <==> y == x || y in s
  {
    if s == [] || le(x, s[0]) {
    } else {
      InsertMembers(x, s[1..], le);
      assert s == [s[0]] + s[1..];
    }
  }

  lemma {:induction false} InsertOrdered<T(!new)>(x: T, s: seq<T>, le: (T, T) -> bool)
    requires Transitive(le) && Ordered(s, le)
    requires forall y <- s :: le(x, y) || le(y, x)
    ensures Ordered(Insert(x, s, le), le)
  {
    if s == [] {
    } else if le(x, s[0]) {
      forall y | y in s ensures le(x, y) {
        var i :| 0 <= i < |s| && s[i] == y;
        assert i > 0 ==> le(s[0], s[i]);
      }
    } else {
      InsertOrdered(x, s[1..], le);
      InsertMembers(x, s[1..], le);
      assert s[0] in s && le(s[0], x);
      forall y | y in Insert(x, s[1..], le) ensures le(s[0], y) {
        if y != x {
          var i :| 1 <= i < |s| && s[i] == y;
        }
      }
    }
  }

  lemma {:induction false} SortMembers<T>(s: seq<T>, le: (T, T) -> bool)
    ensures multiset(Sort(s, le)) == multiset(s)
    ensures forall y :: y in Sort(s, le) <==> y in s
  {
    if s != [] {
      SortMembers(s[1..], le);
      InsertMembers(s[0], Sort(s[1..], le), le);
      assert s == [s[0]] + s[1..];
    }
  }

  /** Where any two elements compare, the sorted sequence is in order. */
  lemma {:induction false} SortOrders<T(!new)>(s: seq<T>, le: (T, T) -> bool)
    requires Transitive(le) && forall a, b :: le(a, b) || le(b, a)
    ensures Ordered(Sort(s, le), le)
  {
    if s != [] {
      SortOrders(s[1..], le);
      InsertOrdered(s[0], Sort(s[1..], le), le);
    }
  }
}
