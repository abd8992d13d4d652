/**
 The bounded memory of fill identities. Touching an identity moves it to the recent end; when the
 memory is over capacity the oldest identities are dropped.
 */
module FillDedupe {
  // (account, transaction hash, trade id)
  datatype FillId = FillId(account: string, txHash: string, tid: string)

  ghost predicate NoRepeats(s: seq<FillId>) { forall i, j :: 0 <= i < j < |s| ==> s[i] != s[j] }

  function Without(s: seq<FillId>, id: FillId): seq<FillId> {
    if s == [] then [] else (if s[0] == id then [] else [s[0]]) + Without(s[1..], id)
  }

  function Touch(s: seq<FillId>, id: FillId): seq<FillId> { Without(s, id) + [id] }

  function TouchAll(s: seq<FillId>, ids: seq<FillId>): seq<FillId> {
    if ids == [] then s else Touch(TouchAll(s, ids[..|ids| - 1]), ids[|ids| - 1])
  }

  /** All identities ever touched, the least recently touched first. */
  function Recency(history: seq<FillId>): seq<FillId> { TouchAll([], history) }

  /** The `cap` most recent entries. */
  function Newest(cap: nat, s: seq<FillId>): seq<FillId> { if |s| > cap then s[|s| - cap..] else s }

  /** What was touched after the last touch of `id`. */
  function SinceLast(history: seq<FillId>, id: FillId): seq<FillId>
    requires id in history
  {
    var n := |history| - 1;
    if history[n] == id then [] else SinceLast(history[..n], id) + [history[n]]
  }

  ghost function Distinct(s: seq<FillId>): set<FillId> { set id | id in s }

  lemma NoRepeatsConcat(a: seq<FillId>, b: seq<FillId>)
    ensures NoRepeats(a + b) <==> NoRepeats(a) && NoRepeats(b) && forall x <- a :: x !in b
  {
    var all := a + b;
    if NoRepeats(all) {
      assert forall i :: 0 <= i < |a| ==> all[i] == a[i];
      forall i, j | 0 <= i < j < |b| ensures b[i] != b[j] {
        assert all[|a| + i] == b[i] && all[|a| + j] == b[j];
      }
      forall i, j | 0 <= i < |a| && 0 <= j < |b| ensures a[i] != b[j] {
        assert all[i] == a[i] && all[|a| + j] == b[j];
      }
    } else {
      var i, j :| 0 <= i < j < |all| && all[i] == all[j];
      if i < |a| <= j {
        assert a[i] in a && b[j - |a|] in b;
      } else if |a| <= i {
        assert b[i - |a|] == b[j - |a|];
      }
    }
  }

  lemma {:induction false} WithoutMembers(s: seq<FillId>, id: FillId)
    ensures forall x :: x in Without(s, id) <==> x in s && x != id
    ensures NoRepeats(s) ==> NoRepeats(Without(s, id))
    ensures id !in s ==> Without(s, id) == s
  {
    if s != [] {
      WithoutMembers(s[1..], id);
      assert s == [s[0]] + s[1..];
      NoRepeatsConcat([s[0]], s[1..]);
      NoRepeatsConcat(if s[0] == id then [] else [s[0]], Without(s[1..], id));
    }
  }

  lemma {:induction false} WithoutConcat(a: seq<FillId>, b: seq<FillId>, id: FillId)
    ensures Without(a + b, id) == Without(a, id) + Without(b, id)
  {
    if a == [] {
      assert a + b == b;
    } else {
      assert (a + b)[1..] == a[1..] + b;
      WithoutConcat(a[1..], b, id);
    }
  }

  lemma WithoutMiddle(before: seq<FillId>, id: FillId, after: seq<FillId>)
    requires id !in before && id !in after
    ensures Without(before + ([id] + after), id) == before + after
  {
    WithoutConcat(before, [id] + after, id);
    WithoutConcat([id], after, id);
    WithoutMembers(before, id);
    WithoutMembers(after, id);
    assert [] + after == after;
  }

  lemma WithoutOne(s: seq<FillId>, p: nat)
    requires NoRepeats(s) && p < |s|
    ensures Without(s, s[p]) == s[..p] + s[p + 1..]
  {
    SplitAt(s, p);
    WithoutMiddle(s[..p], s[p], s[p + 1..]);
  }

  lemma SplitAt(s: seq<FillId>, p: nat)
    requires NoRepeats(s) && p < |s|
    ensures s == s[..p] + ([s[p]] + s[p + 1..])
    ensures s[p] !in s[..p] && s[p] !in s[p + 1..]
    ensures NoRepeats(s[..p]) && NoRepeats(s[p + 1..])
  {
    assert s == s[..p] + ([s[p]] + s[p + 1..]);
    NoRepeatsConcat(s[..p], [s[p]] + s[p + 1..]);
    NoRepeatsConcat([s[p]], s[p + 1..]);
  }

  lemma {:induction false} TouchAllMembers(s: seq<FillId>, ids: seq<FillId>)
    requires NoRepeats(s)
    ensures NoRepeats(TouchAll(s, ids))
    ensures forall x :: x in TouchAll(s, ids) <==> x in s || x in ids
  {
    if ids != [] {
      var init, last := ids[..|ids| - 1], ids[|ids| - 1];
      TouchAllMembers(s, init);
      WithoutMembers(TouchAll(s, init), last);
      assert ids == init + [last];
    }
  }

  lemma {:induction false} TouchAllConcat(s: seq<FillId>, a: seq<FillId>, b: seq<FillId>)
    ensures TouchAll(s, a + b) == TouchAll(TouchAll(s, a), b)
  {
    if b == [] {
      assert a + b == a;
    } else {
      assert (a + b)[..|a + b| - 1] == a + b[..|b| - 1];
      TouchAllConcat(s, a, b[..|b| - 1]);
    }
  }

  // ---------- Touching a batch twice is touching it once ----------

  function WithoutAll(s: seq<FillId>, ids: seq<FillId>): seq<FillId> {
    if s == [] then [] else (if s[0] in ids then [] else [s[0]]) + WithoutAll(s[1..], ids)
  }

  lemma {:induction false} WithoutAllThen(s: seq<FillId>, ids: seq<FillId>, id: FillId)
    ensures Without(WithoutAll(s, ids), id) == WithoutAll(s, ids + [id])
  {
    if s != [] {
      WithoutAllThen(s[1..], ids, id);
      WithoutConcat(if s[0] in ids then [] else [s[0]], WithoutAll(s[1..], ids), id);
    }
  }

  lemma {:induction false} WithoutAllNone(s: seq<FillId>)
    ensures WithoutAll(s, []) == s
  {
    if s != [] {
      WithoutAllNone(s[1..]);
    }
  }

  lemma {:induction false} TouchAllIs(s: seq<FillId>, ids: seq<FillId>)
    requires NoRepeats(ids)
    ensures TouchAll(s, ids) == WithoutAll(s, ids) + ids
  {
    if ids == [] {
      WithoutAllNone(s);
    } else {
      var init, last := ids[..|ids| - 1], ids[|ids| - 1];
      assert ids == init + [last];
      NoRepeatsConcat(init, [last]);
      TouchAllIs(s, init);
      WithoutConcat(WithoutAll(s, init), init, last);
      WithoutAllThen(s, init, last);
      WithoutMembers(init, last);
      assert Without(WithoutAll(s, init) + init, last) == WithoutAll(s, ids) + init;
      assert (WithoutAll(s, ids) + init) + [last] == WithoutAll(s, ids) + (init + [last]);
    }
  }

  lemma {:induction false} WithoutAllTwice(s: seq<FillId>, some: seq<FillId>, ids: seq<FillId>)
    requires forall id <- some :: id in ids
    ensures WithoutAll(WithoutAll(s, some) + some, ids) == WithoutAll(s, ids)
  {
    if s == [] {
      assert WithoutAll(s, some) + some == some;
      AllGone(some, ids);
    } else {
      WithoutAllTwice(s[1..], some, ids);
      var rest := WithoutAll(s[1..], some) + some;
      if s[0] in some {
        assert WithoutAll(s, some) + some == rest;
      } else {
        assert WithoutAll(s, some) + some == [s[0]] + rest;
      }
    }
  }

  lemma {:induction false} AllGone(s: seq<FillId>, ids: seq<FillId>)
    requires forall id <- s :: id in ids
    ensures WithoutAll(s, ids) == []
  {
    if s != [] {
      AllGone(s[1..], ids);
    }
  }

  /** Recording the new identities first and then refreshing the whole frame ends in frame order. */
  lemma NewThenAll(s: seq<FillId>, unseen: seq<FillId>, ids: seq<FillId>)
    requires NoRepeats(ids) && NoRepeats(unseen) && forall id <- unseen :: id in ids
    ensures TouchAll(TouchAll(s, unseen), ids) == TouchAll(s, ids)
  {
    TouchAllIs(s, unseen);
    TouchAllIs(TouchAll(s, unseen), ids);
    TouchAllIs(s, ids);
    WithoutAllTwice(s, unseen, ids);
  }

  // ---------- The bounded memory holds the most recent identities of the whole history ----------

  lemma TouchNewest(cap: nat, r: seq<FillId>, id: FillId)
    requires cap > 0 && NoRepeats(r)
    ensures Newest(cap, Touch(Newest(cap, r), id)) == Newest(cap, Touch(r, id))
  {
    if |r| > cap {
      var aged, x := r[..|r| - cap], r[|r| - cap..];
      assert r == aged + x;
      NoRepeatsConcat(aged, x);
      assert |x| == cap && Newest(cap, r) == x;
      TouchOverfull(aged, x, id);
    } else {
      assert Newest(cap, r) == r;
    }
  }

  lemma TouchOverfull(aged: seq<FillId>, x: seq<FillId>, id: FillId)
    requires |x| > 0 && NoRepeats(x) && forall a <- aged :: a !in x
    ensures Newest(|x|, Touch(aged + x, id)) == Newest(|x|, Touch(x, id))
  {
    WithoutConcat(aged, x, id);
    if id in x {
      TouchHeld(aged, x, id);
    } else {
      TouchUnheld(Without(aged, id), x, id);
      TouchUnheld([], x, id);
      WithoutMembers(x, id);
      assert [] + x == x;
    }
  }

  lemma TouchHeld(aged: seq<FillId>, x: seq<FillId>, id: FillId)
    requires NoRepeats(x) && id in x && forall a <- aged :: a !in x
    ensures Newest(|x|, Touch(aged + x, id)) == Newest(|x|, Touch(x, id))
  {
    WithoutConcat(aged, x, id);
    WithoutMembers(aged, id);
    var p :| 0 <= p < |x| && x[p] == id;
    WithoutOne(x, p);
    assert Touch(aged + x, id) == aged + Touch(x, id);
    TailOf(|x|, aged, Touch(x, id));
  }

  lemma TouchUnheld(aged: seq<FillId>, x: seq<FillId>, id: FillId)
    requires |x| > 0 && id !in x
    ensures Newest(|x|, aged + x + [id]) == x[1..] + [id]
    ensures Without(x, id) == x
  {
    WithoutMembers(x, id);
    var kept := x[1..] + [id];
    assert aged + x + [id] == (aged + [x[0]]) + kept;
    TailOf(|x|, aged + [x[0]], kept);
  }

  lemma TailOf(cap: nat, a: seq<FillId>, b: seq<FillId>)
    requires |b| == cap
    ensures Newest(cap, a + b) == b
  {
  }

  /** Dropping what is over capacity before a frame never changes what is kept after it. */
  lemma {:induction false} FrameKeepsNewest(cap: nat, r: seq<FillId>, ids: seq<FillId>)
    requires cap > 0 && NoRepeats(r)
    ensures Newest(cap, TouchAll(Newest(cap, r), ids)) == Newest(cap, TouchAll(r, ids))
  {
    if ids != [] {
      var init, last := ids[..|ids| - 1], ids[|ids| - 1];
      FrameKeepsNewest(cap, r, init);
      TouchAllMembers(r, init);
      TouchAllMembers(Newest(cap, r), init);
      TouchNewest(cap, TouchAll(r, init), last);
      TouchNewest(cap, TouchAll(Newest(cap, r), init), last);
    }
  }

  lemma FrameExtendsHistory(cap: nat, history: seq<FillId>, ids: seq<FillId>)
    requires cap > 0
    ensures Newest(cap, TouchAll(Newest(cap, Recency(history)), ids)) == Newest(cap, Recency(history + ids))
    ensures NoRepeats(Newest(cap, Recency(history + ids)))
  {
    TouchAllMembers([], history);
    TouchAllMembers([], history + ids);
    FrameKeepsNewest(cap, Recency(history), ids);
    TouchAllConcat([], history, ids);
  }

  // ---------- Which identities are remembered ----------

  /** Where the touch of another identity leaves `s[q]`, and what then comes after it. */
  lemma TouchMoves(s: seq<FillId>, q: nat, other: FillId) returns (p: nat)
    requires NoRepeats(s) && q < |s| && s[q] != other
    ensures p < |Touch(s, other)| && Touch(s, other)[p] == s[q]
    ensures Touch(s, other)[p + 1..] == Without(s[q + 1..], other) + [other]
  {
    SplitAt(s, q);
    var id, before, after := s[q], s[..q], s[q + 1..];
    WithoutConcat(before, [id] + after, other);
    WithoutConcat([id], after, other);
    assert Without([id], other) == [id];
    p := |Without(before, other)|;
    assert Touch(s, other) == Without(before, other) + ([id] + (Without(after, other) + [other]));
  }

  /** In the recency list exactly the identities touched later come after `id`. */
  lemma {:induction false} RecencyPosition(history: seq<FillId>, id: FillId) returns (p: nat)
    requires id in history
    ensures NoRepeats(Recency(history))
    ensures p < |Recency(history)| && Recency(history)[p] == id
    ensures forall x :: x in Recency(history)[p + 1..] <==> x in SinceLast(history, id)
  {
    var n := |history| - 1;
    var init, last := history[..n], history[n];
    assert history == init + [last];
    TouchAllMembers([], history);
    TouchAllMembers([], init);
    if last == id {
      p := |Recency(history)| - 1;
    } else {
      var q := RecencyPosition(init, id);
      p := TouchMoves(Recency(init), q, last);
      WithoutMembers(Recency(init)[q + 1..], last);
    }
  }

  lemma RecencyCounts(history: seq<FillId>, id: FillId) returns (p: nat)
    requires id in history
    ensures p < |Recency(history)| && Recency(history)[p] == id
    ensures NoRepeats(Recency(history))
    ensures |Recency(history)| - p - 1 == |Distinct(SinceLast(history, id))|
  {
    p := RecencyPosition(history, id);
    var later := Recency(history)[p + 1..];
    SplitAt(Recency(history), p);
    CountDistinct(later);
    assert Distinct(later) == Distinct(SinceLast(history, id));
  }

  lemma {:induction false} CountDistinct(s: seq<FillId>)
    requires NoRepeats(s)
    ensures |Distinct(s)| == |s|
  {
    if s != [] {
      CountDistinct(s[1..]);
      assert s == [s[0]] + s[1..];
      assert Distinct(s) == {s[0]} + Distinct(s[1..]);
    }
  }

  /**
   An identity counts as new exactly when it was never touched, or at least `cap` other identities
   were touched since it last was.
   */
  lemma NewIff(cap: nat, history: seq<FillId>, id: FillId)
    requires cap > 0
    ensures id !in Newest(cap, Recency(history))
            <==> (id !in history || |Distinct(SinceLast(history, id))| >= cap)
  {
    var r := Recency(history);
    TouchAllMembers([], history);
    if id in history {
      var p := RecencyCounts(history, id);
      assert forall i :: 0 <= i < |r| && r[i] == id ==> i == p;
      if |r| > cap {
        assert p >= |r| - cap ==> r[|r| - cap..][p - (|r| - cap)] == id;
      }
    }
  }

  // ---------- Deliveries over a run of accepted frames ----------

  // The distinct identities of one accepted fill frame, of either fill channel and any connection.
  datatype Touched = Touched(ids: seq<FillId>, live: bool)

  function History(frames: seq<Touched>): seq<FillId> {
    if frames == [] then [] else History(frames[..|frames| - 1]) + frames[|frames| - 1].ids
  }

  function NewOf(memory: seq<FillId>, ids: seq<FillId>): seq<FillId> {
    if ids == [] then [] else (if ids[0] in memory then [] else [ids[0]]) + NewOf(memory, ids[1..])
  }

  /** Every identity handed to the caller as a new live fill, in order. */
  function Deliveries(cap: nat, frames: seq<Touched>): seq<FillId> {
    if frames == [] then []
    else
      var n := |frames| - 1;
      Deliveries(cap, frames[..n]) +
      (if frames[n].live then NewOf(Newest(cap, Recency(History(frames[..n]))), frames[n].ids) else [])
  }

  lemma {:induction false} NewOfMembers(memory: seq<FillId>, ids: seq<FillId>)
    ensures forall x :: x in NewOf(memory, ids) <==> x in ids && x !in memory
    ensures NoRepeats(ids) ==> NoRepeats(NewOf(memory, ids))
  {
    if ids != [] {
      NewOfMembers(memory, ids[1..]);
      assert ids == [ids[0]] + ids[1..];
    }
  }

  lemma {:induction false} DeliveredWasTouched(cap: nat, frames: seq<Touched>)
    ensures forall x <- Deliveries(cap, frames) :: x in History(frames)
  {
    if frames != [] {
      var n := |frames| - 1;
      DeliveredWasTouched(cap, frames[..n]);
      NewOfMembers(Newest(cap, Recency(History(frames[..n]))), frames[n].ids);
    }
  }

  lemma {:induction false} HistoryGrows(frames: seq<Touched>, n: nat)
    requires n <= |frames|
    ensures Distinct(History(frames[..n])) <= Distinct(History(frames))
  {
    if n < |frames| {
      var m := |frames| - 1;
      HistoryGrows(frames[..m], n);
      assert frames[..m][..n] == frames[..n];
    } else {
      assert frames[..n] == frames;
    }
  }

  /**
   While no more than `cap` identities ever appear, no fill is delivered twice, whatever its channel or connection.
   */
  lemma {:induction false} DeliveredAtMostOnce(cap: nat, frames: seq<Touched>)
    requires cap > 0
    requires forall f <- frames :: NoRepeats(f.ids)
    requires |Distinct(History(frames))| <= cap
    ensures NoRepeats(Deliveries(cap, frames))
  {
    if frames != [] {
      var n := |frames| - 1;
      var past := frames[..n];
      HistoryGrows(frames, n);
      Smaller(Distinct(History(past)), Distinct(History(frames)));
      DeliveredAtMostOnce(cap, past);
      if frames[n].live {
        assert frames[n] in frames;
        var memory := Newest(cap, Recency(History(past)));
        NewOfMembers(memory, frames[n].ids);
        DeliveredWasTouched(cap, past);
        forall x | x in NewOf(memory, frames[n].ids) ensures x !in Deliveries(cap, past) {
          if x in History(past) {
            NewIff(cap, History(past), x);
            SinceLastIsSmaller(History(past), x);
          }
        }
        NoRepeatsConcat(Deliveries(cap, past), NewOf(memory, frames[n].ids));
      }
    }
  }

  lemma Smaller(a: set<FillId>, b: set<FillId>)
    requires a <= b
    ensures |a| <= |b|
  {
    assert b == a + (b - a);
    assert |b| == |a| + |b - a|;
  }

  lemma {:induction false} SinceLastIsTouched(history: seq<FillId>, id: FillId)
    requires id in history
    ensures forall x <- SinceLast(history, id) :: x in history && x != id
  {
    var n := |history| - 1;
    if history[n] != id {
      assert history == history[..n] + [history[n]];
      SinceLastIsTouched(history[..n], id);
    }
  }

  lemma SinceLastIsSmaller(history: seq<FillId>, id: FillId)
    requires id in history
    ensures |Distinct(SinceLast(history, id))| < |Distinct(history)|
  {
    SinceLastIsTouched(history, id);
    Smaller(Distinct(SinceLast(history, id)), Distinct(history) - {id});
  }
}
