/**
 The order Python gives the replay sort keys: tuples compare component by component, numbers by value
 and strings by code point.
 */
module KeyOrder {
  datatype Atom = Num(n: int) | Text(s: string)

  type Key = seq<Atom>

  /** Negative, zero or positive as `a` sorts before, with or after `b`. */
  function CompareText(a: string, b: string): int {
    if a == [] || b == [] then |a| - |b|
    else if a[0] < b[0] then -1
    else if b[0] < a[0] then 1
    else CompareText(a[1..], b[1..])
  }

  // Keys of one recording all have the same shape, so a number never meets a string; the model puts numbers first.
  function CompareAtom(a: Atom, b: Atom): int {
    match (a, b)
    case (Num(x), Num(y)) => x - y
    case (Text(x), Text(y)) => CompareText(x, y)
    case (Num(_), Text(_)) => -1
    case (Text(_), Num(_)) => 1
  }

  function CompareKey(a: Key, b: Key): int {
    if a == [] || b == [] then |a| - |b|
    else
      var c := CompareAtom(a[0], b[0]);
      if c != 0 then c else CompareKey(a[1..], b[1..])
  }

  predicate KeyLe(a: Key, b: Key) { CompareKey(a, b) <= 0 }

  predicate KeyLt(a: Key, b: Key) { CompareKey(a, b) < 0 }

  lemma {:induction false} TextIsOrdered(a: string, b: string)
    ensures CompareText(a, b) == 0 <==> a == b
    ensures CompareText(a, b) < 0 <==> CompareText(b, a) > 0
  {
    if a != [] && b != [] {
      TextIsOrdered(a[1..], b[1..]);
      assert a == [a[0]] + a[1..] && b == [b[0]] + b[1..];
    }
  }

  lemma {:induction false} TextIsTransitive(a: string, b: string, c: string)
    requires CompareText(a, b) <= 0 && CompareText(b, c) <= 0
    ensures CompareText(a, c) <= 0
  {
    if a != [] && b != [] && c != [] && a[0] == b[0] == c[0] {
      TextIsTransitive(a[1..], b[1..], c[1..]);
    }
  }

  lemma AtomIsOrdered(a: Atom, b: Atom)
    ensures CompareAtom(a, b) == 0 <==> a == b
    ensures CompareAtom(a, b) < 0 <==> CompareAtom(b, a) > 0
  {
    if a.Text? && b.Text? {
      TextIsOrdered(a.s, b.s);
    }
  }

  lemma AtomIsTransitive(a: Atom, b: Atom, c: Atom)
    requires CompareAtom(a, b) <= 0 && CompareAtom(b, c) <= 0
    ensures CompareAtom(a, c) <= 0
    ensures CompareAtom(a, c) == 0 ==> a == b == c
  {
    if a.Text? && b.Text? && c.Text? {
      TextIsTransitive(a.s, b.s, c.s);
    }
    AtomIsOrdered(a, b);
    AtomIsOrdered(b, c);
    AtomIsOrdered(a, c);
    AtomIsOrdered(c, b);
  }

  lemma {:induction false} KeyIsOrdered(a: Key, b: Key)
    ensures CompareKey(a, b) == 0 <==> a == b
    ensures CompareKey(a, b) < 0 <==> CompareKey(b, a) > 0
  {
    if a != [] && b != [] {
      AtomIsOrdered(a[0], b[0]);
      AtomIsOrdered(b[0], a[0]);
      KeyIsOrdered(a[1..], b[1..]);
      assert a == [a[0]] + a[1..] && b == [b[0]] + b[1..];
    }
  }

  lemma {:induction false} KeyIsTransitive(a: Key, b: Key, c: Key)
    requires KeyLe(a, b) && KeyLe(b, c)
    ensures KeyLe(a, c)
  {
    if a != [] && b != [] && c != [] {
      AtomIsTransitive(a[0], b[0], c[0]);
      AtomIsOrdered(a[0], b[0]);
      AtomIsOrdered(b[0], c[0]);
      if CompareAtom(a[0], c[0]) == 0 {
        KeyIsTransitive(a[1..], b[1..], c[1..]);
      }
    }
  }

  /** `KeyLe` is a total order on keys and `KeyLt` is its strict part. */
  lemma KeysAreTotallyOrdered()
    ensures forall a: Key, b: Key {:trigger KeyLe(a, b)} :: KeyLe(a, b) || KeyLt(b, a)
    ensures forall a: Key, b: Key {:trigger KeyLt(a, b)} :: KeyLt(a, b) <==> KeyLe(a, b) && a != b
    ensures forall a: Key, b: Key {:trigger KeyLe(a, b)} :: KeyLe(a, b) && KeyLe(b, a) ==> a == b
    ensures forall a: Key, b: Key, c: Key {:trigger KeyLe(a, b), KeyLe(b, c)} ::
              KeyLe(a, b) && KeyLe(b, c) ==> KeyLe(a, c)
  {
    forall a: Key, b: Key
      ensures KeyLe(a, b) || KeyLt(b, a)
      ensures KeyLt(a, b) <==> KeyLe(a, b) && a != b
      ensures KeyLe(a, b) && KeyLe(b, a) ==> a == b
    {
      KeyIsOrdered(a, b);
      KeyIsOrdered(b, a);
    }
    forall a: Key, b: Key, c: Key | KeyLe(a, b) && KeyLe(b, c)
      ensures KeyLe(a, c)
    {
      KeyIsTransitive(a, b, c);
    }
  }

  // ---------- The order in plain terms ----------

  /** Dictionary order: a proper prefix comes first, else the first differing character decides. */
  ghost predicate TextBefore(a: string, b: string) {
    exists n :: 0 <= n <= |a| && n <= |b| && a[..n] == b[..n] && DecidesAt(a, b, n)
  }

  predicate DecidesAt(a: string, b: string, n: nat)
    requires n <= |a| && n <= |b|
  {
    n < |b| && (n == |a| || a[n] < b[n])
  }

  lemma {:induction false} ComparesAsText(a: string, b: string)
    ensures CompareText(a, b) < 0 <==> TextBefore(a, b)
    ensures CompareText(a, b) == 0 <==> a == b
  {
    if a == [] || b == [] {
      if |a| < |b| {
        assert a[..0] == b[..0] && DecidesAt(a, b, 0);
      }
    } else {
      ComparesAsText(a[1..], b[1..]);
      if a[0] != b[0] {
        if a[0] < b[0] {
          assert a[..0] == b[..0] && DecidesAt(a, b, 0);
        }
        forall n | 0 < n <= |a| && n <= |b| ensures a[..n] != b[..n] {
          assert a[..n][0] == a[0] && b[..n][0] == b[0];
        }
      } else {
        TextTails(a, b);
      }
    }
  }

  lemma TextTails(a: string, b: string)
    requires a != [] && b != [] && a[0] == b[0]
    ensures TextBefore(a, b) <==> TextBefore(a[1..], b[1..])
    ensures a == b <==> a[1..] == b[1..]
  {
    var s, t := a[1..], b[1..];
    assert a == [a[0]] + s && b == [b[0]] + t;
    if TextBefore(a, b) {
      var n :| 0 <= n <= |a| && n <= |b| && a[..n] == b[..n] && DecidesAt(a, b, n);
      assert n > 0 && s[..n - 1] == a[..n][1..] && t[..n - 1] == b[..n][1..];
      assert DecidesAt(s, t, n - 1);
    }
    if TextBefore(s, t) {
      var n :| 0 <= n <= |s| && n <= |t| && s[..n] == t[..n] && DecidesAt(s, t, n);
      assert a[..n + 1] == [a[0]] + s[..n] && b[..n + 1] == [b[0]] + t[..n];
      assert DecidesAt(a, b, n + 1);
    }
  }

  /** The first components that differ decide. */
  lemma ComponentDecides(k: Key, l: Key, i: nat)
    requires i < |k| == |l|
    ensures CompareKey(k[i..], l[i..])
            == if CompareAtom(k[i], l[i]) != 0 then CompareAtom(k[i], l[i]) else CompareKey(k[i + 1..], l[i + 1..])
  {
    assert k[i..][1..] == k[i + 1..] && l[i..][1..] == l[i + 1..];
  }

  lemma NumbersDecide(k: Key, l: Key, i: nat, m: int, n: int)
    requires i < |k| == |l| && k[i] == Num(m) && l[i] == Num(n)
    ensures CompareKey(k[i..], l[i..]) < 0 <==> m < n || (m == n && CompareKey(k[i + 1..], l[i + 1..]) < 0)
  {
    ComponentDecides(k, l, i);
  }

  lemma TextsDecide(k: Key, l: Key, i: nat, s: string, t: string)
    requires i < |k| == |l| && k[i] == Text(s) && l[i] == Text(t)
    ensures CompareKey(k[i..], l[i..]) < 0 <==> TextBefore(s, t) || (s == t && CompareKey(k[i + 1..], l[i + 1..]) < 0)
  {
    ComponentDecides(k, l, i);
    ComparesAsText(s, t);
  }

  lemma NothingLeftDecides(k: Key, l: Key)
    requires |k| == |l|
    ensures CompareKey(k[|k|..], l[|l|..]) == 0
  {
  }
}
