/** Sequences without repetitions, sizes of sets, and intervals of naturals. */
module Seqs {
  ghost predicate NoDup<T>(s: seq<T>) { forall i, j :: 0 <= i < j < |s| ==> s[i] != s[j] }

  lemma NoDupEnd<T>(w: seq<T>, t: T)
    requires NoDup(w) && t !in w
    ensures NoDup(w + [t]) && (forall u :: u in w + [t] <==> u in w || u == t)
  {
    assert (w + [t])[|w|] == t;
  }

  lemma NoDupFront<T>(w: seq<T>, t: T)
    requires NoDup(w) && t !in w
    ensures NoDup([t] + w) && (forall u :: u in [t] + w <==> u in w || u == t)
  {
  }

  lemma NoDupTail<T>(w: seq<T>)
    requires NoDup(w) && w != []
    ensures NoDup(w[1..]) && w[0] !in w[1..] && w[0] in w && (forall u :: u in w <==> u in w[1..] || u == w[0])
  {
    assert w == [w[0]] + w[1..];
  }

  lemma NoDupJoin<T>(a: seq<T>, b: seq<T>)
    requires NoDup(a) && NoDup(b) && forall x :: x in a ==> x !in b
    ensures NoDup(a + b)
  {
    var c := a + b;
    forall i, j | 0 <= i < j < |c| ensures c[i] != c[j] {
      assert i < |a| ==> c[i] in a;
      assert j >= |a| ==> c[j] in b;
    }
  }

  /** S without the elements of DROP, in order. */
  function Minus<T(==)>(s: seq<T>, drop: set<T>): (r: seq<T>) {
    if s == [] then [] else (if s[0] in drop then [] else [s[0]]) + Minus(s[1..], drop)
  }

  lemma {:induction false} MinusMember<T>(s: seq<T>, drop: set<T>)
    ensures forall x :: x in Minus(s, drop) <==> x in s && x !in drop
  {
    if s != [] {
      MinusMember(s[1..], drop);
      assert s == [s[0]] + s[1..];
    }
  }

  lemma {:induction false} MinusNoDup<T>(s: seq<T>, drop: set<T>)
    requires NoDup(s)
    ensures NoDup(Minus(s, drop))
  {
    if s != [] {
      NoDupTail(s);
      MinusNoDup(s[1..], drop);
      MinusMember(s[1..], drop);
      if s[0] !in drop { NoDupFront(Minus(s[1..], drop), s[0]); } else { assert Minus(s, drop) == Minus(s[1..], drop); }
    }
  }

  lemma {:induction false} MinusTwice<T>(s: seq<T>, a: set<T>, b: set<T>)
    ensures Minus(Minus(s, a), b) == Minus(s, a + b)
  {
    if s != [] {
      MinusTwice(s[1..], a, b);
      var r := Minus(s[1..], a);
      if s[0] in a { assert Minus(s, a) == r; } else { assert Minus(s, a)[1..] == r; }
    }
  }

  lemma {:induction false} MinusNothing<T>(s: seq<T>)
    ensures Minus(s, {}) == s
  {
    if s != [] { MinusNothing(s[1..]); }
  }

  lemma SubsetSize<T>(a: set<T>, b: set<T>)
    requires a <= b
    ensures |a| <= |b| && (|a| == |b| ==> a == b)
  {
    assert b == a + (b - a);
  }

  predicate InInterval(a: nat, n: nat, x: nat) { a <= x < a + n }

  /** The N naturals from A on. */
  ghost function Interval(a: nat, n: nat): set<nat> { set x: nat | x < a + n && InInterval(a, n, x) }

  lemma {:induction false} IntervalSize(a: nat, n: nat)
    ensures |Interval(a, n)| == n
  {
    if n > 0 {
      IntervalSize(a, n - 1);
      assert Interval(a, n) == Interval(a, n - 1) + {a + n - 1};
    }
  }

  lemma {:induction false} NoDupSize<T>(s: seq<T>, xs: set<T>)
    requires NoDup(s) && forall x :: x in s <==> x in xs
    ensures |s| == |xs|
  {
    if s == [] {
      assert xs == {};
    } else {
      NoDupTail(s);
      NoDupSize(s[1..], xs - {s[0]});
    }
  }
}
