/** Sortedness, runs and stability of sequences under a caller-supplied "less" function: the
    vocabulary in which list_sort (pintos/src/lib/kernel/list.c) is specified.  An element is
    compared only by LESS, so two different elements may be equivalent. */
module Order {

  /** LESS is a strict weak order on the elements of S. */
  ghost predicate StrictWeakOrder<T>(less: (T, T) -> bool, s: set<T>) {
    && (forall x, y | x in s && y in s && less(x, y) :: !less(y, x))
    && (forall x, y, z | x in s && y in s && z in s && less(x, z) :: less(x, y) || less(y, z))
  }

  ghost function Elems<T>(s: seq<T>): set<T> { set x | x in s }

  ghost predicate Sorted<T>(less: (T, T) -> bool, s: seq<T>) {
    forall i, j :: 0 <= i < j < |s| ==> !less(s[j], s[i])
  }

  predicate Equivalent<T>(less: (T, T) -> bool, x: T, y: T) { !less(x, y) && !less(y, x) }

  /** The elements of S equivalent to X, in their order. */
  function Class<T>(less: (T, T) -> bool, x: T, s: seq<T>): seq<T> {
    if s == [] then []
    else (if Equivalent(less, x, s[0]) then [s[0]] else []) + Class(less, x, s[1..])
  }

  /** OUT rearranges IN and keeps equivalent elements in their order. */
  ghost predicate StableOf<T>(less: (T, T) -> bool, out: seq<T>, inp: seq<T>) {
    && multiset(out) == multiset(inp)
    && forall x | x in inp :: Class(less, x, out) == Class(less, x, inp)
  }

  /** Number of maximal nondecreasing runs. */
  function Runs<T>(less: (T, T) -> bool, s: seq<T>): nat {
    if |s| == 0 then 0
    else if |s| == 1 then 1
    else (if less(s[1], s[0]) then 1 else 0) + Runs(less, s[1..])
  }

  /** Merges two sequences, taking from A on ties. */
  function Merge<T>(less: (T, T) -> bool, a: seq<T>, b: seq<T>): seq<T>
    decreases |a| + |b|
  {
    if a == [] then b
    else if b == [] then a
    else if !less(b[0], a[0]) then [a[0]] + Merge(less, a[1..], b)
    else [b[0]] + Merge(less, a, b[1..])
  }

  // ---------- classes and stability

  lemma {:induction false} ClassConcat<T>(less: (T, T) -> bool, x: T, a: seq<T>, b: seq<T>)
    ensures Class(less, x, a + b) == Class(less, x, a) + Class(less, x, b)
  {
    if a == [] {
      assert a + b == b;
    } else {
      ClassConcat(less, x, a[1..], b);
      assert (a + b)[1..] == a[1..] + b;
    }
  }

  lemma {:induction false} ClassEmpty<T>(less: (T, T) -> bool, x: T, s: seq<T>)
    requires forall y | y in s :: !Equivalent(less, x, y)
    ensures Class(less, x, s) == []
  {
    if s != [] { ClassEmpty(less, x, s[1..]); }
  }

  lemma SameElements<T>(a: seq<T>, b: seq<T>)
    requires multiset(a) == multiset(b)
    ensures forall x :: x in a <==> x in b
    ensures |a| == |b|
  {
    forall x ensures x in a <==> x in b {
      assert x in multiset(a) <==> x in multiset(b);
    }
    assert |multiset(a)| == |multiset(b)|;
  }

  lemma StableTrans<T>(less: (T, T) -> bool, a: seq<T>, b: seq<T>, c: seq<T>)
    requires StableOf(less, a, b) && StableOf(less, b, c)
    ensures StableOf(less, a, c)
  {
    SameElements(b, c);
  }

  /** Rearranging a middle part stably rearranges the whole stably. */
  lemma StableMiddle<T>(less: (T, T) -> bool, p: seq<T>, m: seq<T>, m': seq<T>, q: seq<T>)
    requires multiset(m') == multiset(m)
    requires forall x | x in p + m + q :: Class(less, x, m') == Class(less, x, m)
    ensures StableOf(less, p + m' + q, p + m + q)
  {
    forall x | x in p + m + q
      ensures Class(less, x, p + m' + q) == Class(less, x, p + m + q)
    {
      ClassConcat(less, x, p + m', q);
      ClassConcat(less, x, p, m');
      ClassConcat(less, x, p + m, q);
      ClassConcat(less, x, p, m);
    }
  }

  // ---------- merging

  lemma {:induction false} MergeMultiset<T>(less: (T, T) -> bool, a: seq<T>, b: seq<T>)
    ensures multiset(Merge(less, a, b)) == multiset(a) + multiset(b)
    decreases |a| + |b|
  {
    if a != [] && b != [] {
      assert a == [a[0]] + a[1..];
      assert b == [b[0]] + b[1..];
      if !less(b[0], a[0]) { MergeMultiset(less, a[1..], b); } else { MergeMultiset(less, a, b[1..]); }
    }
  }

  lemma MergeMember<T>(less: (T, T) -> bool, a: seq<T>, b: seq<T>, x: T)
    ensures x in Merge(less, a, b) <==> x in a || x in b
  {
    MergeMultiset(less, a, b);
    assert x in multiset(Merge(less, a, b)) <==> x in multiset(a) + multiset(b);
  }

  lemma SortedCons<T>(less: (T, T) -> bool, x: T, s: seq<T>)
    requires Sorted(less, s) && forall y | y in s :: !less(y, x)
    ensures Sorted(less, [x] + s)
  {
  }

  lemma {:induction false} MergeSorted<T>(less: (T, T) -> bool, a: seq<T>, b: seq<T>, dom: set<T>)
    requires StrictWeakOrder(less, dom) && Elems(a) <= dom && Elems(b) <= dom
    requires Sorted(less, a) && Sorted(less, b)
    ensures Sorted(less, Merge(less, a, b))
    decreases |a| + |b|
  {
    if a != [] && b != [] {
      if !less(b[0], a[0]) {
        MergeSorted(less, a[1..], b, dom);
        forall y | y in Merge(less, a[1..], b) ensures !less(y, a[0]) {
          MergeMember(less, a[1..], b, y);
          MergeHead(less, a, b, y, dom);
        }
        SortedCons(less, a[0], Merge(less, a[1..], b));
      } else {
        MergeSorted(less, a, b[1..], dom);
        forall y | y in Merge(less, a, b[1..]) ensures !less(y, b[0]) {
          MergeMember(less, a, b[1..], y);
          MergeHead(less, b, a, y, dom);
        }
        SortedCons(less, b[0], Merge(less, a, b[1..]));
      }
    }
  }

  /** The smaller head is below everything that remains. */
  lemma MergeHead<T>(less: (T, T) -> bool, a: seq<T>, b: seq<T>, y: T, dom: set<T>)
    requires StrictWeakOrder(less, dom) && Elems(a) <= dom && Elems(b) <= dom
    requires Sorted(less, a) && Sorted(less, b) && a != [] && b != []
    requires !less(b[0], a[0]) && (y in a[1..] || y in b)
    ensures !less(y, a[0])
  {
    assert a[0] in Elems(a) && b[0] in Elems(b);
    if y in a[1..] {
      var i :| 1 <= i < |a| && a[i] == y;
    } else {
      var i :| 0 <= i < |b| && b[i] == y;
      assert y in Elems(b);
    }
  }

  /** Merging is stable: every equivalence class of A comes before that of B. */
  lemma {:induction false} MergeStable<T>(less: (T, T) -> bool, a: seq<T>, b: seq<T>, x: T, dom: set<T>)
    requires StrictWeakOrder(less, dom) && Elems(a) <= dom && Elems(b) <= dom && x in dom
    requires Sorted(less, a)
    ensures Class(less, x, Merge(less, a, b)) == Class(less, x, a) + Class(less, x, b)
    decreases |a| + |b|
  {
    if a != [] && b != [] {
      if !less(b[0], a[0]) {
        MergeStable(less, a[1..], b, x, dom);
        ClassCons(less, x, a[0], Merge(less, a[1..], b));
      } else {
        MergeStable(less, a, b[1..], x, dom);
        ClassCons(less, x, b[0], Merge(less, a, b[1..]));
        if Equivalent(less, x, b[0]) {
          NoneEquivalent(less, a, b[0], x, dom);
          assert Class(less, x, a) + Class(less, x, b[1..]) == Class(less, x, b[1..]);
        }
      }
    }
  }

  lemma ClassCons<T>(less: (T, T) -> bool, x: T, h: T, t: seq<T>)
    ensures Class(less, x, [h] + t) == (if Equivalent(less, x, h) then [h] else []) + Class(less, x, t)
  {
    assert ([h] + t)[1..] == t;
  }

  lemma NoneEquivalent<T>(less: (T, T) -> bool, a: seq<T>, y: T, x: T, dom: set<T>)
    requires StrictWeakOrder(less, dom) && Elems(a) <= dom && x in dom && y in dom
    requires Sorted(less, a) && a != [] && less(y, a[0]) && Equivalent(less, x, y)
    ensures Class(less, x, a) == []
  {
    forall z | z in a ensures !Equivalent(less, x, z) {
      assert z in Elems(a) && a[0] in Elems(a);
    }
    ClassEmpty(less, x, a);
  }

  // ---------- runs

  lemma {:induction false} RunsConcat<T>(less: (T, T) -> bool, a: seq<T>, b: seq<T>)
    ensures Runs(less, a + b) <= Runs(less, a) + Runs(less, b)
    ensures a != [] && b != [] && less(b[0], a[|a| - 1]) ==> Runs(less, a + b) == Runs(less, a) + Runs(less, b)
    decreases |a|
  {
    if a == [] {
      assert a + b == b;
    } else if b == [] {
      assert a + b == a;
    } else {
      RunsConcat(less, a[1..], b);
      assert (a + b)[1..] == a[1..] + b;
    }
  }

  lemma {:induction false} SortedIsOneRun<T>(less: (T, T) -> bool, s: seq<T>)
    requires s != [] && Sorted(less, s)
    ensures Runs(less, s) == 1
  {
    if |s| > 1 { SortedIsOneRun(less, s[1..]); }
  }

  lemma {:induction false} OneRunIsSorted<T>(less: (T, T) -> bool, s: seq<T>, dom: set<T>)
    requires StrictWeakOrder(less, dom) && Elems(s) <= dom && Runs(less, s) <= 1
    ensures Sorted(less, s)
  {
    if |s| > 1 {
      RunsPositive(less, s[1..]);
      OneRunIsSorted(less, s[1..], dom);
      forall y | y in s[1..] ensures !less(y, s[0]) {
        assert y in Elems(s) && s[0] in Elems(s) && s[1] in Elems(s);
        var i :| 1 <= i < |s| && s[i] == y;
        assert i == 1 || !less(s[1..][i - 1], s[1..][0]);
      }
      SortedCons(less, s[0], s[1..]);
      assert s == [s[0]] + s[1..];
    }
  }

  lemma {:induction false} RunsPositive<T>(less: (T, T) -> bool, s: seq<T>)
    requires s != []
    ensures Runs(less, s) >= 1
  {
    if |s| > 1 { RunsPositive(less, s[1..]); }
  }

  /** Neighbours in order make the whole in order. */
  lemma {:induction false} NeighboursSorted<T>(less: (T, T) -> bool, s: seq<T>, dom: set<T>)
    requires StrictWeakOrder(less, dom) && Elems(s) <= dom
    requires forall i :: 0 < i < |s| ==> !less(s[i], s[i - 1])
    ensures Sorted(less, s)
  {
    if |s| > 0 { NeighboursOneRun(less, s); }
    OneRunIsSorted(less, s, dom);
  }

  lemma {:induction false} NeighboursOneRun<T>(less: (T, T) -> bool, s: seq<T>)
    requires s != [] && forall i :: 0 < i < |s| ==> !less(s[i], s[i - 1])
    ensures Runs(less, s) == 1
  {
    if |s| > 1 {
      assert !less(s[1], s[1 - 1]);
      forall i | 0 < i < |s[1..]| ensures !less(s[1..][i], s[1..][i - 1]) {
        assert !less(s[i + 1], s[i + 1 - 1]);
      }
      NeighboursOneRun(less, s[1..]);
    }
  }
}
