/** list_sort: the natural merge sort of pintos/src/lib/kernel/list.c. */
module MergeSort {
  import opened Order
  import opened LinkedList

  /** Midway through a pass over S0: DONE came out as at most RUNS runs, REST is untouched and
      starts at a run boundary. */
  ghost predicate Passing<T>(less: (T, T) -> bool, s0: seq<T>, done: seq<T>, rest: seq<T>, runs: nat) {
    && StableOf(less, done + rest, s0)
    && Runs(less, done) <= runs
    && 2 * runs + Runs(less, rest) == Runs(less, s0)
  }

  ghost predicate IsRun<T>(less: (T, T) -> bool, s: seq<T>) {
    s != [] && forall i :: 0 < i < |s| ==> !less(s[i], s[i - 1])
  }

  /** S is a run that ends where T begins. */
  ghost predicate RunBefore<T>(less: (T, T) -> bool, s: seq<T>, t: seq<T>) {
    IsRun(less, s) && (t != [] ==> less(t[0], s[|s| - 1]))
  }

  lemma RunsStep<T>(less: (T, T) -> bool, s: seq<T>, t: seq<T>)
    requires RunBefore(less, s, t)
    ensures Runs(less, s + t) == 1 + Runs(less, t)
  {
    NeighboursOneRun(less, s);
    RunsConcat(less, s, t);
    if t == [] { assert s + t == s; }
  }

  lemma MiddleMember<T>(p: seq<T>, m: seq<T>, q: seq<T>, s0: seq<T>)
    requires multiset(p + m + q) == multiset(s0)
    ensures Elems(m) <= Elems(s0)
    ensures forall x :: x in p + m + q <==> x in s0
  {
    SameElements(p + m + q, s0);
    forall x | x in m ensures x in s0 { assert x in p + m + q; }
  }

  lemma PassMerge<T>(less: (T, T) -> bool, s0: seq<T>, done: seq<T>, a: seq<T>, b: seq<T>, c: seq<T>, runs: nat)
    requires StrictWeakOrder(less, Elems(s0))
    requires Passing(less, s0, done, a + b + c, runs)
    requires RunBefore(less, a, b + c) && RunBefore(less, b, c)
    ensures Passing(less, s0, done + Merge(less, a, b), c, runs + 1)
  {
    PassStable(less, s0, done, a, b, c);
    PassSorted(less, s0, done, a, b, c);
    PassRuns(less, done, a, b, c);
  }

  lemma PassRuns<T>(less: (T, T) -> bool, done: seq<T>, a: seq<T>, b: seq<T>, c: seq<T>)
    requires RunBefore(less, a, b + c) && RunBefore(less, b, c)
    requires Sorted(less, Merge(less, a, b)) && Merge(less, a, b) != []
    ensures Runs(less, a + b + c) == 2 + Runs(less, c)
    ensures Runs(less, done + Merge(less, a, b)) <= Runs(less, done) + 1
  {
    assert a + b + c == a + (b + c);
    RunsStep(less, a, b + c);
    RunsStep(less, b, c);
    SortedIsOneRun(less, Merge(less, a, b));
    RunsConcat(less, done, Merge(less, a, b));
  }

  lemma Regroup<T>(d: seq<T>, a: seq<T>, b: seq<T>, c: seq<T>)
    ensures d + (a + b + c) == d + a + (b + c) && d + (a + b + c) == (d + a) + b + c
  {
  }

  lemma PassSorted<T>(less: (T, T) -> bool, s0: seq<T>, done: seq<T>, a: seq<T>, b: seq<T>, c: seq<T>)
    requires StrictWeakOrder(less, Elems(s0)) && multiset(done + (a + b + c)) == multiset(s0)
    requires IsRun(less, a) && IsRun(less, b)
    ensures Elems(a) <= Elems(s0) && Elems(b) <= Elems(s0) && Sorted(less, a) && Sorted(less, b)
    ensures Sorted(less, Merge(less, a, b)) && Merge(less, a, b) != []
  {
    assert a != [];
    hide StrictWeakOrder, Sorted, IsRun, Merge;
    MergeLength(less, a, b);
    Regroup(done, a, b, c);
    MiddleMember(done, a, b + c, s0);
    MiddleMember(done + a, b, c, s0);
    NeighboursSorted(less, a, Elems(s0));
    NeighboursSorted(less, b, Elems(s0));
    MergeSorted(less, a, b, Elems(s0));
  }

  lemma PassStable<T>(less: (T, T) -> bool, s0: seq<T>, done: seq<T>, a: seq<T>, b: seq<T>, c: seq<T>)
    requires StrictWeakOrder(less, Elems(s0)) && StableOf(less, done + (a + b + c), s0)
    requires IsRun(less, a) && IsRun(less, b)
    ensures StableOf(less, done + Merge(less, a, b) + c, s0)
  {
    hide StrictWeakOrder, Sorted, IsRun, Merge, Class;
    PassSorted(less, s0, done, a, b, c);
    var m := Merge(less, a, b);
    assert done + (a + b + c) == done + (a + b) + c;
    MiddleMember(done, a + b, c, s0);
    forall x | x in done + (a + b) + c ensures Class(less, x, m) == Class(less, x, a + b) {
      MergeStable(less, a, b, x, Elems(s0));
      ClassConcat(less, x, a, b);
    }
    MergeMultiset(less, a, b);
    StableMiddle(less, done, a + b, m, c);
    StableTrans(less, done + m + c, done + (a + b) + c, s0);
  }

  lemma PassLast<T>(less: (T, T) -> bool, s0: seq<T>, done: seq<T>, rest: seq<T>, runs: nat)
    requires Passing(less, s0, done, rest, runs) && RunBefore(less, rest, [])
    ensures PassOutcome(less, s0, done + rest, runs + 1)
  {
    NeighboursOneRun(less, rest);
    RunsConcat(less, done, rest);
  }

  lemma MergeElems<T>(less: (T, T) -> bool, p: seq<T>, a: seq<T>, b: seq<T>, q: seq<T>)
    ensures Elems(p + Merge(less, a, b) + q) == Elems(p + a + b + q)
  {
    var u, v := p + Merge(less, a, b) + q, p + a + b + q;
    forall x | x in u || x in v ensures x in u && x in v {
      MergeMember(less, a, b, x);
    }
    assert Elems(u) <= Elems(v) && Elems(v) <= Elems(u);
  }

  /** Cuts the untouched part of a chain at two run ends. */
  lemma CutRest(less: (Elem, Elem) -> bool, chain: seq<Elem>, done: seq<Elem>, rest: seq<Elem>,
                i: nat, m: nat, j: nat, n: nat)
    requires |chain| == n + 1 && i == 1 + |done| && n == 1 + |done| + |rest|
    requires chain[1..n] == done + rest
    requires RunEnd(less, chain, i, m, n) && if m < n then RunEnd(less, chain, m, j, n) else j == n
    ensures rest == chain[i..m] + chain[m..j] + chain[j..n] && done == chain[1..i]
    ensures m < n ==> RunBefore(less, chain[i..m], chain[m..j] + chain[j..n]) && RunBefore(less, chain[m..j], chain[j..n])
    ensures m == n ==> RunBefore(less, chain[i..n], []) && rest == chain[i..n]
  {
    assert chain[1..n] == chain[1..i] + chain[i..n];
    assert done == (done + rest)[..|done|] && chain[1..i] == chain[1..n][..|done|];
    assert rest == (done + rest)[|done|..];
    assert chain[i..n] == chain[i..m] + chain[m..j] + chain[j..n];
    assert IsRun(less, chain[i..m]) by {
      forall t | 0 < t < m - i ensures !less(chain[i..m][t], chain[i..m][t - 1]) {
        assert !less(chain[i + t], chain[i + t - 1]);
      }
    }
    if m < n {
      assert IsRun(less, chain[m..j]) by {
        forall t | 0 < t < j - m ensures !less(chain[m..j][t], chain[m..j][t - 1]) {
          assert !less(chain[m + t], chain[m + t - 1]);
        }
      }
      assert (chain[m..j] + chain[j..n])[0] == chain[m];
      assert chain[i..m][m - i - 1] == chain[m - 1];
      assert chain[m..j][j - m - 1] == chain[j - 1];
    }
  }

  lemma AfterMerge(less: (Elem, Elem) -> bool, c: seq<Elem>, c': seq<Elem>, done: seq<Elem>, done': seq<Elem>,
                   i: nat, m: nat, j: nat, n: nat)
    requires |c| == n + 1 && 1 <= i <= m <= j <= n && done == c[1..i]
    requires c' == c[..i] + Merge(less, c[i..m], c[m..j]) + c[j..]
    requires done' == done + Merge(less, c[i..m], c[m..j])
    ensures |c'| == n + 1 && Elems(c') == Elems(c)
    ensures c'[1..n] == done' + c[j..n]
    ensures 1 + |done'| <= n && c'[1 + |done'|] == c[j]
  {
    var mid := Merge(less, c[i..m], c[m..j]);
    MergeLength(less, c[i..m], c[m..j]);
    MergeElems(less, c[..i], c[i..m], c[m..j], c[j..]);
    assert c == c[..i] + c[i..m] + c[m..j] + c[j..];
    hide Merge, Elems;
    Reassembled(c, c', done, mid, i, j, n);
  }

  lemma Reassembled<T>(c: seq<T>, c': seq<T>, done: seq<T>, mid: seq<T>, i: nat, j: nat, n: nat)
    requires |c| == n + 1 && 1 <= i <= j <= n && done == c[1..i] && |mid| == j - i
    requires c' == c[..i] + mid + c[j..]
    ensures |c'| == n + 1 && c'[1..n] == done + mid + c[j..n]
    ensures 1 + |done + mid| == j && c'[j] == c[j]
  {
  }

  lemma {:induction false} MergeLength<T>(less: (T, T) -> bool, a: seq<T>, b: seq<T>)
    ensures |Merge(less, a, b)| == |a| + |b|
  {
    MergeMultiset(less, a, b);
    assert |multiset(Merge(less, a, b))| == |multiset(a)| + |multiset(b)|;
  }

  /** Finds the run that starts at A1B0 and merges the run before it, A0 .. A1B0, with it. */
  method MergeTwoRuns(list: List, less: (Elem, Elem) -> bool, a0: Elem, a1b0: Elem, ghost s0: seq<Elem>,
                      ghost done: seq<Elem>, ghost rest: seq<Elem>, ghost runs: nat,
                      ghost i: nat, ghost m: nat, ghost n: nat)
    returns (b1: Elem, ghost done': seq<Elem>, ghost rest': seq<Elem>)
    requires list.Valid() && |list.chain| == n + 1 && list.chain[1..n] == done + rest
    requires i == 1 + |done| && RunEnd(less, list.chain, i, m, n) && m < n
    requires list.chain[i] == a0 && list.chain[m] == a1b0
    requires StrictWeakOrder(less, Elems(s0)) && Passing(less, s0, done, rest, runs)
    modifies list`chain, Elems(list.chain)
    ensures list.Valid() && Elems(list.chain) == old(Elems(list.chain))
    ensures |list.chain| == n + 1 && list.chain[1..n] == done' + rest'
    ensures 1 + |done'| <= n && list.chain[1 + |done'|] == b1 && |rest'| < |rest|
    ensures Passing(less, s0, done', rest', runs + 1)
  {
    ghost var j, chain;
    chain := list.chain;
    b1, j := list.FindEndOfRun(a1b0, list.tail, less, m, n);
    CutRest(less, chain, done, rest, i, m, j, n);
    list.InplaceMerge(a0, a1b0, b1, less, i, m, j);
    done', rest' := done + Merge(less, chain[i..m], chain[m..j]), chain[j..n];
    AfterMerge(less, chain, list.chain, done, done', i, m, j, n);
    PassMerge(less, s0, done, chain[i..m], chain[m..j], rest', runs);
  }

  /** What a pass makes of S0. */
  ghost predicate PassOutcome<T>(less: (T, T) -> bool, s0: seq<T>, s1: seq<T>, runs: nat) {
    && StableOf(less, s1, s0)
    && runs == (Runs(less, s0) + 1) / 2
    && Runs(less, s1) <= runs
  }

  lemma StartPass<T>(less: (T, T) -> bool, s0: seq<T>)
    ensures [] + s0 == s0 && Passing(less, s0, [], s0, 0)
  {
    assert [] + s0 == s0;
  }

  lemma PassOver<T>(less: (T, T) -> bool, s0: seq<T>, done: seq<T>, runs: nat)
    requires Passing(less, s0, done, [], runs)
    ensures PassOutcome(less, s0, done, runs)
  {
    assert done + [] == done;
  }

  /** One pass of list_sort: merges adjacent runs pairwise and counts the runs it puts out. */
  method MergePass(list: List, less: (Elem, Elem) -> bool) returns (runs: nat)
    requires list.Valid() && StrictWeakOrder(less, Elems(list.Contents()))
    modifies list`chain, Elems(list.chain)
    ensures list.Valid() && Elems(list.chain) == old(Elems(list.chain))
    ensures PassOutcome(less, old(list.Contents()), list.Contents(), runs)
  {
    hide StrictWeakOrder, Passing, PassOutcome, RunEnd, RunBefore;
    runs := 0;
    var a0 := list.head.next;
    ghost var s0, done, rest, n := list.Contents(), [], list.Contents(), |list.chain| - 1;
    StartPass(less, s0);
    while a0 != list.tail
      invariant list.Valid() && Elems(list.chain) == old(Elems(list.chain))
      invariant |list.chain| == n + 1 && list.chain[1..n] == done + rest
      invariant 1 + |done| <= n && a0 == list.chain[1 + |done|]
      invariant Passing(less, s0, done, rest, runs)
      decreases |rest|
    {
      ghost var i := 1 + |done|;
      var a1b0, m := list.FindEndOfRun(a0, list.tail, less, i, n);
      if a1b0 == list.tail {
        CutRest(less, list.chain, done, rest, i, m, m, n);
        PassLast(less, s0, done, rest, runs);
        runs := runs + 1;
        return;
      }
      a0, done, rest := MergeTwoRuns(list, less, a0, a1b0, s0, done, rest, runs, i, m, n);
      runs := runs + 1;
    }
    assert rest == [];
    assert list.chain[1..n] == done;
    PassOver(less, s0, done, runs);
  }

  lemma SameContents(c: seq<Elem>, c': seq<Elem>, less: (Elem, Elem) -> bool)
    requires StableOf(less, c', c)
    ensures Elems(c') == Elems(c)
  {
    SameElements(c', c);
  }

  /** Sorts LIST in place: the same elements, correctly linked both ways, in order, with
      equivalent elements in their original order. */
  method Sort(list: List, less: (Elem, Elem) -> bool)
    requires list.Valid() && StrictWeakOrder(less, Elems(list.Contents()))
    modifies list`chain, Elems(list.chain)
    ensures list.Valid() && Elems(list.chain) == old(Elems(list.chain))
    ensures Sorted(less, list.Contents())
    ensures StableOf(less, list.Contents(), old(list.Contents()))
  {
    ghost var s0 := list.Contents();
    var runs := MergePass(list, less);
    while runs > 1
      invariant list.Valid() && Elems(list.chain) == old(Elems(list.chain))
      invariant StableOf(less, list.Contents(), s0)
      invariant Runs(less, list.Contents()) <= runs
      decreases runs
    {
      ghost var s1 := list.Contents();
      SameContents(s0, s1, less);
      runs := MergePass(list, less);
      StableTrans(less, list.Contents(), s1, s0);
    }
    SameContents(s0, list.Contents(), less);
    OneRunIsSorted(less, list.Contents(), Elems(s0));
  }
}
