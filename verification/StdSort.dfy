/** sort and binary_search of pintos/src/lib/stdlib.c: heapsort in place, with indexes counted
    from 1 as the original counts them, and bisection. */
module StdSort {
  import opened Order

  /** COMPARE is strcmp-like on S: a total preorder whose sign says which is greater. */
  ghost predicate TotalPreorder<T>(compare: (T, T) -> int, s: set<T>) {
    && (forall x, y | x in s && y in s :: compare(x, y) > 0 <==> compare(y, x) < 0)
    && (forall x, y, z | x in s && y in s && z in s && compare(x, y) <= 0 && compare(y, z) <= 0 :: compare(x, z) <= 0)
  }

  predicate NotAbove<T>(compare: (T, T) -> int, x: T, y: T) { compare(x, y) <= 0 }

  lemma Flip<T>(compare: (T, T) -> int, dom: set<T>, x: T, y: T)
    requires TotalPreorder(compare, dom) && x in dom && y in dom
    ensures compare(x, y) > 0 <==> compare(y, x) < 0
    ensures compare(x, x) == 0
  {
    assert compare(x, x) > 0 <==> compare(x, x) < 0;
  }

  lemma Transitive<T>(compare: (T, T) -> int, dom: set<T>, x: T, y: T, z: T)
    requires TotalPreorder(compare, dom) && x in dom && y in dom && z in dom
    requires NotAbove(compare, x, y) && NotAbove(compare, y, z)
    ensures NotAbove(compare, x, z)
  {
  }

  ghost predicate InOrder<T>(compare: (T, T) -> int, s: seq<T>) {
    forall p, q :: 0 <= p < q < |s| ==> NotAbove(compare, s[p], s[q])
  }

  /** Node C (counted from 1) is not above its parent. */
  predicate Under<T>(compare: (T, T) -> int, s: seq<T>, c: int)
    requires 2 <= c <= |s|
  {
    NotAbove(compare, s[c - 1], s[c / 2 - 1])
  }

  /** Among the first CNT nodes, those whose parent is LO or later form heaps. */
  ghost predicate HeapFrom<T>(compare: (T, T) -> int, s: seq<T>, lo: int, cnt: int)
    requires 0 < lo && cnt <= |s|
  {
    forall c :: 2 <= c <= cnt && lo <= c / 2 ==> Under(compare, s, c)
  }

  /** The same with node I possibly too small for its children, which still fit under I's parent. */
  ghost predicate Floating<T>(compare: (T, T) -> int, s: seq<T>, lo: int, i: int, cnt: int)
    requires 0 < lo <= i && cnt <= |s|
  {
    && (forall c :: 2 <= c <= cnt && lo <= c / 2 && c / 2 != i ==> Under(compare, s, c))
    && (forall c :: 2 <= c <= cnt && c / 2 == i && lo <= i / 2 ==> NotAbove(compare, s[c - 1], s[i / 2 - 1]))
  }

  function Swapped<T>(s: seq<T>, p: int, q: int): (r: seq<T>)
    requires 0 <= p < |s| && 0 <= q < |s|
  {
    s[p := s[q]][q := s[p]]
  }

  /** T rearranges the first CNT elements of S. */
  ghost predicate Rearranged<T>(s: seq<T>, t: seq<T>, cnt: int) {
    |t| == |s| && 0 <= cnt <= |s| && multiset(t[..cnt]) == multiset(s[..cnt]) && t[cnt..] == s[cnt..]
  }

  lemma SwappedRearranged<T>(s: seq<T>, p: int, q: int, cnt: int)
    requires 0 <= p < cnt && 0 <= q < cnt <= |s|
    ensures Rearranged(s, Swapped(s, p, q), cnt)
  {
    assert Swapped(s, p, q)[..cnt] == Swapped(s[..cnt], p, q);
  }

  lemma RearrangedElems<T>(s: seq<T>, t: seq<T>, cnt: int)
    requires Rearranged(s, t, cnt)
    ensures multiset(t) == multiset(s) && Elems(t) == Elems(s)
    ensures forall x :: x in t[..cnt] <==> x in s[..cnt]
  {
    assert s == s[..cnt] + s[cnt..] && t == t[..cnt] + t[cnt..];
    SameElements(s, t);
    SameElements(s[..cnt], t[..cnt]);
  }

  /** One step of heapify: MAX is a greatest of I and its children, and not I. */
  lemma FloatDown<T>(compare: (T, T) -> int, dom: set<T>, s: seq<T>, lo: int, i: int, cnt: int, max: int)
    requires 0 < lo <= i && cnt <= |s| && TotalPreorder(compare, dom) && Elems(s) <= dom
    requires Floating(compare, s, lo, i, cnt)
    requires 2 <= max <= cnt && max / 2 == i && compare(s[max - 1], s[i - 1]) > 0
    requires forall c :: 2 <= c <= cnt && c / 2 == i ==> NotAbove(compare, s[c - 1], s[max - 1])
    ensures Floating(compare, Swapped(s, i - 1, max - 1), lo, max, cnt)
  {
    hide TotalPreorder;
    var r := Swapped(s, i - 1, max - 1);
    assert s[max - 1] in Elems(s) && s[i - 1] in Elems(s);
    Flip(compare, dom, s[max - 1], s[i - 1]);
    forall c | 2 <= c <= cnt && lo <= c / 2 && c / 2 != max ensures Under(compare, r, c) {
      assert c / 2 != i ==> Under(compare, s, c);
    }
    forall c | 2 <= c <= cnt && c / 2 == max ensures NotAbove(compare, r[c - 1], r[max / 2 - 1]) {
      assert Under(compare, s, c);
    }
  }

  /** The index heapify calls max. */
  function Largest<T>(compare: (T, T) -> int, s: seq<T>, i: int, cnt: int): (max: int)
    requires 0 < i <= cnt <= |s|
    ensures i <= max <= cnt && (max == i || max / 2 == i)
  {
    var max := if 2 * i <= cnt && compare(s[2 * i - 1], s[i - 1]) > 0 then 2 * i else i;
    if 2 * i + 1 <= cnt && compare(s[2 * i], s[max - 1]) > 0 then 2 * i + 1 else max
  }

  lemma InDomain<T>(s: seq<T>, dom: set<T>, k: int)
    requires Elems(s) <= dom && 0 <= k < |s|
    ensures s[k] in dom
  {
    assert s[k] in Elems(s);
  }

  lemma LargestIsGreatest<T>(compare: (T, T) -> int, dom: set<T>, s: seq<T>, i: int, cnt: int)
    requires 0 < i <= cnt <= |s| && TotalPreorder(compare, dom) && Elems(s) <= dom
    ensures var max := Largest(compare, s, i, cnt);
      && (max != i ==> compare(s[max - 1], s[i - 1]) > 0)
      && (forall c :: 2 <= c <= cnt && c / 2 == i ==> NotAbove(compare, s[c - 1], s[max - 1]))
  {
    hide TotalPreorder, Elems;
    var max := Largest(compare, s, i, cnt);
    InDomain(s, dom, i - 1);
    if 2 * i <= cnt {
      InDomain(s, dom, 2 * i - 1);
      Flip(compare, dom, s[2 * i - 1], s[i - 1]);
    }
    if 2 * i + 1 <= cnt {
      InDomain(s, dom, 2 * i);
      Flip(compare, dom, s[2 * i], s[i - 1]);
      Flip(compare, dom, s[2 * i], s[2 * i - 1]);
      if max == 2 * i + 1 && compare(s[2 * i - 1], s[i - 1]) <= 0 {
        Transitive(compare, dom, s[2 * i - 1], s[i - 1], s[2 * i]);
      } else if max == 2 * i + 1 {
        Flip(compare, dom, s[2 * i - 1], s[2 * i]);
        if compare(s[2 * i], s[i - 1]) <= 0 { Transitive(compare, dom, s[2 * i], s[i - 1], s[2 * i - 1]); }
      }
    }
    forall c | 2 <= c <= cnt && c / 2 == i ensures NotAbove(compare, s[c - 1], s[max - 1]) {
      assert c == 2 * i || c == 2 * i + 1;
    }
  }

  lemma StartFloating<T>(compare: (T, T) -> int, s: seq<T>, i: int, cnt: int)
    requires 0 < i <= cnt <= |s| && HeapFrom(compare, s, i + 1, cnt)
    ensures Floating(compare, s, i, i, cnt) && Rearranged(s, s, cnt)
  {
  }

  lemma Settle<T>(compare: (T, T) -> int, dom: set<T>, s: seq<T>, lo: int, i: int, cnt: int)
    requires 0 < lo <= i <= cnt <= |s| && TotalPreorder(compare, dom) && Elems(s) <= dom
    requires Floating(compare, s, lo, i, cnt) && Largest(compare, s, i, cnt) == i
    ensures HeapFrom(compare, s, lo, cnt)
  {
    LargestIsGreatest(compare, dom, s, i, cnt);
  }

  lemma StepDown<T>(compare: (T, T) -> int, dom: set<T>, s0: seq<T>, s: seq<T>, t: seq<T>, lo: int, i: int, cnt: int, max: int)
    requires 0 < lo <= i <= cnt <= |s| && TotalPreorder(compare, dom) && Elems(s) <= dom
    requires Floating(compare, s, lo, i, cnt) && max == Largest(compare, s, i, cnt) && max != i
    requires Rearranged(s0, s, cnt) && t == Swapped(s, i - 1, max - 1)
    ensures Floating(compare, t, lo, max, cnt) && Rearranged(s0, t, cnt)
  {
    hide Floating;
    LargestIsGreatest(compare, dom, s, i, cnt);
    FloatDown(compare, dom, s, lo, i, cnt, max);
    SwappedRearranged(s, i - 1, max - 1, cnt);
  }

  method LargestChild<T>(a: array<T>, i: int, cnt: int, compare: (T, T) -> int) returns (max: int)
    requires 0 < i <= cnt <= a.Length
    ensures max == Largest(compare, a[..], i, cnt)
  {
    var left, right := 2 * i, 2 * i + 1;
    max := i;
    if left <= cnt && compare(a[left - 1], a[max - 1]) > 0 { max := left; }
    if right <= cnt && compare(a[right - 1], a[max - 1]) > 0 { max := right; }
  }

  /** Floats down the node I0 of the first CNT. */
  method Heapify<T(==)>(a: array<T>, i0: int, cnt: int, compare: (T, T) -> int, ghost dom: set<T>)
    requires 0 < i0 <= cnt <= a.Length && TotalPreorder(compare, dom) && Elems(a[..]) <= dom
    requires HeapFrom(compare, a[..], i0 + 1, cnt)
    modifies a
    ensures HeapFrom(compare, a[..], i0, cnt) && Rearranged(old(a[..]), a[..], cnt)
  {
    hide Floating, HeapFrom, TotalPreorder, Rearranged, Largest;
    ghost var s0 := a[..];
    StartFloating(compare, s0, i0, cnt);
    var i := i0;
    while true
      invariant i0 <= i <= cnt
      invariant Floating(compare, a[..], i0, i, cnt) && Rearranged(s0, a[..], cnt)
      decreases cnt - i
    {
      ghost var s := a[..];
      RearrangedElems(s0, s, cnt);
      var max := LargestChild(a, i, cnt, compare);
      if max == i {
        Settle(compare, dom, s, i0, i, cnt);
        break;
      }
      a[i - 1], a[max - 1] := a[max - 1], a[i - 1];
      assert a[..] == Swapped(s, i - 1, max - 1);
      StepDown(compare, dom, s0, s, a[..], i0, i, cnt, max);
      i := max;
    }
  }

  /** The first node of a heap is greatest. */
  lemma {:induction false} RootIsGreatest<T>(compare: (T, T) -> int, dom: set<T>, s: seq<T>, cnt: int, k: int)
    requires 1 <= k <= cnt <= |s| && TotalPreorder(compare, dom) && Elems(s) <= dom && HeapFrom(compare, s, 1, cnt)
    ensures NotAbove(compare, s[k - 1], s[0])
    decreases k
  {
    assert s[0] in Elems(s) && s[k - 1] in Elems(s) && s[k / 2] in Elems(s) + {s[k / 2]};
    if k > 1 {
      assert s[k / 2 - 1] in Elems(s) && Under(compare, s, k);
      RootIsGreatest(compare, dom, s, cnt, k / 2);
    }
  }

  /** The last |s| - CNT elements are in place: in order, and above all the others. */
  ghost predicate Placed<T>(compare: (T, T) -> int, s: seq<T>, cnt: int)
    requires 0 <= cnt <= |s|
  {
    && InOrder(compare, s[cnt..])
    && (forall x, y :: x in s[..cnt] && y in s[cnt..] ==> NotAbove(compare, x, y))
  }

  lemma PlacedKept<T>(compare: (T, T) -> int, s: seq<T>, t: seq<T>, cnt: int)
    requires Rearranged(s, t, cnt) && Placed(compare, s, cnt)
    ensures Placed(compare, t, cnt)
  {
    RearrangedElems(s, t, cnt);
  }

  /** Moving the greatest of the first CNT to their end puts one more element in place. */
  lemma PlaceRoot<T>(compare: (T, T) -> int, dom: set<T>, s: seq<T>, cnt: int)
    requires 1 < cnt <= |s| && TotalPreorder(compare, dom) && Elems(s) <= dom
    requires HeapFrom(compare, s, 1, cnt) && Placed(compare, s, cnt)
    ensures Placed(compare, Swapped(s, 0, cnt - 1), cnt - 1)
    ensures HeapFrom(compare, Swapped(s, 0, cnt - 1), 2, cnt - 1)
  {
    var t := Swapped(s, 0, cnt - 1);
    assert t[cnt - 1..] == [s[0]] + s[cnt..];
    forall x | x in t[..cnt - 1] ensures x in s[..cnt] && NotAbove(compare, x, s[0]) {
      var k :| 0 <= k < cnt - 1 && t[k] == x;
      var m := if k == 0 then cnt - 1 else k;
      assert s[..cnt][m] == x;
      RootIsGreatest(compare, dom, s, cnt, m + 1);
    }
    assert s[..cnt][0] == s[0];
    forall c | 2 <= c <= cnt - 1 && 2 <= c / 2 ensures Under(compare, t, c) {
      assert Under(compare, s, c);
    }
  }

  lemma AllPlaced<T>(compare: (T, T) -> int, s: seq<T>, cnt: int)
    requires 0 <= cnt <= 1 && cnt <= |s| && Placed(compare, s, cnt)
    ensures InOrder(compare, s)
  {
    forall p, q | 0 <= p < q < |s| ensures NotAbove(compare, s[p], s[q]) {
      assert s[q] == s[cnt..][q - cnt];
      if p >= cnt { assert s[p] == s[cnt..][p - cnt]; } else { assert s[p] == s[..cnt][p]; }
    }
  }

  lemma NoInnerNodes<T>(compare: (T, T) -> int, s: seq<T>, lo: int)
    requires |s| / 2 < lo
    ensures HeapFrom(compare, s, lo, |s|)
  {
  }

  lemma NonePlaced<T>(compare: (T, T) -> int, s: seq<T>)
    ensures Placed(compare, s, |s|)
  {
  }

  /** The first loop of sort: builds the heap bottom-up. */
  method BuildHeap<T(==)>(a: array<T>, compare: (T, T) -> int)
    requires TotalPreorder(compare, Elems(a[..]))
    modifies a
    ensures HeapFrom(compare, a[..], 1, a.Length) && Rearranged(old(a[..]), a[..], a.Length)
  {
    hide TotalPreorder, HeapFrom;
    ghost var s0 := a[..];
    var i := a.Length / 2;
    NoInnerNodes(compare, s0, i + 1);
    while i > 0
      invariant 0 <= i <= a.Length / 2 && Rearranged(s0, a[..], a.Length) && HeapFrom(compare, a[..], i + 1, a.Length)
    {
      RearrangedElems(s0, a[..], a.Length);
      Heapify(a, i, a.Length, compare, Elems(s0));
      i := i - 1;
    }
  }

  /** The body of the second loop: extracts the greatest and restores the heap. */
  method Extract<T(==)>(a: array<T>, i: int, compare: (T, T) -> int, ghost dom: set<T>)
    requires 1 < i <= a.Length && TotalPreorder(compare, dom) && Elems(a[..]) <= dom
    requires HeapFrom(compare, a[..], 1, i) && Placed(compare, a[..], i)
    modifies a
    ensures HeapFrom(compare, a[..], 1, i - 1) && Placed(compare, a[..], i - 1) && Rearranged(old(a[..]), a[..], a.Length)
  {
    hide TotalPreorder, HeapFrom, Placed;
    ghost var s := a[..];
    PlaceRoot(compare, dom, s, i);
    SwappedRearranged(s, 0, i - 1, a.Length);
    a[0], a[i - 1] := a[i - 1], a[0];
    ghost var t := a[..];
    assert t == Swapped(s, 0, i - 1);
    RearrangedElems(s, t, a.Length);
    Heapify(a, 1, i - 1, compare, dom);
    PlacedKept(compare, t, a[..], i - 1);
    RearrangedWider(t, a[..], i - 1, a.Length);
  }

  method Sort<T(==)>(a: array<T>, compare: (T, T) -> int)
    requires TotalPreorder(compare, Elems(a[..]))
    modifies a
    ensures InOrder(compare, a[..]) && multiset(a[..]) == multiset(old(a[..]))
  {
    hide TotalPreorder, HeapFrom, Placed, InOrder;
    ghost var s0 := a[..];
    BuildHeap(a, compare);
    var i := a.Length;
    NonePlaced(compare, a[..]);
    while i > 1
      invariant 0 <= i <= a.Length && Rearranged(s0, a[..], a.Length)
      invariant HeapFrom(compare, a[..], 1, i) && Placed(compare, a[..], i)
    {
      RearrangedElems(s0, a[..], a.Length);
      Extract(a, i, compare, Elems(s0));
      i := i - 1;
    }
    RearrangedElems(s0, a[..], a.Length);
    AllPlaced(compare, a[..], i);
  }

  lemma RearrangedWider<T>(s: seq<T>, t: seq<T>, cnt: int, wide: int)
    requires Rearranged(s, t, cnt) && cnt <= wide <= |s|
    ensures Rearranged(s, t, wide)
  {
    assert s[..wide] == s[..cnt] + s[cnt..][..wide - cnt] && t[..wide] == t[..cnt] + t[cnt..][..wide - cnt];
    assert s[wide..] == s[cnt..][wide - cnt..] && t[wide..] == t[cnt..][wide - cnt..];
  }

  /** One comparison decides for everything on the other side. */
  lemma Halves<T>(key: T, s: seq<T>, compare: (T, T) -> int, m: int)
    requires TotalPreorder(compare, Elems(s) + {key}) && InOrder(compare, s) && 0 <= m < |s|
    ensures compare(key, s[m]) < 0 ==> forall k :: m <= k < |s| ==> compare(key, s[k]) < 0
    ensures compare(key, s[m]) > 0 ==> forall k :: 0 <= k <= m ==> compare(key, s[k]) > 0
  {
    hide TotalPreorder;
    var dom := Elems(s) + {key};
    forall k | 0 <= k < |s|
      ensures m <= k && compare(key, s[m]) < 0 ==> compare(key, s[k]) < 0
      ensures k <= m && compare(key, s[m]) > 0 ==> compare(key, s[k]) > 0
    {
      OneSide(compare, dom, key, s[if m <= k then m else k], s[if m <= k then k else m], s, m, k);
    }
  }

  lemma OneSide<T>(compare: (T, T) -> int, dom: set<T>, key: T, x: T, y: T, s: seq<T>, m: int, k: int)
    requires TotalPreorder(compare, dom) && key in dom && InOrder(compare, s) && 0 <= m < |s| && 0 <= k < |s| && Elems(s) <= dom
    requires x == s[if m <= k then m else k] && y == s[if m <= k then k else m]
    ensures compare(key, x) < 0 ==> compare(key, y) < 0
    ensures compare(key, y) > 0 ==> compare(key, x) > 0
  {
    hide TotalPreorder, Elems;
    InDomain(s, dom, m);
    InDomain(s, dom, k);
    Flip(compare, dom, x, y);
    Flip(compare, dom, key, x);
    Flip(compare, dom, x, key);
    Flip(compare, dom, key, y);
    Flip(compare, dom, y, key);
    assert NotAbove(compare, x, y);
    if compare(key, x) < 0 && compare(key, y) >= 0 { Transitive(compare, dom, x, y, key); }
    if compare(key, y) > 0 && compare(key, x) <= 0 { Transitive(compare, dom, key, x, y); }
  }

  /** Bisection: an index that compares equal, or nothing when there is none. */
  method BinarySearch<T>(key: T, a: array<T>, compare: (T, T) -> int) returns (r: int)
    requires TotalPreorder(compare, Elems(a[..]) + {key}) && InOrder(compare, a[..])
    ensures -1 <= r < a.Length
    ensures r >= 0 ==> compare(key, a[r]) == 0
    ensures r == -1 <==> forall k :: 0 <= k < a.Length ==> compare(key, a[k]) != 0
  {
    hide TotalPreorder, InOrder, Elems;
    var first, last := 0, a.Length;
    ghost var s := a[..];
    while first < last
      invariant 0 <= first <= last <= a.Length && s == a[..]
      invariant forall k :: 0 <= k < first ==> compare(key, s[k]) > 0
      invariant forall k :: last <= k < a.Length ==> compare(key, s[k]) < 0
    {
      var range := last - first;
      var middle := first + range / 2;
      var cmp := compare(key, a[middle]);
      Halves(key, s, compare, middle);
      if cmp < 0 {
        last := middle;
      } else if cmp > 0 {
        first := middle + 1;
      } else {
        return middle;
      }
    }
    return -1;
  }
}
