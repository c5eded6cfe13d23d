/** The intrusive doubly linked list of pintos/src/lib/kernel/list.c: two sentinels, and every
    operation by relinking prev and next pointers in place. */
module LinkedList {
  import opened Order
  import opened Seqs

  class Elem {
    var prev: Elem?
    var next: Elem?

    constructor ()
      ensures prev == null && next == null
    {
      prev, next := null, null;
    }
  }

  /** No element occurs twice.  Stated by counting; the lemmas below give it by indices. */
  ghost predicate Distinct<T>(c: seq<T>) { |Elems(c)| == |c| }

  lemma {:induction false} ElemsBound<T>(c: seq<T>)
    ensures |Elems(c)| <= |c|
  {
    if c != [] {
      var d := c[..|c| - 1];
      ElemsBound(d);
      assert c == d + [c[|c| - 1]];
      assert Elems(c) == Elems(d) + {c[|c| - 1]};
    }
  }

  lemma Unique<T>(c: seq<T>, i: nat, j: nat)
    requires Distinct(c) && i < |c| && j < |c| && c[i] == c[j]
    ensures i == j
  {
    if i < j { UniqueBelow(c, i, j); } else if j < i { UniqueBelow(c, j, i); }
  }

  lemma UniqueBelow<T>(c: seq<T>, i: nat, j: nat)
    requires i < j < |c| && c[i] == c[j]
    ensures !Distinct(c)
  {
    var d := c[..j] + c[j + 1..];
    ElemsBound(d);
    assert c == c[..j] + [c[j]] + c[j + 1..];
    assert c[i] == d[i];
    assert Elems(c) == Elems(d);
  }

  lemma DistinctIndices<T>(c: seq<T>)
    requires Distinct(c)
    ensures NoDup(c)
  {
    forall i, j | 0 <= i < j < |c| ensures c[i] != c[j] {
      if c[i] == c[j] { Unique(c, i, j); }
    }
  }

  lemma {:induction false} IndicesDistinct<T>(c: seq<T>)
    requires NoDup(c)
    ensures Distinct(c)
  {
    if c != [] {
      var d := c[..|c| - 1];
      IndicesDistinct(d);
      assert c == d + [c[|c| - 1]];
      assert Elems(c) == Elems(d) + {c[|c| - 1]};
    }
  }

  lemma OnlyAt<T>(c: seq<T>, k: nat)
    requires Distinct(c) && k < |c|
    ensures forall t :: 0 <= t < |c| && t != k ==> c[t] != c[k]
  {
    DistinctIndices(c);
  }

  lemma DistinctCut<T>(c: seq<T>, i: nat, j: nat)
    requires Distinct(c) && i <= j <= |c|
    ensures Distinct(c[..i] + c[j..]) && Distinct(c[i..j])
    ensures Elems(c[i..j]) !! Elems(c[..i] + c[j..])
  {
    DistinctIndices(c);
    IndicesDistinct(c[..i] + c[j..]);
    IndicesDistinct(c[i..j]);
  }

  lemma DistinctJoin<T>(c: seq<T>, p: nat, piece: seq<T>)
    requires Distinct(c) && Distinct(piece) && Elems(piece) !! Elems(c) && p <= |c|
    ensures Distinct(c[..p] + piece + c[p..])
  {
    assert c == c[..p] + c[p..];
    assert Elems(c[..p] + piece + c[p..]) == Elems(c) + Elems(piece);
  }

  /** Neighbours in C point at each other. */
  ghost predicate Linked(c: seq<Elem>)
    reads c
  {
    && (forall i {:trigger c[i].next} :: 0 <= i < |c| - 1 ==> c[i].next == c[i + 1])
    && (forall i {:trigger c[i].prev} :: 0 < i < |c| ==> c[i].prev == c[i - 1])
  }

  /** Following next leads from each element of C to the one behind it. */
  ghost predicate Forward(c: seq<Elem>)
    reads c
  {
    forall i {:trigger c[i].next} :: 0 <= i < |c| - 1 ==> c[i].next == c[i + 1]
  }

  /** C is closed to a ring. */
  ghost predicate Ring(c: seq<Elem>)
    reads c
  {
    c != [] && Linked(c) && c[|c| - 1].next == c[0] && c[0].prev == c[|c| - 1]
  }

  // ---------- list_splice, first part

  /** C was linked; then C[I - 1] and C[J] were made neighbours. */
  ghost predicate Bridged(c: seq<Elem>, i: nat, j: nat)
    requires 1 <= i < j < |c|
    reads c
  {
    && c[i - 1].next == c[j] && c[j].prev == c[i - 1]
    && (forall t {:trigger c[t].next} :: 0 <= t < |c| - 1 && t != i - 1 ==> c[t].next == c[t + 1])
    && (forall t {:trigger c[t].prev} :: 0 < t < |c| && t != j ==> c[t].prev == c[t - 1])
  }

  /** Cleanly removes FIRST .. LAST (inclusive) from the chain C. */
  method Bridge(first: Elem, last: Elem, ghost c: seq<Elem>, ghost i: nat, ghost j: nat,
                ghost a: Elem, ghost b: Elem)
    requires Linked(c) && Distinct(c) && 1 <= i < j < |c| && c[i] == first && c[j - 1] == last
    requires a == c[i - 1] && b == c[j]
    modifies a`next, b`prev
    ensures Bridged(c, i, j)
  {
    hide Distinct;
    OnlyAt(c, i - 1);
    OnlyAt(c, j);
    first.prev.next := last.next;
    last.next.prev := first.prev;
  }

  lemma CutOut(c: seq<Elem>, i: nat, j: nat)
    requires 1 <= i < j < |c| && Bridged(c, i, j)
    ensures Linked(Cut(c, i, j)) && Linked(c[i..j])
  {
    var d := c[..i] + c[j..];
    forall t | 0 <= t < |d| - 1 ensures d[t].next == d[t + 1] { assert d[t] == if t < i then c[t] else c[t + (j - i)]; }
    forall t | 0 < t < |d| ensures d[t].prev == d[t - 1] { assert d[t] == if t < i then c[t] else c[t + (j - i)]; }
  }

  // ---------- list_splice, second part

  /** C was linked; then FIRST .. LAST were linked in between GAP and BEFORE. */
  ghost predicate Rewired(c: seq<Elem>, before: Elem, first: Elem, last: Elem, gap: Elem)
    reads c
  {
    && (forall t {:trigger c[t].next} :: 0 <= t < |c| ==>
          && (c[t] == gap ==> c[t].next == first)
          && (c[t] == last && c[t] != gap ==> c[t].next == before)
          && (c[t] != gap && c[t] != last && t < |c| - 1 ==> c[t].next == c[t + 1]))
    && (forall t {:trigger c[t].prev} :: 0 <= t < |c| ==>
          && (c[t] == before ==> c[t].prev == last)
          && (c[t] == first && c[t] != before ==> c[t].prev == gap)
          && (c[t] != before && c[t] != first && 0 < t ==> c[t].prev == c[t - 1]))
  }

  method Relink(before: Elem, first: Elem, last: Elem, ghost gap: Elem, ghost c: seq<Elem>, ghost d: seq<Elem>)
    requires before.prev == gap && Linked(c) && Linked(d)
    modifies first`prev, last`next, before`prev, gap`next
    ensures Rewired(c, before, first, last, gap) && Rewired(d, before, first, last, gap)
  {
    first.prev := before.prev;
    last.next := before;
    before.prev.next := first;
    before.prev := last;
  }

  ghost predicate Apart(c: seq<Elem>, d: seq<Elem>) {
    NoDup(c) && NoDup(d) && d != [] && forall e :: e in c ==> e !in d
  }

  /** BEFORE at Q of D: one chain again. */
  lemma JoinedOutside(d: seq<Elem>, piece: seq<Elem>, q: nat)
    requires Apart(d, piece) && 1 <= q < |d|
    requires Rewired(d, d[q], piece[0], piece[|piece| - 1], d[q - 1])
    requires Rewired(piece, d[q], piece[0], piece[|piece| - 1], d[q - 1])
    ensures Linked(Spliced(d, piece, q))
  {
    var c, n := d[..q] + piece + d[q..], |piece|;
    assert d[q] in d && d[q - 1] in d && piece[0] in piece && piece[n - 1] in piece;
    forall t | 0 <= t < |c| - 1 ensures c[t].next == c[t + 1] {
      assert c[t] == if t < q then d[t] else if t < q + n then piece[t - q] else d[t - n];
    }
    forall t | 0 < t < |c| ensures c[t].prev == c[t - 1] {
      assert c[t] == if t < q then d[t] else if t < q + n then piece[t - q] else d[t - n];
    }
  }

  /** BEFORE inside PIECE: two rings. */
  lemma SplitInside(d: seq<Elem>, piece: seq<Elem>, q: nat)
    requires Apart(d, piece) && 0 < q < |piece|
    requires Rewired(d, piece[q], piece[0], piece[|piece| - 1], piece[q - 1])
    requires Rewired(piece, piece[q], piece[0], piece[|piece| - 1], piece[q - 1])
    ensures Linked(d) && Ring(piece[..q]) && Ring(piece[q..])
  {
    assert piece[q] in piece && piece[q - 1] in piece && piece[0] in piece && piece[|piece| - 1] in piece;
    forall t | 0 <= t < |d| - 1 ensures d[t].next == d[t + 1] { assert d[t] in d; }
    forall t | 0 < t < |d| ensures d[t].prev == d[t - 1] { assert d[t] in d; }
    assert piece[0].prev == piece[q - 1] && piece[q - 1].next == piece[0];
  }

  /** BEFORE the first of PIECE, which element M of D still precedes: the way from the front of D ends in a ring. */
  lemma LoopedInside(d: seq<Elem>, piece: seq<Elem>, m: nat)
    requires Apart(d, piece) && m < |d|
    requires Rewired(d, piece[0], piece[0], piece[|piece| - 1], d[m])
    requires Rewired(piece, piece[0], piece[0], piece[|piece| - 1], d[m])
    ensures Forward(d[..m + 1] + piece) && piece[|piece| - 1].next == piece[0]
  {
    var c := d[..m + 1] + piece;
    assert d[m] in d && piece[0] in piece && piece[|piece| - 1] in piece;
    forall t | 0 <= t < |c| - 1 ensures c[t].next == c[t + 1] {
      assert c[t] == if t <= m then d[t] else piece[t - m - 1];
    }
  }

  /** Following next from an element of such a way never leaves it. */
  lemma {:induction false} StaysOn(way: seq<Elem>, k: nat, c: seq<Elem>)
    requires Forward(way) && k < |way| && way[|way| - 1].next == way[k] && c != [] && c[0] in way && Forward(c)
    ensures forall x :: x in c ==> x in way
    decreases |c|
  {
    if |c| > 1 {
      assert c[0].next == c[1];
      assert c[1] in way;
      var rest := c[1..];
      assert Forward(rest) by {
        forall t | 0 <= t < |rest| - 1 ensures rest[t].next == rest[t + 1] { assert rest[t] == c[t + 1]; }
      }
      StaysOn(way, k, rest);
      assert c == [c[0]] + rest;
    }
  }

  /** The second part for a PIECE that was cut out of D; M is the place in D that PIECE still points back to. */
  method Place(before: Elem, first: Elem, last: Elem, ghost d: seq<Elem>, ghost piece: seq<Elem>, ghost inside: bool,
               ghost q: nat, ghost m: nat, ghost gap: Elem)
    requires Linked(d) && Linked(piece) && Apart(d, piece) && first == piece[0] && last == piece[|piece| - 1]
    requires if inside then q < |piece| && before == piece[q] else 1 <= q < |d| && before == d[q]
    requires m < |d| && (inside ==> first.prev == d[m]) && before.prev == gap
    modifies first`prev, last`next, before`prev, gap`next
    ensures !inside ==> Linked(Spliced(d, piece, q))
    ensures inside && 0 < q ==> Linked(d) && Ring(piece[..q]) && Ring(piece[q..])
    ensures inside && q == 0 ==> Forward(d[..m + 1] + piece) && piece[|piece| - 1].next == piece[0]
    ensures !(inside && q == 0) ==> d[0].prev == old(d[0].prev) && d[|d| - 1].next == old(d[|d| - 1].next)
  {
    hide Rewired, Ring, Forward;
    assert first in piece && last in piece && d[0] in d && d[|d| - 1] in d && (inside ==> before in piece);
    assert inside && 0 < q ==> gap == piece[q - 1] && gap in piece;
    Relink(before, first, last, gap, d, piece);
    if !inside {
      JoinedOutside(d, piece, q);
    } else if 0 < q {
      SplitInside(d, piece, q);
    } else {
      LoopedInside(d, piece, m);
    }
  }

  /** The way from the head closes to a ring in front of the tail: no way along next leads from one to the other. */
  lemma NeverAtTail(c: seq<Elem>, i: nat, j: nat, head: Elem, tail: Elem)
    requires Distinct(c) && 1 <= i < j < |c| && Forward(c[..j]) && c[j - 1].next == c[i]
    requires head == c[0] && tail == c[|c| - 1]
    ensures forall s: seq<Elem> :: s != [] && s[0] == head && Forward(s) ==> tail !in s
  {
    var way := c[..j];
    DistinctIndices(c);
    forall s: seq<Elem> | s != [] && s[0] == head && Forward(s) ensures tail !in s {
      assert way[0] == c[0];
      StaysOn(way, i, s);
    }
  }

  /** The run of C that starts at I ends at K, at most at N: neighbours before K are in order,
      and K is N or out of order with its predecessor. */
  ghost predicate RunEnd(less: (Elem, Elem) -> bool, c: seq<Elem>, i: nat, k: nat, n: nat) {
    && i < k <= n < |c|
    && (forall t :: i < t < k ==> !less(c[t], c[t - 1]))
    && (k < n ==> less(c[k], c[k - 1]))
  }

  class List {
    const head: Elem
    const tail: Elem

    /** head, the elements in order, tail */
    ghost var chain: seq<Elem>

    ghost predicate Valid()
      reads this, chain
    {
      && |chain| >= 2 && chain[0] == head && chain[|chain| - 1] == tail
      && Distinct(chain) && Linked(chain)
      && head.prev == null && tail.next == null
    }

    /** The interior elements. */
    ghost function Contents(): (s: seq<Elem>)
      requires |chain| >= 2
      reads this
    {
      chain[1..|chain| - 1]
    }

    constructor ()
      ensures Valid() && fresh(chain) && Contents() == []
    {
      head := new Elem();
      tail := new Elem();
      new;
      head.next := tail;
      tail.prev := head;
      chain := [head, tail];
      IndicesDistinct(chain);
    }

    /** list_insert makes the assignments that end list_splice, with ELEM as the whole piece. */
    method Insert(before: Elem, elem: Elem, ghost k: nat)
      requires Valid()
      requires 1 <= k < |chain| && chain[k] == before && elem !in chain
      modifies this`chain, elem, before, chain[k - 1]
      ensures Valid()
      ensures chain == old(chain[..k] + [elem] + chain[k..])
    {
      hide Distinct, Linked, Apart, Ring, Forward;
      ghost var c := chain;
      PrevInChain(c, k);
      OneApart(c, elem);
      Place(before, elem, elem, c, [elem], false, k, 0, c[k - 1]);
      JoinedDistinct(c, [elem], k);
      chain := Spliced(c, [elem], k);
    }

    method Remove(elem: Elem, ghost k: nat) returns (following: Elem)
      requires Valid()
      requires 1 <= k < |chain| - 1 && chain[k] == elem
      modifies this`chain, chain[k - 1], chain[k + 1]
      ensures Valid()
      ensures chain == old(chain[..k] + chain[k + 1..])
      ensures following == old(chain[k + 1])
    {
      OnlyAt(chain, k - 1);
      OnlyAt(chain, k + 1);
      DistinctCut(chain, k, k + 1);
      elem.prev.next := elem.next;
      elem.next.prev := elem.prev;
      following := elem.next;
      chain := chain[..k] + chain[k + 1..];
    }

    /** Unlinks the elements FIRST .. LAST (inclusive) as one piece. */
    method Detach(first: Elem, last: Elem, ghost i: nat, ghost j: nat)
      requires Valid()
      requires 1 <= i < j < |chain| && chain[i] == first && chain[j - 1] == last
      modifies this`chain, chain[i - 1], chain[j]
      ensures Valid() && chain == old(Cut(chain, i, j))
      ensures Linked(old(chain[i..j])) && Apart(chain, old(chain[i..j])) && first.prev == old(chain[i - 1])
    {
      hide Distinct, Bridged, Apart, Linked, Cut;
      Pieces(chain, i, j);
      OnlyAt(chain, 0);
      OnlyAt(chain, |chain| - 1);
      ghost var c := chain;
      Bridge(first, last, chain, i, j, chain[i - 1], chain[j]);
      CutOut(chain, i, j);
      BridgedInside(c, i, j);
      chain := Cut(c, i, j);
    }

    /** list_splice between two lists: FIRST up to LAST (exclusive), at I..J of SRC, to just before BEFORE at P. */
    method SpliceFrom(src: List, before: Elem, first: Elem, last: Elem, ghost p: nat, ghost i: nat, ghost j: nat)
      requires Valid() && src.Valid() && src != this && Elems(src.chain) !! Elems(chain)
      requires 1 <= i <= j < |src.chain| && 1 <= p < |chain|
      requires chain[p] == before && src.chain[i] == first && src.chain[j] == last
      modifies this`chain, src`chain, Elems(chain), Elems(src.chain)
      ensures Valid() && src.Valid()
      ensures chain == old(Spliced(chain, src.chain[i..j], p)) && src.chain == old(Cut(src.chain, i, j))
    {
      hide Distinct, Linked, Ring, Forward, Apart, Cut, Spliced;
      ghost var c, d, piece := src.chain, chain, src.chain[i..j];
      if first == last {
        Unique(c, i, j);
        CutNothing(c, d, p, i);
        return;
      }
      PrevInChain(c, j);
      var last' := last.prev;
      ApartLists(c, d, i, j);
      src.Detach(first, last', i, j);
      PlaceInPieces(c, src.chain, piece, i, i, j);
      ghost var gap := GapBefore(d, piece, false, p, 0);
      assert first in piece && last' in piece && before in d;
      Place(before, first, last', d, piece, false, p, 0, gap);
      JoinedDistinct(d, piece, p);
      chain := Spliced(d, piece, p);
    }

    /** Moves FIRST up to LAST (exclusive), at I..J of the chain, to just before BEFORE at P.  When BEFORE is one of
        the elements moved the list comes to harm: if it is not the first of them, they are cut out and left as two
        rings; if it is, the way from the head ends in a ring of them, and no way along next leads to the tail. */
    method Splice(before: Elem, first: Elem, last: Elem, ghost p: nat, ghost i: nat, ghost j: nat)
      requires Valid()
      requires 1 <= i <= j < |chain| && 1 <= p < |chain|
      requires chain[p] == before && chain[i] == first && chain[j] == last
      modifies this`chain, Elems(chain)
      ensures p < i || j <= p ==> Valid() && chain == old(Moved(chain, p, i, j))
      ensures i < p < j ==> Valid() && chain == old(Cut(chain, i, j)) && Ring(old(chain[i..p])) && Ring(old(chain[p..j]))
      ensures i == p < j ==> Forward(old(chain[..j])) && old(chain)[j - 1].next == old(chain)[i]
      ensures i == p < j ==> forall c: seq<Elem> :: c != [] && c[0] == head && Forward(c) ==> tail !in c
    {
      hide Distinct, Elems, Moved, Ring, Forward, Apart, Linked, PlaceOf, Cut, Spliced;
      ghost var c := chain;
      if first == last {
        Unique(c, i, j);
        MovedNowhere(c, p, i);
        return;
      }
      PrevInChain(c, j);
      AllElems(c);
      var last' := last.prev;
      Detach(first, last', i, j);
      Reattach(before, first, last', c, p, i, j);
    }

    /** The second part of a splice: FIRST .. LAST (inclusive), cut out of the chain C at I..J, go before BEFORE at P
        of C. */
    method Reattach(before: Elem, first: Elem, last: Elem, ghost c: seq<Elem>, ghost p: nat, ghost i: nat, ghost j: nat)
      requires 1 <= i < j < |c| && 1 <= p < |c| && Distinct(c) && c[0] == head && c[|c| - 1] == tail
      requires Valid() && chain == Cut(c, i, j) && Linked(c[i..j]) && Apart(chain, c[i..j])
      requires first == c[i] && last == c[j - 1] && before == c[p] && first.prev == c[i - 1]
      modifies this`chain, Elems(c)
      ensures p < i || j <= p ==> Valid() && chain == Moved(c, p, i, j)
      ensures i < p < j ==> Valid() && chain == old(chain) && Ring(c[i..p]) && Ring(c[p..j])
      ensures i == p < j ==> Forward(c[..j]) && c[j - 1].next == c[i]
      ensures i == p < j ==> forall s: seq<Elem> :: s != [] && s[0] == head && Forward(s) ==> tail !in s
    {
      hide Distinct, Elems, Moved, Ring, Forward, Apart, Linked, PlaceOf, Cut, Spliced;
      AllElems(c);
      ghost var d, piece, inside := chain, c[i..j], i <= p < j;
      ghost var q := PlaceOf(p, i, j);
      PlaceInPieces(c, d, piece, p, i, j);
      ghost var gap := GapBefore(d, piece, inside, q, i - 1);
      Place(before, first, last, d, piece, inside, q, i - 1, gap);
      if !inside {
        MovedInTwoSteps(c, p, i, j);
        JoinedDistinct(d, piece, q);
        chain := Spliced(d, piece, q);
      } else if q == 0 {
        NeverAtTail(c, i, j, head, tail);
      }
    }

    /** The end of the run that starts at A and ends no later than B. */
    method FindEndOfRun(a: Elem, b: Elem, less: (Elem, Elem) -> bool, ghost i: nat, ghost j: nat)
      returns (end: Elem, ghost k: nat)
      requires Valid() && 1 <= i < j < |chain| && chain[i] == a && chain[j] == b
      ensures RunEnd(less, chain, i, k, j) && chain[k] == end
    {
      end, k := a.next, i + 1;
      while end != b && !less(end, end.prev)
        invariant i < k <= j && chain[k] == end
        invariant forall t :: i < t < k ==> !less(chain[t], chain[t - 1])
        decreases j - k
      {
        end, k := end.next, k + 1;
      }
      if end == b { Unique(chain, k, j); }
    }

    /** Moves B, at position Y, to just before A and returns the element that followed it. */
    method MoveForward(a: Elem, b: Elem, ghost x: nat, ghost y: nat) returns (following: Elem)
      requires Valid() && 1 <= x < y < |chain| - 1 && chain[x] == a && chain[y] == b
      modifies this`chain, Elems(chain)
      ensures Valid() && chain == old(MovedForward(chain, x, y))
      ensures following == old(chain[y + 1])
    {
      following := b.next;
      Splice(a, following.prev, following, x, y, y + 1);
    }

    /** Merges the sorted ranges A0 .. A1B0 and A1B0 .. B1 in place, by moving single elements of
        the second range forward. */
    method InplaceMerge(a0: Elem, a1b0: Elem, b1: Elem, less: (Elem, Elem) -> bool,
                        ghost i: nat, ghost m: nat, ghost j: nat)
      requires Valid() && 1 <= i <= m <= j < |chain|
      requires chain[i] == a0 && chain[m] == a1b0 && chain[j] == b1
      modifies this`chain, Elems(chain)
      ensures Valid()
      ensures chain == old(chain[..i] + Merge(less, chain[i..m], chain[m..j]) + chain[j..])
    {
      var a, b := a0, a1b0;
      ghost var done, left, right, rest := chain[..i], chain[i..m], chain[m..j], chain[j..];
      ghost var goal := done + Merge(less, left, right) + rest;
      while a != b && b != b1
        invariant Valid() && Elems(chain) == old(Elems(chain))
        invariant Merging(less, goal, chain, done, left, right, rest)
        invariant |done| >= 1 && rest != []
        invariant a == First(left, First(right, rest[0])) && b == First(right, rest[0]) && b1 == rest[0]
        decreases |left| + |right|
      {
        Exhausted(chain, done, left, right, rest);
        AtCursors(chain, done, left, right, rest);
        if !less(b, a) {
          TakeLeft(less, goal, chain, done, left, right, rest);
          a := a.next;
          done, left := done + [left[0]], left[1..];
        } else {
          ghost var x, y := |done|, |done| + |left|;
          TakeRight(less, goal, chain, done, left, right, rest, x, y);
          b := MoveForward(a, b, x, y);
          done, right := done + [right[0]], right[1..];
        }
      }
      Exhausted(chain, done, left, right, rest);
      MergingDone(less, goal, chain, done, left, right, rest);
    }
  }

  /** Midway through a merge: DONE is final, LEFT and RIGHT remain to be merged. */
  ghost predicate Merging<T>(less: (T, T) -> bool, goal: seq<T>, cur: seq<T>,
                             done: seq<T>, left: seq<T>, right: seq<T>, rest: seq<T>)
  {
    cur == done + left + right + rest && goal == done + Merge(less, left, right) + rest
  }

  /** The first element of S, or E when S is empty. */
  ghost function First<T>(s: seq<T>, e: T): (r: T) { if s == [] then e else s[0] }

  lemma AtCursors<T>(cur: seq<T>, done: seq<T>, left: seq<T>, right: seq<T>, rest: seq<T>)
    requires cur == done + left + right + rest && right != [] && left != [] && rest != []
    ensures cur[|done|] == left[0] && cur[|done| + 1] == First(left[1..], right[0])
    ensures cur[|done| + |left|] == right[0] && cur[|done| + |left| + 1] == First(right[1..], rest[0])
  {
  }

  lemma Exhausted<T>(cur: seq<T>, done: seq<T>, left: seq<T>, right: seq<T>, rest: seq<T>)
    requires cur == done + left + right + rest && rest != [] && Distinct(cur)
    ensures left != [] && right != [] ==> left[0] != right[0]
    ensures right != [] ==> right[0] != rest[0]
  {
    DistinctIndices(cur);
    var x, y, z := |done|, |done| + |left|, |done| + |left| + |right|;
    assert left != [] ==> cur[x] == left[0];
    assert right != [] ==> cur[y] == right[0];
    assert cur[z] == rest[0];
  }

  lemma TakeLeft<T>(less: (T, T) -> bool, goal: seq<T>, cur: seq<T>,
                    done: seq<T>, left: seq<T>, right: seq<T>, rest: seq<T>)
    requires Merging(less, goal, cur, done, left, right, rest)
    requires left != [] && right != [] && !less(right[0], left[0])
    ensures Merging(less, goal, cur, done + [left[0]], left[1..], right, rest)
  {
    assert left == [left[0]] + left[1..];
    assert done + left == done + [left[0]] + left[1..];
    var tail := Merge(less, left[1..], right);
    assert done + ([left[0]] + tail) == done + [left[0]] + tail;
  }

  lemma TakeRight<T>(less: (T, T) -> bool, goal: seq<T>, cur: seq<T>,
                     done: seq<T>, left: seq<T>, right: seq<T>, rest: seq<T>, x: nat, y: nat)
    requires Merging(less, goal, cur, done, left, right, rest)
    requires left != [] && right != [] && less(right[0], left[0])
    requires x == |done| && y == |done| + |left|
    ensures Merging(less, goal, MovedForward(cur, x, y), done + [right[0]], left, right[1..], rest)
    ensures Elems(MovedForward(cur, x, y)) == Elems(cur)
  {
    assert cur[..x] == done && cur[x..y] == left && cur[y..y + 1] == [right[0]];
    assert cur[y + 1..] == right[1..] + rest;
    var tail := Merge(less, left, right[1..]);
    assert done + ([right[0]] + tail) == done + [right[0]] + tail;
    assert cur == done + left + [right[0]] + (right[1..] + rest);
  }

  lemma MergingDone<T>(less: (T, T) -> bool, goal: seq<T>, cur: seq<T>,
                       done: seq<T>, left: seq<T>, right: seq<T>, rest: seq<T>)
    requires Merging(less, goal, cur, done, left, right, rest) && (left == [] || right == [])
    ensures cur == goal
  {
    assert done + left + right == done + Merge(less, left, right);
  }

  /** C with its part I..J moved to before position P. */
  ghost function Moved<T>(c: seq<T>, p: nat, i: nat, j: nat): (r: seq<T>)
    requires i <= j <= |c| && p <= |c| && (p <= i || j <= p)
  {
    if p <= i then c[..p] + c[i..j] + c[p..i] + c[j..] else c[..i] + c[j..p] + c[i..j] + c[p..]
  }

  /** C with the element at Y moved to before position X. */
  ghost function MovedForward<T>(c: seq<T>, x: nat, y: nat): (r: seq<T>)
    requires x <= y < |c|
  {
    Moved(c, x, y, y + 1)
  }

  /** C without its part I..J. */
  ghost function Cut<T>(c: seq<T>, i: nat, j: nat): (r: seq<T>)
    requires i <= j <= |c|
  {
    c[..i] + c[j..]
  }

  /** D with PIECE put in before position Q. */
  ghost function Spliced<T>(d: seq<T>, piece: seq<T>, q: nat): (r: seq<T>)
    requires q <= |d|
  {
    d[..q] + piece + d[q..]
  }

  lemma MovedNowhere<T>(c: seq<T>, p: nat, i: nat)
    requires i <= |c| && p <= |c|
    ensures Moved(c, p, i, i) == c
  {
  }

  lemma CutNothing<T>(c: seq<T>, d: seq<T>, p: nat, i: nat)
    requires i <= |c| && p <= |d|
    ensures Cut(c, i, i) == c && Spliced(d, c[i..i], p) == d
  {
  }

  lemma ApartLists(c: seq<Elem>, d: seq<Elem>, i: nat, j: nat)
    requires Distinct(c) && Distinct(d) && Elems(c) !! Elems(d) && 1 <= i < j < |c|
    ensures Apart(d, c[i..j]) && Elems(c[i..j]) <= Elems(c) && c[i - 1] !in d && c[j] !in d
    ensures forall e :: e in Cut(c, i, j) ==> e !in d && e !in c[i..j]
  {
    Pieces(c, i, j);
    assert c[i - 1] in Elems(c) && c[j] in Elems(c);
    forall e | e in Cut(c, i, j) ensures e !in d { assert e in Elems(c) && (e in d ==> e in Elems(d)); }
    DistinctCut(c, i, j);
    DistinctIndices(d);
    DistinctIndices(c[i..j]);
    forall e | e in d ensures e !in c[i..j] { assert e in Elems(d) && (e in c[i..j] ==> e in Elems(c)); }
  }

  /** Where position P is once I..J is cut out, in the piece or in what is left. */
  ghost function PlaceOf(p: nat, i: nat, j: nat): nat
    requires i <= j
  {
    if i <= p < j then p - i else if p < i then p else p - (j - i)
  }

  lemma PlaceInPieces<T>(c: seq<T>, d: seq<T>, piece: seq<T>, p: nat, i: nat, j: nat)
    requires 1 <= i < j < |c| && 1 <= p < |c| && d == Cut(c, i, j) && piece == c[i..j]
    ensures piece != [] && piece[0] == c[i] && piece[|piece| - 1] == c[j - 1]
    ensures i < |d| && d[i - 1] == c[i - 1] && d[0] == c[0] && d[|d| - 1] == c[|c| - 1] && d[..i] + piece == c[..j]
    ensures var q := PlaceOf(p, i, j);
      if i <= p < j then q == p - i && q < |piece| && piece[q] == c[p] && piece[..q] == c[i..p] && piece[q..] == c[p..j]
      else 1 <= q < |d| && d[q] == c[p] && q == if p <= i then p else p - (j - i)
    ensures Elems(d) <= Elems(c) && Elems(piece) <= Elems(c)
  {
  }

  /** The element that precedes BEFORE, at Q. */
  lemma GapBefore(d: seq<Elem>, piece: seq<Elem>, inside: bool, q: nat, m: nat) returns (gap: Elem)
    requires Linked(d) && Linked(piece) && m < |d| && piece != [] && (inside ==> piece[0].prev == d[m])
    requires if inside then q < |piece| else 1 <= q < |d|
    ensures (if inside then piece[q] else d[q]).prev == gap && gap in Elems(d) + Elems(piece) && (gap in d || gap in piece)
  {
    gap := if !inside then d[q - 1] else if 0 < q then piece[q - 1] else d[m];
  }

  lemma AllElems(c: seq<Elem>)
    ensures forall k :: 0 <= k < |c| ==> c[k] in Elems(c)
  {
  }

  lemma PrevInChain(c: seq<Elem>, k: nat)
    requires Linked(c) && 0 < k < |c|
    ensures c[k].prev == c[k - 1]
  {
  }

  lemma Pieces(c: seq<Elem>, i: nat, j: nat)
    requires Distinct(c) && 1 <= i < j < |c|
    ensures Apart(Cut(c, i, j), c[i..j]) && Distinct(Cut(c, i, j))
    ensures var d := Cut(c, i, j); |d| >= 2 && d[0] == c[0] && d[|d| - 1] == c[|c| - 1]
  {
    var d, piece := c[..i] + c[j..], c[i..j];
    DistinctCut(c, i, j);
    DistinctIndices(d);
    DistinctIndices(piece);
    forall e | e in d ensures e !in piece { assert e in Elems(d) && (e in piece ==> e in Elems(piece)); }
  }

  lemma OneApart(c: seq<Elem>, e: Elem)
    requires Distinct(c) && e !in c
    ensures Apart(c, [e]) && Linked([e])
  {
    DistinctIndices(c);
  }

  lemma JoinedDistinct(d: seq<Elem>, piece: seq<Elem>, q: nat)
    requires Apart(d, piece) && q <= |d|
    ensures Distinct(Spliced(d, piece, q)) && |Spliced(d, piece, q)| == |d| + |piece|
    ensures 1 <= q < |d| ==> Spliced(d, piece, q)[0] == d[0] && Spliced(d, piece, q)[|d| + |piece| - 1] == d[|d| - 1]
  {
    IndicesDistinct(d);
    IndicesDistinct(piece);
    assert Elems(piece) !! Elems(d);
    DistinctJoin(d, q, piece);
  }

  lemma BridgedInside(c: seq<Elem>, i: nat, j: nat)
    requires 1 <= i < j < |c| && Bridged(c, i, j)
    ensures c[i].prev == c[i - 1]
  {
  }

  lemma MovedInTwoSteps<T>(c: seq<T>, p: nat, i: nat, j: nat)
    requires i <= j <= |c| && p <= |c| && (p <= i || j <= p)
    ensures var q := if p <= i then p else p - (j - i); Spliced(Cut(c, i, j), c[i..j], q) == Moved(c, p, i, j)
  {
    var d := c[..i] + c[j..];
    if p <= i {
      assert d[..p] == c[..p];
      assert d[p..] == c[p..i] + c[j..];
    } else {
      assert d[..p - (j - i)] == c[..i] + c[j..p];
      assert d[p - (j - i)..] == c[p..];
    }
  }
}
