/** In-place reversal of a list (pintos/src/lib/kernel/list.c). */
module ListOps {
  import opened Order
  import opened LinkedList
  import opened Seqs

  ghost function Reversed<T>(s: seq<T>): (r: seq<T>) {
    seq(|s|, i requires 0 <= i < |s| => s[|s| - 1 - i])
  }

  /** The first K interior elements of C have their links exchanged, the others are untouched. */
  ghost predicate Swapped(c: seq<Elem>, k: nat)
    requires |c| >= 2 && k < |c|
    reads c
  {
    && (forall t {:trigger c[t].next} :: 0 < t < k ==> c[t].next == c[t - 1])
    && (forall t {:trigger c[t].prev} :: 0 < t < k ==> c[t].prev == c[t + 1])
    && (forall t {:trigger c[t].next} :: k <= t < |c| - 1 ==> c[t].next == c[t + 1])
    && (forall t {:trigger c[t].prev} :: k <= t < |c| && 0 < t ==> c[t].prev == c[t - 1])
    && c[0].next == c[1] && c[0].prev == null && c[|c| - 1].next == null
  }

  /** C is linked in the opposite order, between the same two ends. */
  ghost predicate Backward(c: seq<Elem>, n: nat)
    requires n > 1 && |c| == n + 1
    reads c
  {
    && (forall t {:trigger c[t].next} :: 0 < t < n ==> c[t].next == c[if t == 1 then n else t - 1])
    && (forall t {:trigger c[t].prev} :: 0 < t < n ==> c[t].prev == c[if t == n - 1 then 0 else t + 1])
    && c[0].next == c[n - 1] && c[n].prev == c[1]
    && c[0].prev == null && c[n].next == null
  }

  lemma ReversedChain(c: seq<Elem>, n: nat, r: seq<Elem>)
    requires n > 1 && |c| == n + 1 && Distinct(c) && Backward(c, n)
    requires r == [c[0]] + Reversed(c[1..n]) + [c[n]]
    ensures |r| == n + 1 && Distinct(r) && Linked(r)
  {
    DistinctIndices(c);
    assert forall k :: 0 < k < n ==> r[k] == c[n - k];
    assert NoDup(r);
    IndicesDistinct(r);
  }

  /** The loop of list_reverse: exchanges the two links of every interior element. */
  method SwapLinks(list: List)
    requires list.Valid() && |list.chain| > 2
    modifies Elems(list.chain)
    ensures Swapped(list.chain, |list.chain| - 1)
  {
    ghost var c, n, k := list.chain, |list.chain| - 1, 1;
    DistinctIndices(c);
    var e := list.head.next;
    while e != list.tail
      invariant list.chain == c && 1 <= k <= n && c[k] == e
      invariant Swapped(c, k)
      decreases n - k
    {
      assert e in Elems(c);
      e.prev, e.next := e.next, e.prev;
      e, k := e.prev, k + 1;
    }
    assert k == n;
  }

  /** The two exchanges after the loop of list_reverse. */
  method SwapEnds(list: List)
    requires |list.chain| > 2 && Distinct(list.chain)
    requires list.chain[0] == list.head && list.chain[|list.chain| - 1] == list.tail
    requires Swapped(list.chain, |list.chain| - 1)
    modifies Elems(list.chain)
    ensures Backward(list.chain, |list.chain| - 1)
  {
    ghost var c, n := list.chain, |list.chain| - 1;
    OnlyAt(c, 0);
    OnlyAt(c, 1);
    OnlyAt(c, n - 1);
    OnlyAt(c, n);
    list.head.next, list.tail.prev := list.tail.prev, list.head.next;
    list.head.next.prev, list.tail.prev.next := list.tail.prev.next, list.head.next.prev;
  }

  /** Reverses LIST in place. */
  method Reverse(list: List)
    requires list.Valid()
    modifies list`chain, Elems(list.chain)
    ensures list.Valid()
    ensures list.Contents() == Reversed(old(list.Contents()))
  {
    ghost var c, n := list.chain, |list.chain| - 1;
    if list.head.next == list.tail {
      Unique(c, 1, n);
      assert Reversed(list.Contents()) == list.Contents();
      return;
    }
    SwapLinks(list);
    SwapEnds(list);
    list.chain := [list.head] + Reversed(c[1..n]) + [list.tail];
    ReversedChain(c, n, list.chain);
  }
}
