/** The chained hash table of pintos/src/lib/kernel/hash.c.  Elements are compared by LESS alone; HASH
    must agree with it.  Buckets are lists, kept here as sequences. */
module HashTable {
  import opened Options
  import opened Seqs
  import opened Order
  import opened BinaryNat

  const MIN_BUCKETS: nat := 4
  const BEST_ELEMS_PER_BUCKET: nat := 2

  /** LESS is a strict weak order, and equivalent elements have equal hashes. */
  ghost predicate Lawful<T(!new)>(hash: T -> nat, less: (T, T) -> bool) {
    && (forall x, y :: less(x, y) ==> !less(y, x))
    && (forall x, y, z :: less(x, z) ==> less(x, y) || less(y, z))
    && (forall x, y :: Equivalent(less, x, y) ==> hash(x) == hash(y))
  }

  lemma EquivalentTrans<T(!new)>(hash: T -> nat, less: (T, T) -> bool, x: T, y: T, z: T)
    requires Lawful(hash, less) && Equivalent(less, x, y) && Equivalent(less, y, z)
    ensures Equivalent(less, x, z)
  {
  }

  /** find_bucket: the low bits of the hash. */
  function Index(h: nat, n: nat): (i: nat)
    requires IsPower(n)
    ensures i < n && i == h % n
  {
    MaskIsRemainder(h, n);
    And(h, n - 1)
  }

  /** Bucket B holds elements of ELEMS that belong there, each once. */
  ghost predicate BucketOk<T>(hash: T -> nat, buckets: seq<seq<T>>, b: nat, elems: set<T>)
    requires b < |buckets| && IsPower(|buckets|)
  {
    NoDup(buckets[b]) && forall x :: x in buckets[b] ==> x in elems && Index(hash(x), |buckets|) == b
  }

  /** The buckets hold exactly ELEMS. */
  ghost predicate TableOk<T>(hash: T -> nat, buckets: seq<seq<T>>, elems: set<T>) {
    && IsPower(|buckets|)
    && (forall b :: 0 <= b < |buckets| ==> BucketOk(hash, buckets, b, elems))
    && (forall x :: x in elems ==> x in buckets[Index(hash(x), |buckets|)])
  }

  /** No two elements are equal as LESS sees it. */
  ghost predicate Apart<T>(less: (T, T) -> bool, elems: set<T>) {
    forall x, y :: x in elems && y in elems && Equivalent(less, x, y) ==> x == y
  }

  /** find_elem */
  method FindElem<T>(less: (T, T) -> bool, bucket: seq<T>, e: T) returns (r: Option<T>)
    ensures r.Some? ==> r.value in bucket && Equivalent(less, r.value, e)
    ensures r.None? ==> forall x :: x in bucket ==> !Equivalent(less, x, e)
  {
    var i := 0;
    while i < |bucket|
      invariant 0 <= i <= |bucket| && forall k :: 0 <= k < i ==> !Equivalent(less, bucket[k], e)
    {
      if !less(bucket[i], e) && !less(e, bucket[i]) { return Some(bucket[i]); }
      i := i + 1;
    }
    return None;
  }

  /** The number of buckets rehash wants for CNT elements. */
  function WantedFor(cnt: nat): (n: nat)
    ensures IsPower(n) && MIN_BUCKETS <= n && cnt < 4 * n
    ensures if cnt < 8 then n == 4 else n <= cnt / 2 < 2 * n
  {
    Floor(if cnt / BEST_ELEMS_PER_BUCKET < MIN_BUCKETS then MIN_BUCKETS else cnt / BEST_ELEMS_PER_BUCKET)
  }

  method Wanted(cnt: nat) returns (n: nat)
    ensures n == WantedFor(cnt)
  {
    n := cnt / BEST_ELEMS_PER_BUCKET;
    if n < MIN_BUCKETS { n := MIN_BUCKETS; }
    ghost var n0 := n;
    PowerTest(n);
    while !(n != 0 && TurnOffLeast(n) == 0)
      invariant n > 0 && Floor(n) == Floor(n0) && (TurnOffLeast(n) == 0 <==> IsPower(n))
      decreases n
    {
      TurnOffFloor(n);
      n := TurnOffLeast(n);
      PowerTest(n);
    }
    PowerFloor(n);
  }

  lemma PutOk<T>(hash: T -> nat, buckets: seq<seq<T>>, elems: set<T>, x: T)
    requires TableOk(hash, buckets, elems) && x !in elems
    ensures var i := Index(hash(x), |buckets|); TableOk(hash, buckets[i := [x] + buckets[i]], elems + {x})
  {
    var i := Index(hash(x), |buckets|);
    var t := buckets[i := [x] + buckets[i]];
    forall b | 0 <= b < |t| ensures BucketOk(hash, t, b, elems + {x}) {
      assert BucketOk(hash, buckets, b, elems);
      if b == i { NoDupFront(buckets[i], x); }
    }
  }

  lemma TakeOk<T>(hash: T -> nat, buckets: seq<seq<T>>, elems: set<T>, x: T)
    requires TableOk(hash, buckets, elems) && x in elems
    ensures var i := Index(hash(x), |buckets|); TableOk(hash, buckets[i := Minus(buckets[i], {x})], elems - {x})
  {
    var i := Index(hash(x), |buckets|);
    var t := buckets[i := Minus(buckets[i], {x})];
    forall b | 0 <= b < |t| ensures BucketOk(hash, t, b, elems - {x}) {
      assert BucketOk(hash, buckets, b, elems);
      if b == i { MinusNoDup(buckets[i], {x}); }
      forall y | y in t[b] ensures y in elems - {x} && Index(hash(y), |t|) == b {
        if b == i { OneGone(buckets[i], x, y); }
      }
    }
    forall y | y in elems - {x} ensures y in t[Index(hash(y), |t|)] {
      if Index(hash(y), |t|) == i { OneGone(buckets[i], x, y); }
    }
  }

  lemma OneGone<T>(s: seq<T>, x: T, y: T)
    ensures y in Minus(s, {x}) <==> y in s && y != x
  {
    MinusMember(s, {x});
  }

  lemma EmptyOk<T>(hash: T -> nat, n: nat)
    requires IsPower(n)
    ensures TableOk(hash, seq(n, _ => []), {})
  {
  }

  /** The elements of the first I old buckets and of the front of the next, LIST. */
  ghost predicate Moved<T>(hash: T -> nat, elems: set<T>, n: nat, i: nat, list: seq<T>, moved: set<T>)
    requires IsPower(n)
  {
    moved <= elems && forall x :: x in elems ==> (x in moved <==> Index(hash(x), n) < i || x in list)
  }

  /** The loops of rehash: every element goes to the front of its new bucket. */
  method MoveAll<T(==)>(hash: T -> nat, old_: seq<seq<T>>, ghost elems: set<T>, n: nat) returns (buckets: seq<seq<T>>)
    requires TableOk(hash, old_, elems) && IsPower(n)
    ensures |buckets| == n && TableOk(hash, buckets, elems)
  {
    buckets := seq(n, _ => []);
    EmptyOk(hash, n);
    ghost var moved: set<T> := {};
    var i := 0;
    while i < |old_|
      invariant i <= |old_| && |buckets| == n && TableOk(hash, buckets, moved) && Moved(hash, elems, |old_|, i, [], moved)
    {
      buckets, moved := MoveBucket(hash, old_, elems, i, buckets, moved);
      i := i + 1;
    }
    assert moved == elems;
  }

  method MoveBucket<T(==)>(hash: T -> nat, old_: seq<seq<T>>, ghost elems: set<T>, i: nat, buckets0: seq<seq<T>>, ghost moved0: set<T>)
    returns (buckets: seq<seq<T>>, ghost moved: set<T>)
    requires TableOk(hash, old_, elems) && i < |old_|
    requires TableOk(hash, buckets0, moved0) && Moved(hash, elems, |old_|, i, [], moved0)
    ensures |buckets| == |buckets0| && TableOk(hash, buckets, moved) && Moved(hash, elems, |old_|, i + 1, [], moved)
  {
    buckets, moved := buckets0, moved0;
    var list := old_[i];
    assert BucketOk(hash, old_, i, elems);
    var j := 0;
    while j < |list|
      invariant j <= |list| && |buckets| == |buckets0| && TableOk(hash, buckets, moved)
      invariant Moved(hash, elems, |old_|, i, list[..j], moved)
    {
      var x := list[j];
      assert x in list && x !in list[..j];
      var k := Index(hash(x), |buckets|);
      PutOk(hash, buckets, moved, x);
      MovedOne(hash, elems, |old_|, i, list, j, moved);
      buckets := buckets[k := [x] + buckets[k]];
      moved := moved + {x};
      j := j + 1;
    }
    assert list[..j] == list;
  }

  lemma MovedOne<T>(hash: T -> nat, elems: set<T>, n: nat, i: nat, list: seq<T>, j: nat, moved: set<T>)
    requires IsPower(n) && j < |list| && list[j] in elems && Moved(hash, elems, n, i, list[..j], moved)
    ensures Moved(hash, elems, n, i, list[..j + 1], moved + {list[j]})
  {
    assert list[..j + 1] == list[..j] + [list[j]];
  }

  class Table<T(==, !new)> {
    const hash: T -> nat
    const less: (T, T) -> bool
    var buckets: seq<seq<T>>
    var elemCnt: nat
    ghost var elems: set<T>

    ghost predicate Valid()
      reads this
    {
      && Lawful(hash, less) && Apart(less, elems) && TableOk(hash, buckets, elems)
      && MIN_BUCKETS <= |buckets| && elemCnt == |elems|
    }

    /** hash_init */
    constructor (h: T -> nat, l: (T, T) -> bool)
      requires Lawful(h, l)
      ensures Valid() && hash == h && less == l && elems == {} && |buckets| == MIN_BUCKETS
    {
      hash, less, elemCnt, elems := h, l, 0, {};
      buckets := seq(MIN_BUCKETS, _ => []);
      EmptyOk(h, MIN_BUCKETS);
    }

    /** hash_find: the element equal to E, which is the only one. */
    method Find(e: T) returns (r: Option<T>)
      requires Valid()
      ensures r.Some? ==> r.value in elems && Equivalent(less, r.value, e)
      ensures r.None? ==> forall x :: x in elems ==> !Equivalent(less, x, e)
    {
      var i := Index(hash(e), |buckets|);
      r := FindElem(less, buckets[i], e);
      assert BucketOk(hash, buckets, i, elems);
    }

    /** rehash; MEMORY says whether new buckets can be allocated. */
    method Rehash(memory: bool)
      requires Valid()
      modifies this`buckets
      ensures Valid() && (memory ==> elemCnt < 4 * |buckets| && |buckets| == WantedFor(elemCnt))
      ensures !memory ==> buckets == old(buckets)
    {
      var wanted := Wanted(elemCnt);
      if wanted == |buckets| || !memory { return; }
      buckets := MoveAll(hash, buckets, elems, wanted);
    }

    /** hash_insert: E goes in unless an equal element is there, which is returned. */
    method Insert(e: T, memory: bool) returns (r: Option<T>)
      requires Valid()
      modifies this
      ensures Valid() && (memory ==> elemCnt < 4 * |buckets| && |buckets| == WantedFor(elemCnt))
      ensures r.Some? ==> r.value in old(elems) && Equivalent(less, r.value, e) && elems == old(elems)
      ensures r.None? ==> (forall x :: x in old(elems) ==> !Equivalent(less, x, e)) && elems == old(elems) + {e}
    {
      r := Find(e);
      if r.None? { Add(e); }
      Rehash(memory);
    }

    /** insert_elem at the front of E's bucket. */
    method Add(e: T)
      requires Valid() && forall x :: x in elems ==> !Equivalent(less, x, e)
      modifies this
      ensures Valid() && elems == old(elems) + {e} && e !in old(elems)
    {
      assert Equivalent(less, e, e);
      PutOk(hash, buckets, elems, e);
      var i := Index(hash(e), |buckets|);
      buckets := buckets[i := [e] + buckets[i]];
      elemCnt := elemCnt + 1;
      elems := elems + {e};
    }

    /** remove_elem */
    method Drop(e: T)
      requires Valid() && e in elems
      modifies this
      ensures Valid() && elems == old(elems) - {e}
    {
      TakeOk(hash, buckets, elems, e);
      var i := Index(hash(e), |buckets|);
      buckets := buckets[i := Minus(buckets[i], {e})];
      elemCnt := elemCnt - 1;
      elems := elems - {e};
    }

    /** hash_replace: E goes in, in place of an equal element, which is returned. */
    method Replace(e: T, memory: bool) returns (r: Option<T>)
      requires Valid()
      modifies this
      ensures Valid() && (memory ==> elemCnt < 4 * |buckets| && |buckets| == WantedFor(elemCnt))
      ensures r.Some? ==> r.value in old(elems) && Equivalent(less, r.value, e) && elems == old(elems) - {r.value} + {e}
      ensures r.None? ==> (forall x :: x in old(elems) ==> !Equivalent(less, x, e)) && elems == old(elems) + {e}
    {
      r := Find(e);
      if r.Some? {
        OnlyOne(hash, less, elems, r.value, e);
        Drop(r.value);
      }
      Add(e);
      Rehash(memory);
    }

    /** hash_delete */
    method Delete(e: T, memory: bool) returns (r: Option<T>)
      requires Valid()
      modifies this
      ensures Valid() && (memory && r.Some? ==> elemCnt < 4 * |buckets| && |buckets| == WantedFor(elemCnt))
      ensures r.Some? ==> r.value in old(elems) && Equivalent(less, r.value, e) && elems == old(elems) - {r.value}
      ensures r.None? ==> (forall x :: x in old(elems) ==> !Equivalent(less, x, e)) && elems == old(elems)
    {
      r := Find(e);
      if r.Some? {
        Drop(r.value);
        Rehash(memory);
      }
    }
  }

  /** With X out, nothing in the table equals E. */
  lemma OnlyOne<T(!new)>(hash: T -> nat, less: (T, T) -> bool, elems: set<T>, x: T, e: T)
    requires Lawful(hash, less) && Apart(less, elems) && x in elems && Equivalent(less, x, e)
    ensures forall y :: y in elems - {x} ==> !Equivalent(less, y, e)
  {
    forall y | y in elems && Equivalent(less, y, e) ensures y == x {
      EquivalentTrans(hash, less, y, e, x);
    }
  }

  // ---------- iteration

  /** The elements of buckets B, B + 1, ... in order. */
  function From<T>(buckets: seq<seq<T>>, b: nat): seq<T>
    decreases |buckets| - b
  {
    if b >= |buckets| then [] else buckets[b] + From(buckets, b + 1)
  }

  /** An iterator at element POS of bucket BUCKET; -1 is the list head, before the first element. */
  datatype Iterator = Iterator(bucket: nat, pos: int)

  ghost predicate IteratorOk<T>(buckets: seq<seq<T>>, it: Iterator) {
    it.bucket < |buckets| && -1 <= it.pos < |buckets[it.bucket]|
  }

  /** What an iterator has yet to return. */
  ghost function Ahead<T>(buckets: seq<seq<T>>, it: Iterator): seq<T>
    requires IteratorOk(buckets, it)
  {
    buckets[it.bucket][it.pos + 1..] + From(buckets, it.bucket + 1)
  }

  /** hash_next: the next element, or nothing at the end of the last bucket. */
  method Next<T>(buckets: seq<seq<T>>, it: Iterator) returns (r: Option<T>, next: Iterator)
    requires IteratorOk(buckets, it)
    ensures r.None? <==> Ahead(buckets, it) == []
    ensures r.Some? ==> IteratorOk(buckets, next) && Ahead(buckets, it) == [r.value] + Ahead(buckets, next)
  {
    var b, p := it.bucket, it.pos + 1;
    while p == |buckets[b]|
      invariant b < |buckets| && 0 <= p <= |buckets[b]|
      invariant Ahead(buckets, it) == buckets[b][p..] + From(buckets, b + 1)
      decreases |buckets| - b
    {
      b := b + 1;
      if b >= |buckets| { return None, it; }
      p := 0;
      assert buckets[b][0..] == buckets[b];
    }
    next := Iterator(b, p);
    assert buckets[b][p..] == [buckets[b][p]] + buckets[b][p + 1..];
    return Some(buckets[b][p]), next;
  }

  lemma {:induction false} FromMembers<T>(hash: T -> nat, buckets: seq<seq<T>>, elems: set<T>, b: nat)
    requires TableOk(hash, buckets, elems)
    ensures NoDup(From(buckets, b))
    ensures forall x :: x in From(buckets, b) ==> x in elems && b <= Index(hash(x), |buckets|)
    ensures forall x :: x in elems && b <= Index(hash(x), |buckets|) ==> x in From(buckets, b)
    decreases |buckets| - b
  {
    if b < |buckets| {
      FromMembers(hash, buckets, elems, b + 1);
      assert BucketOk(hash, buckets, b, elems);
      NoDupJoin(buckets[b], From(buckets, b + 1));
    }
  }

  /** An iterator fresh from hash_first has every element ahead, each once. */
  lemma IterationOnce<T>(hash: T -> nat, buckets: seq<seq<T>>, elems: set<T>)
    requires TableOk(hash, buckets, elems)
    ensures var first := Iterator(0, -1);
      && IteratorOk(buckets, first) && NoDup(Ahead(buckets, first))
      && Elems(Ahead(buckets, first)) == elems
  {
    FromMembers(hash, buckets, elems, 0);
    assert Ahead(buckets, Iterator(0, -1)) == From(buckets, 0);
  }
}
