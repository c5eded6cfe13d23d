/** The page allocator of pintos/src/threads/palloc.c: two pools of pages, each with a bitmap of the
    pages in use.  Pages are named by their number, address / PGSIZE; page 0 stands for NULL. */
module Palloc {
  import opened Bitmap
  import opened Seqs

  const PGSIZE: nat := 4096

  /** bitmap_buf_size: the bitmap header and its elements, in bytes. */
  function BufSize(bits: nat): nat { 8 + 4 * ((bits + ELEM_BITS - 1) / ELEM_BITS) }

  /** The pages at the base of a pool of N that hold its bitmap. */
  function BitmapPages(n: nat): nat { (BufSize(n) + PGSIZE - 1) / PGSIZE }

  /** A bitmap takes a header of 8 bytes and just enough words of 32 bits; its pages are just enough for that. */
  lemma BitmapSize(n: nat)
    ensures exists words: nat :: BufSize(n) == 8 + 4 * words && n <= 32 * words < n + 32
    ensures BufSize(n) <= BitmapPages(n) * 4096 < BufSize(n) + 4096
  {
    var words := (n + ELEM_BITS - 1) / ELEM_BITS;
    assert BufSize(n) == 8 + 4 * words && n <= 32 * words < n + 32;
  }

  /** The bitmap for the pages that remain fits in the pages taken from them, as
      bitmap_create_in_buf demands. */
  lemma BitmapFits(n: nat)
    requires BitmapPages(n) <= n
    ensures BufSize(n - BitmapPages(n)) <= BitmapPages(n) * PGSIZE
  {
    assert (n - BitmapPages(n) + ELEM_BITS - 1) / ELEM_BITS <= (n + ELEM_BITS - 1) / ELEM_BITS;
  }

  /** PAGE is the first of the CNT pages of POOL that first fit finds, or 0 if no CNT free ones are adjacent. */
  ghost predicate FirstFit(usedMap: seq<bool>, base: nat, cnt: nat, page: nat) {
    if page == 0 then forall i :: !Group(usedMap, i, cnt, false)
    else base <= page && Group(usedMap, page - base, cnt, false) && forall i :: i < page - base ==> !Group(usedMap, i, cnt, false)
  }

  /** The CNT pages from P on lie in the pool of N pages at BASE and are not in use. */
  ghost predicate FreeRun(used: set<nat>, base: nat, n: nat, p: nat, cnt: nat) {
    base <= p && p + cnt <= base + n && Interval(p, cnt) !! used
  }

  lemma RunOfPool(usedMap: seq<bool>, base: nat, used: set<nat>, cnt: nat, i: nat)
    requires forall k :: 0 <= k < |usedMap| ==> (base + k in used <==> usedMap[k])
    ensures Group(usedMap, i, cnt, false) <==> FreeRun(used, base, |usedMap|, base + i, cnt)
  {
    if i + cnt <= |usedMap| {
      if FreeRun(used, base, |usedMap|, base + i, cnt) {
        forall k | i <= k < i + cnt ensures !usedMap[k] { assert base + k in Interval(base + i, cnt); }
      } else {
        var x :| x in Interval(base + i, cnt) && x in used;
        assert usedMap[x - base];
      }
    }
  }

  /** The bitmap shows a run of free pages exactly when the pool has one. */
  lemma RunsOfPool(usedMap: seq<bool>, base: nat, used: set<nat>, cnt: nat)
    requires forall k :: 0 <= k < |usedMap| ==> (base + k in used <==> usedMap[k])
    ensures (exists p: nat :: FreeRun(used, base, |usedMap|, p, cnt)) <==> (exists i :: Group(usedMap, i, cnt, false))
  {
    if p: nat :| FreeRun(used, base, |usedMap|, p, cnt) {
      var i: nat := p - base;
      RunOfPool(usedMap, base, used, cnt, i);
    }
    if i :| Group(usedMap, i, cnt, false) { RunOfPool(usedMap, base, used, cnt, i); }
  }

  /** One page is free exactly when the pool is not exhausted. */
  lemma OneFree(used: set<nat>, base: nat, n: nat)
    ensures (exists p: nat :: FreeRun(used, base, n, p, 1)) <==> Interval(base, n) - used != {}
  {
    if p: nat :| FreeRun(used, base, n, p, 1) { assert p in Interval(p, 1) && p in Interval(base, n) - used; }
    if x :| x in Interval(base, n) - used {
      assert Interval(x, 1) == {x};
      assert FreeRun(used, base, n, x, 1);
    }
  }

  lemma JustOne(page: nat)
    ensures Interval(page, 1) == {page}
  {
  }

  lemma TookOne(used: set<nat>, base: nat, n: nat, page: nat)
    requires page !in used
    ensures |Interval(base, n) - (used + {page})| == |Interval(base, n) - used| - if base <= page < base + n then 1 else 0
  {
    var free := Interval(base, n) - used;
    assert Interval(base, n) - (used + {page}) == if page in free then free - {page} else free;
  }

  class Pool {
    const usedMap: Bits
    const base: nat

    ghost predicate Valid()
      reads usedMap, usedMap.bits
    {
      base > 0 && usedMap.Valid()
    }

    /** PAGE lies in this pool. */
    predicate Owns(page: nat) { base <= page < base + usedMap.bitCnt }

    /** PAGE is in this pool and in use. */
    ghost predicate InUse(page: nat)
      requires Valid()
      reads usedMap, usedMap.bits
    {
      Owns(page) && usedMap.contents[page - base]
    }

    constructor (start: nat, pageCnt: nat)
      requires start > 0 && BitmapPages(pageCnt) <= pageCnt
      ensures Valid() && fresh(usedMap) && fresh(usedMap.bits)
      ensures base == start + BitmapPages(pageCnt) && base + usedMap.bitCnt == start + pageCnt
      ensures forall p :: !InUse(p)
    {
      var bmPages := BitmapPages(pageCnt);
      BitmapFits(pageCnt);
      assert BufSize(pageCnt - bmPages) <= bmPages * PGSIZE;
      usedMap := new Bits(pageCnt - bmPages);
      base := start + bmPages;
    }
  }

  class Allocator {
    const kernel: Pool
    const user: Pool
    ghost var used: set<nat>

    /** The bitmaps, which change with USED. */
    ghost function Objects(): set<object> { {kernel.usedMap, kernel.usedMap.bits, user.usedMap, user.usedMap.bits} }

    ghost predicate Valid()
      reads this, Objects()
    {
      && kernel.Valid() && user.Valid()
      && kernel.usedMap != user.usedMap && kernel.usedMap.bits != user.usedMap.bits
      && kernel.base + kernel.usedMap.bitCnt < user.base
      && forall p :: p in used <==> kernel.InUse(p) || user.InUse(p)
    }

    /** palloc_init, with START the first free page and FREE the number of free pages. */
    constructor (start: nat, free: nat, userLimit: nat)
      requires start > 0
      requires var u := if free / 2 > userLimit then userLimit else free / 2; BitmapPages(u) <= u && BitmapPages(free - u) <= free - u
      ensures Valid() && fresh(Objects()) && used == {}
      ensures start < kernel.base && user.base + user.usedMap.bitCnt == start + free
      ensures var u := if free / 2 > userLimit then userLimit else free / 2;
        && kernel.base == start + BitmapPages(free - u) && kernel.base + kernel.usedMap.bitCnt == start + free - u
        && user.base == start + free - u + BitmapPages(u)
    {
      var userPages := free / 2;
      if userPages > userLimit { userPages := userLimit; }
      var kernelPages := free - userPages;
      kernel := new Pool(start, kernelPages);
      user := new Pool(start + kernelPages, userPages);
      used := {};
    }

    /** First fit in the chosen pool; 0 when CNT is 0 or no CNT free pages of that pool are adjacent. */
    method GetMultiple(fromUser: bool, cnt: nat) returns (page: nat)
      requires Valid()
      modifies this`used, Objects()
      ensures Valid()
      ensures page == 0 ==> used == old(used)
      ensures page != 0 ==> cnt > 0 && used == old(used) + Interval(page, cnt) && Interval(page, cnt) !! old(used)
      ensures var pool := if fromUser then user else kernel;
        && (page != 0 ==> pool.base <= page && page + cnt <= pool.base + pool.usedMap.bitCnt)
        && (cnt > 0 ==> FirstFit(old(pool.usedMap.contents), pool.base, cnt, page))
        && (cnt > 0 ==> (page == 0 <==> !exists p: nat :: FreeRun(old(used), pool.base, pool.usedMap.bitCnt, p, cnt)))
    {
      hide BitAt;
      if cnt == 0 { return 0; }
      var pool := if fromUser then user else kernel;
      RunsOfPool(pool.usedMap.contents, pool.base, used, cnt);
      var idx := pool.usedMap.ScanAndFlip(0, cnt, false);
      if idx == BITMAP_ERROR { return 0; }
      page := pool.base + idx;
      used := used + Interval(page, cnt);
    }

    /** The number of free pages in one of the pools. */
    ghost function FreeCnt(fromUser: bool): nat
      reads this
    {
      var pool := if fromUser then user else kernel;
      |Interval(pool.base, pool.usedMap.bitCnt) - used|
    }

    lemma PoolsApart()
      requires Valid()
      ensures kernel.base + kernel.usedMap.bitCnt < user.base
    {
    }

    /** palloc_get_page: fails exactly when the chosen pool is exhausted; otherwise it has one page less, and the other
        pool as many as before. */
    method GetPage(fromUser: bool) returns (page: nat)
      requires Valid()
      modifies this`used, Objects()
      ensures Valid()
      ensures page == 0 <==> old(FreeCnt(fromUser)) == 0
      ensures page == 0 ==> used == old(used)
      ensures page != 0 ==> page !in old(used) && used == old(used) + {page}
      ensures page != 0 ==> FreeCnt(fromUser) == old(FreeCnt(fromUser)) - 1 && FreeCnt(!fromUser) == old(FreeCnt(!fromUser))
    {
      hide Valid, FreeRun, FirstFit, Interval;
      PoolsApart();
      ghost var u, pool, other := used, if fromUser then user else kernel, if fromUser then kernel else user;
      OneFree(u, pool.base, pool.usedMap.bitCnt);
      page := GetMultiple(fromUser, 1);
      if page != 0 {
        JustOne(page);
        TookOne(u, pool.base, pool.usedMap.bitCnt, page);
        TookOne(u, other.base, other.usedMap.bitCnt, page);
      }
    }

    /** Frees CNT pages, which must all be in use, in one pool. */
    method FreeMultiple(page: nat, cnt: nat)
      requires Valid() && (page == 0 || cnt == 0 || Interval(page, cnt) <= used)
      modifies this`used, Objects()
      ensures Valid() && used == if page == 0 then old(used) else old(used) - Interval(page, cnt)
    {
      hide BitAt;
      if page == 0 || cnt == 0 { return; }
      assert page in Interval(page, cnt) && page + cnt - 1 in Interval(page, cnt);
      ghost var end := kernel.base + kernel.usedMap.bitCnt;
      assert end !in used;
      assert kernel.Owns(page) && page + cnt > end ==> end in Interval(page, cnt);
      var pool := if kernel.Owns(page) then kernel else user;
      var idx := page - pool.base;
      used := used - Interval(page, cnt);
      pool.usedMap.SetMultiple(idx, cnt, false);
    }
  }
}
