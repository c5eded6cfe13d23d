/** malloc and free of pintos/src/threads/malloc.c, over the page allocator. */
module Malloc {
  import opened Seqs
  import opened Bitmap
  import opened Palloc
  import opened Arenas

  /** A descriptor without its free list, which is FREELISTS[d]. */
  datatype Desc = Desc(blockSize: nat, blocksPerArena: nat)

  predicate DescsOk(descs: seq<Desc>) {
    |descs| == DESC_CNT && forall d: nat :: d < DESC_CNT ==> descs[d] == Desc(BlockSize(d), PerArena(d))
  }

  /** The pages malloc asks for when SIZE exceeds every descriptor, in 32-bit arithmetic. */
  function BigPages(size: nat): nat {
    ((size + HEADER) % SIZE_LIMIT + PGSIZE - 1) % SIZE_LIMIT / PGSIZE
  }

  /** N pages are just enough for SIZE bytes and the header. */
  predicate FewestPages(n: nat, size: nat) { (n - 1) * PGSIZE < size + HEADER <= n * PGSIZE }

  /** Enough pages exactly when adding the header does not wrap; none when only the rounding wraps. */
  lemma BigPagesEnough(size: nat)
    requires BlockSize(DESC_CNT - 1) < size < SIZE_LIMIT
    ensures BigPages(size) == 0 <==> SIZE_LIMIT - HEADER - PGSIZE < size <= SIZE_LIMIT - HEADER
    ensures BigPages(size) > 0 ==> (size <= BigPages(size) * PGSIZE - HEADER <==> size + HEADER < SIZE_LIMIT)
    ensures BigPages(size) > 0 && size + HEADER < SIZE_LIMIT ==> FewestPages(BigPages(size), size)
    ensures BigPages(size) > 0 && size + 12 < 0x1_0000_0000 ==>
      (BigPages(size) - 1) * 4096 < size + 12 <= BigPages(size) * 4096
    ensures size + HEADER > SIZE_LIMIT ==> BigPages(size) == 1
  {
  }

  function PagesFor(size: nat): nat { if size <= BlockSize(DESC_CNT - 1) then 1 else BigPages(size) }

  /** No N adjacent pages are free; N == 0 is refused as well. */
  ghost predicate NoRoom(usedMap: seq<bool>, n: nat) { n == 0 || forall p :: !Group(usedMap, p, n, false) }

  /** D is the descriptor that serves SIZE: the first whose blocks are large enough. */
  predicate Serves(d: nat, size: nat) {
    d < DESC_CNT && size <= BlockSize(d) && (d > 0 ==> BlockSize(d - 1) < size)
  }

  /** The free list that serves SIZE holds a block. */
  ghost predicate Stocked(free: seq<seq<Addr>>, size: nat)
    requires |free| == DESC_CNT
  {
    exists d: nat :: Serves(d, size) && free[d] != []
  }

  lemma {:induction false} SizesGrow(d: nat, e: nat)
    requires d <= e < DESC_CNT
    ensures BlockSize(d) <= BlockSize(e)
    decreases e
  {
    if d < e { SizesGrow(d, e - 1); }
  }

  lemma ServesOnce(d: nat, e: nat, size: nat)
    requires Serves(d, size) && Serves(e, size)
    ensures d == e
  {
    if d < e { SizesGrow(d, e - 1); } else if e < d { SizesGrow(e, d - 1); }
  }

  lemma StockedIn(free: seq<seq<Addr>>, d: nat, size: nat)
    requires |free| == DESC_CNT && Serves(d, size)
    ensures Stocked(free, size) <==> free[d] != []
  {
    if e: nat :| Serves(e, size) && free[e] != [] { ServesOnce(d, e, size); }
  }

  lemma NotStocked(free: seq<seq<Addr>>, size: nat)
    requires |free| == DESC_CNT && BlockSize(DESC_CNT - 1) < size
    ensures !Stocked(free, size)
  {
    if e: nat :| Serves(e, size) && free[e] != [] { SizesGrow(e, DESC_CNT - 1); }
  }

  /** A is the kind of arena that serves SIZE: of the smallest blocks that are large enough, or, for more than every
      block holds, of just enough pages; only a request that wraps around is not held. */
  predicate Holds(a: Arena, size: nat) {
    && (a.Small? <==> size <= 1024)
    && (a.Small? ==> Serves(a.desc, size))
    && (a.Big? && size + HEADER < SIZE_LIMIT ==> FewestPages(a.pages, size))
    && (size <= Capacity(a) <==> size + HEADER < SIZE_LIMIT)
  }

  /** R was the first block of the free list that serves SIZE, and is no longer on it. */
  ghost predicate FromList(before: seq<seq<Addr>>, after: seq<seq<Addr>>, r: Addr, size: nat)
    requires |before| == DESC_CNT
  {
    exists d: nat :: Serves(d, size) && before[d] != [] && r == before[d][0] && after == before[d := before[d][1..]]
  }

  /** B of arena A went to the front of its free list. */
  ghost predicate BackInFront(before: seq<seq<Addr>>, after: seq<seq<Addr>>, a: Arena, b: Addr) {
    a.Small? && a.desc < |before| && after == before[a.desc := [b] + before[a.desc]]
  }

  /** The pages of R's arena if it is a new one. */
  ghost function NewPages(before: map<nat, Arena>, after: map<nat, Arena>, r: Addr): set<nat> {
    if r != 0 && PageOf(r) !in before && PageOf(r) in after then Interval(PageOf(r), PageCnt(after[PageOf(r)])) else {}
  }

  /** B is the only live block of its arena. */
  ghost predicate LastLive(live: map<Addr, nat>, b: Addr) {
    forall c :: c in live && c != b ==> PageOf(c) != PageOf(b)
  }

  class Heap {
    const palloc: Allocator
    var descs: seq<Desc>
    var freeLists: seq<seq<Addr>>
    var arenas: map<nat, Arena>
    ghost var live: map<Addr, nat>

    ghost function Now(): State
      reads this, palloc
    {
      State(palloc.used, arenas, freeLists, live)
    }

    ghost predicate Valid()
      reads this, palloc, palloc.Objects()
    {
      palloc.Valid() && DescsOk(descs) && Inv(Now())
    }

    /** malloc_init */
    constructor (p: Allocator)
      requires p.Valid()
      ensures Valid() && palloc == p && live == map[]
    {
      palloc := p;
      arenas, live := map[], map[];
      var ds: seq<Desc> := [];
      var blockSize := 16;
      while blockSize < PGSIZE / 2
        invariant |ds| <= DESC_CNT && blockSize == if |ds| < DESC_CNT then BlockSize(|ds|) else PGSIZE / 2
        invariant forall d: nat :: d < |ds| ==> ds[d] == Desc(BlockSize(d), PerArena(d))
        decreases DESC_CNT - |ds|
      {
        ds := ds + [Desc(blockSize, (PGSIZE - HEADER) / blockSize)];
        blockSize := blockSize * 2;
      }
      descs := ds;
      freeLists := seq(DESC_CNT, _ => []);
    }

    /** The smallest descriptor whose blocks hold SIZE bytes. */
    method FindDesc(size: nat) returns (d: nat)
      requires DescsOk(descs)
      ensures d <= DESC_CNT && (d < DESC_CNT ==> size <= BlockSize(d)) && forall e: nat :: e < d ==> BlockSize(e) < size
    {
      d := 0;
      while d < |descs|
        invariant d <= DESC_CNT && forall e: nat :: e < d ==> BlockSize(e) < size
      {
        if descs[d].blockSize >= size { break; }
        d := d + 1;
      }
    }

    /** A block of at least SIZE bytes that no live block overlaps, or 0 and nothing changed. */
    method Malloc(size: nat) returns (r: Addr)
      requires Valid() && size < SIZE_LIMIT
      modifies this, palloc, palloc.Objects()
      ensures Valid()
      ensures |old(freeLists)| == DESC_CNT
      ensures r != 0 ==> Allocated(old(Now()), Now(), r, size)
      ensures r == 0 ==> Now() == old(Now())
      ensures r == 0 <==>
        size == 0 || (!Stocked(old(freeLists), size) && NoRoom(old(palloc.kernel.usedMap.contents), PagesFor(size)))
      ensures size > 0 && Stocked(old(freeLists), size) ==> FromList(old(freeLists), freeLists, r, size)
      ensures r != 0 && !Stocked(old(freeLists), size) ==>
        FirstFit(old(palloc.kernel.usedMap.contents), palloc.kernel.base, PagesFor(size), PageOf(r)) && r % 4096 == 12
    {
      hide InvBut, NoRoom, FirstFit, Allocated, Stocked, Allocator.Valid;
      ListCount(Now(), {});
      if size == 0 { return 0; }
      var d := FindDesc(size);
      if d < DESC_CNT { StockedIn(freeLists, d, size); } else { NotStocked(freeLists, size); }
      if d == |descs| { r := MallocBig(size); } else { r := MallocSmall(d, size); }
    }

    method MallocSmall(d: nat, size: nat) returns (r: Addr)
      requires Valid() && 0 < size && Serves(d, size)
      modifies this, palloc, palloc.Objects()
      ensures Valid()
      ensures |old(freeLists)| == DESC_CNT
      ensures r != 0 ==> Allocated(old(Now()), Now(), r, size)
      ensures r == 0 ==> Now() == old(Now())
      ensures r == 0 <==> old(freeLists)[d] == [] && NoRoom(old(palloc.kernel.usedMap.contents), PagesFor(size))
      ensures old(freeLists)[d] != [] ==> r == old(freeLists)[d][0] && freeLists == old(freeLists)[d := old(freeLists)[d][1..]]
      ensures r != 0 && old(freeLists)[d] == [] ==>
        FirstFit(old(palloc.kernel.usedMap.contents), palloc.kernel.base, PagesFor(size), PageOf(r)) && r % 4096 == 12
    {
      hide InvBut, TakeFirst, AddArena, NoRoom, FirstFit, Interval, Allocator.Valid;
      ListCount(Now(), {});
      if freeLists[d] == [] {
        assert PagesFor(size) == 1;
        var p := palloc.GetMultiple(false, 1);
        RoomHere(old(palloc.kernel.usedMap.contents), palloc.kernel.base, 1, p);
        if p == 0 { return 0; }
        OnePage(p);
        CarveArena(p, d, old(Now()));
        NewArenaOutcome(old(Now()), p, d, size);
        r := Pop(d, size, {p});
      } else {
        OldArenaOutcome(old(Now()), d, size);
        r := Pop(d, size, {});
      }
    }

    /** Makes the page P, just obtained, an arena and pushes its blocks on the free list. */
    method CarveArena(p: nat, d: nat, ghost s: State)
      requires palloc.Valid() && DescsOk(descs) && Inv(s) && d < DESC_CNT && 0 < p && p !in s.used && s.free[d] == []
      requires Now() == s.(used := s.used + {p})
      modifies this`arenas, this`freeLists
      ensures InvBut(Now(), {p}) && Now() == AddArena(s, p, d)
    {
      arenas := arenas[p := Small(d, descs[d].blocksPerArena)];
      var list := PushBlocks(freeLists[d], p, d, descs[d].blocksPerArena);
      freeLists := freeLists[d := list];
      hide Inv, InvBut;
      assert Now() == AddArena(s, p, d);
      AddArenaInv(s, p, d);
      assert PerArena(d) > 0;
      NewBlocks(p, d, PerArena(d));
    }

    /** Takes the first free block of descriptor D. */
    method Pop(d: nat, size: nat, ghost full: set<nat>) returns (b: Addr)
      requires palloc.Valid() && DescsOk(descs) && InvBut(Now(), full) && d < DESC_CNT == |freeLists|
      requires freeLists[d] != [] && 0 < size <= BlockSize(d) && full <= {PageOf(freeLists[d][0])}
      modifies this`arenas, this`freeLists, this`live
      ensures Valid() && b == old(freeLists)[d][0] && Now() == TakeFirst(old(Now()), d, size)
    {
      PopStep(Now(), d, size, full);
      hide Inv, InvBut, PageOf, TakeFirst, BlockSize;
      b := freeLists[d][0];
      freeLists := freeLists[d := freeLists[d][1..]];
      var p := PageOf(b);
      arenas := arenas[p := Small(arenas[p].desc, arenas[p].freeCnt - 1)];
      live := live[b := size];
    }

    method MallocBig(size: nat) returns (r: Addr)
      requires Valid() && BlockSize(DESC_CNT - 1) < size < SIZE_LIMIT
      modifies this, palloc, palloc.Objects()
      ensures Valid()
      ensures r != 0 ==> Allocated(old(Now()), Now(), r, size)
      ensures r == 0 ==> Now() == old(Now())
      ensures r == 0 <==> NoRoom(old(palloc.kernel.usedMap.contents), PagesFor(size))
      ensures r != 0 ==>
        FirstFit(old(palloc.kernel.usedMap.contents), palloc.kernel.base, PagesFor(size), PageOf(r)) && r % 4096 == 12
    {
      hide Inv, InvBut, Allocated, NoRoom, FirstFit, Interval, Allocator.Valid;
      var pageCnt := BigPages(size);
      assert PagesFor(size) == pageCnt;
      var p := palloc.GetMultiple(false, pageCnt);
      RoomHere(old(palloc.kernel.usedMap.contents), palloc.kernel.base, pageCnt, p);
      if p == 0 { return 0; }
      BigOutcome(old(Now()), p, pageCnt, size);
      arenas := arenas[p := Big(pageCnt)];
      r := BigBlock(p);
      BigBlockPage(p);
      live := live[r := size];
      assert Now() == AddBig(old(Now()), p, pageCnt, size);
    }

    /** Frees B; its pages go back exactly when it was the last live block of its arena. */
    method Free(b: Addr)
      requires Valid() && (b == 0 || b in live)
      modifies this, palloc, palloc.Objects()
      ensures Valid() && live == if b == 0 then old(live) else old(live) - {b}
      ensures palloc.used == old(palloc.used)
        - (if b != 0 && LastLive(old(live), b) then Interval(PageOf(b), PageCnt(old(arenas)[PageOf(b)])) else {})
      ensures b != 0 && !LastLive(old(live), b) ==> BackInFront(old(freeLists), freeLists, old(arenas)[PageOf(b)], b)
    {
      hide Inv, InvBut, LiveOk, LastLive, PageOf, Interval, Allocator.Valid;
      if b == 0 { return; }
      LivePage(Now(), b);
      var p := PageOf(b);
      match arenas[p]
      case Small(d, cnt) => FreeSmall(b, p, d, cnt);
      case Big(n) => FreeBig(b, p, n);
    }

    method FreeBig(b: Addr, p: nat, n: nat)
      requires Valid() && b in live && LiveOk(Now(), b) && p == PageOf(b) && p in arenas && arenas[p] == Big(n) && 0 < p
      requires Interval(p, n) <= palloc.used
      modifies this, palloc, palloc.Objects()
      ensures Valid() && live == old(live) - {b} && LastLive(old(live), b)
      ensures palloc.used == old(palloc.used) - Interval(p, n)
    {
      hide Inv, InvBut, LiveOk, Interval, Allocator.Valid;
      ghost var s := Now();
      DropBigInv(s, b);
      palloc.FreeMultiple(p, n);
      arenas := arenas - {p};
      live := live - {b};
      assert Now() == DropBig(s, b);
    }

    method FreeSmall(b: Addr, p: nat, d: nat, cnt: nat)
      requires Valid() && b in live && LiveOk(Now(), b) && p == PageOf(b) && p in arenas && arenas[p] == Small(d, cnt) && d < DESC_CNT
      modifies this, palloc, palloc.Objects()
      ensures Valid() && live == old(live) - {b}
      ensures palloc.used == old(palloc.used) - (if LastLive(old(live), b) then {p} else {})
      ensures !LastLive(old(live), b) ==> BackInFront(old(freeLists), freeLists, old(arenas)[p], b)
    {
      hide InvBut, LiveOk, PageOf, PerArena, Allocator.Valid;
      ghost var s := Now();
      ListCount(s, {});
      freeLists := freeLists[d := [b] + freeLists[d]];
      arenas := arenas[p := Small(d, cnt + 1)];
      live := live - {b};
      FreeSmallInv(s, b, p, d, cnt, Now());
      if cnt + 1 >= descs[d].blocksPerArena { ReleaseArena(p, d); }
    }

    /** The arena P is wholly free: its blocks leave the free list and its page goes back. */
    method ReleaseArena(p: nat, d: nat)
      requires palloc.Valid() && DescsOk(descs) && InvBut(Now(), {p}) && d < DESC_CNT == |freeLists|
      requires p in arenas && arenas[p] == Small(d, PerArena(d))
      modifies this`freeLists, this`arenas, palloc, palloc.Objects()
      ensures Valid() && live == old(live) && palloc.used == old(palloc.used) - {p}
      ensures forall c :: c in live ==> PageOf(c) != p
    {
      hide Inv, InvBut, Interval, Allocator.Valid;
      ghost var t := Now();
      ArenaPage(t, p, {p});
      DropArenaInv(t, p, d);
      var list := RemoveBlocks(freeLists[d], p, d, descs[d].blocksPerArena);
      freeLists := freeLists[d := list];
      palloc.FreeMultiple(p, 1);
      arenas := arenas - {p};
      assert Now() == DropArena(t, p, d);
    }
  }

  /** The loop that puts the first N blocks of a new arena on the free list. */
  method PushBlocks(free: seq<Addr>, p: nat, d: nat, n: nat) returns (r: seq<Addr>)
    requires d < DESC_CNT
    ensures r == free + BlockSeq(p, d, n)
  {
    r := free;
    var i := 0;
    while i < n
      invariant i <= n && r == free + BlockSeq(p, d, i)
    {
      r := r + [Block(p, d, i)];
      assert BlockSeq(p, d, i + 1) == BlockSeq(p, d, i) + [Block(p, d, i)];
      i := i + 1;
    }
  }

  /** The loop that takes them off again. */
  method RemoveBlocks(free: seq<Addr>, p: nat, d: nat, n: nat) returns (r: seq<Addr>)
    requires d < DESC_CNT
    ensures r == Minus(free, AllBlocks(p, d, n))
  {
    r := free;
    MinusNothing(free);
    assert AllBlocks(p, d, 0) == {};
    var i := 0;
    while i < n
      invariant i <= n && r == Minus(free, AllBlocks(p, d, i))
    {
      MinusTwice(free, AllBlocks(p, d, i), {Block(p, d, i)});
      assert AllBlocks(p, d, i + 1) == AllBlocks(p, d, i) + {Block(p, d, i)};
      r := Minus(r, {Block(p, d, i)});
      i := i + 1;
    }
  }

  /** A block that is freed while its arena has another is the next one handed out for its size. */
  method FreeThenMalloc(h: Heap, b: Addr, size: nat) returns (r: Addr)
    requires h.Valid() && b in h.live && !LastLive(h.live, b) && 0 < size < SIZE_LIMIT
    requires PageOf(b) in h.arenas && h.arenas[PageOf(b)].Small? && Serves(h.arenas[PageOf(b)].desc, size)
    modifies h, h.palloc, h.palloc.Objects()
    ensures h.Valid() && r == b && h.live == old(h.live)[b := size] && h.freeLists == old(h.freeLists)
  {
    hide InvBut, Allocator.Valid, NoRoom, FirstFit, LastLive, PageOf, Interval, Serves, Holds, NewPages;
    ghost var s := h.Now();
    LivePage(s, b);
    ListCount(s, {});
    ghost var d := h.arenas[PageOf(b)].desc;
    h.Free(b);
    ghost var t := h.Now();
    BlockAgain(s, t, b, d, size);
    r := h.Malloc(size);
    TakenAgain(t.free, h.freeLists, r, d, size);
    assert t.free[d][1..] == s.free[d];
  }

  lemma BlockAgain(s: State, t: State, b: Addr, d: nat, size: nat)
    requires |s.free| == DESC_CNT && d < DESC_CNT && t.free == s.free[d := [b] + s.free[d]] && Serves(d, size)
    ensures Stocked(t.free, size) && t.free[d] == [b] + s.free[d]
  {
  }

  lemma TakenAgain(before: seq<seq<Addr>>, after: seq<seq<Addr>>, r: Addr, d: nat, size: nat)
    requires |before| == DESC_CNT && Serves(d, size) && FromList(before, after, r, size)
    ensures before[d] != [] && r == before[d][0] && after == before[d := before[d][1..]]
  {
    var e: nat :| Serves(e, size) && before[e] != [] && r == before[e][0] && after == before[e := before[e][1..]];
    ServesOnce(d, e, size);
  }

  /** From S to T the block R was allocated for SIZE bytes, on new pages or in an arena that was there. */
  ghost predicate Allocated(s: State, t: State, r: Addr, size: nat) {
    && r != 0 && r !in s.live && t.live == s.live[r := size]
    && PageOf(r) in t.arenas && Holds(t.arenas[PageOf(r)], size)
    && t.used == s.used + NewPages(s.arenas, t.arenas, r)
  }

  lemma BigOutcome(s: State, p: nat, n: nat, size: nat)
    requires Inv(s) && 0 < p && 0 < n && Interval(p, n) !! s.used && n == BigPages(size) && BlockSize(DESC_CNT - 1) < size < SIZE_LIMIT
    ensures Inv(AddBig(s, p, n, size)) && Allocated(s, AddBig(s, p, n, size), BigBlock(p), size)
  {
    hide InvBut, BigPages;
    BigPagesEnough(size);
    AddBigInv(s, p, n, size);
    assert p in Interval(p, n);
    UnusedPage(s, p, {});
    BigBlockPage(p);
  }

  lemma OldArenaOutcome(s: State, d: nat, size: nat)
    requires Inv(s) && d < DESC_CNT == |s.free| && s.free[d] != [] && 0 < size && Serves(d, size)
    ensures Allocated(s, TakeFirst(s, d, size), s.free[d][0], size)
    ensures TakeFirst(s, d, size).free == s.free[d := s.free[d][1..]]
  {
    FirstFree(s, d, {});
    hide Inv, IsBlock;
  }

  lemma NewArenaOutcome(s: State, p: nat, d: nat, size: nat)
    requires Inv(s) && d < DESC_CNT == |s.free| && s.free[d] == [] && 0 < p && p !in s.used && 0 < size && Serves(d, size)
    ensures var t := AddArena(s, p, d);
      && |t.free| == DESC_CNT && t.free[d] != [] && PageOf(t.free[d][0]) == p && t.free[d][0] % 4096 == 12
      && Allocated(s, TakeFirst(t, d, size), t.free[d][0], size)
  {
    hide InvBut, IsBlock, PerArena, BlockSeq, PageOf, Index, FreeIn;
    var t := AddArena(s, p, d);
    AddArenaInv(s, p, d);
    UnusedPage(s, p, {});
    NewBlocks(p, d, PerArena(d));
    ListCount(t, {p});
    FirstBlock(p, d);
    FirstFree(t, d, {p});
    OnePage(p);
    NotNull(t.free[d][0]);
  }

  lemma PopStep(s: State, d: nat, size: nat, full: set<nat>)
    requires InvBut(s, full) && d < DESC_CNT && s.free[d] != [] && size <= BlockSize(d) && full <= {PageOf(s.free[d][0])}
    ensures var b := s.free[d][0];
      var p := PageOf(b);
      && p in s.arenas && s.arenas[p].Small? && s.arenas[p].desc == d && s.arenas[p].freeCnt > 0 && Inv(TakeFirst(s, d, size))
      && TakeFirst(s, d, size)
         == State(s.used, s.arenas[p := Small(d, s.arenas[p].freeCnt - 1)], s.free[d := s.free[d][1..]], s.live[b := size])
  {
    FirstFree(s, d, full);
    TakeInv(s, d, size, full);
  }

  lemma FreeSmallInv(s: State, b: Addr, p: nat, d: nat, cnt: nat, t: State)
    requires Inv(s) && b in s.live && LiveOk(s, b) && p == PageOf(b) && s.arenas[p] == Small(d, cnt) && |s.free| == DESC_CNT
    requires t == State(s.used, s.arenas[p := Small(d, cnt + 1)], s.free[d := [b] + s.free[d]], s.live - {b})
    ensures cnt + 1 <= PerArena(d) && InvBut(t, {p})
    ensures cnt + 1 < PerArena(d) ==> Inv(t) && !LastLive(s.live, b)
  {
    hide InvBut;
    PutBackInv(s, b);
    assert t == PutBack(s, b);
    if cnt + 1 < PerArena(d) { StillLive(t, p, d); }
  }

  /** An arena that is not wholly free holds a live block. */
  lemma StillLive(s: State, p: nat, d: nat)
    requires Inv(s) && p in s.arenas && s.arenas[p].Small? && s.arenas[p].desc == d
    ensures exists c :: c in s.live && PageOf(c) == p
  {
    assert ArenaOk(s, p, {});
    var all := Interval(0, PerArena(d));
    IntervalSize(0, PerArena(d));
    if all <= FreeIn(s.free[d], p, d) { SubsetSize(all, FreeIn(s.free[d], p, d)); }
    var i :| i in all && i !in FreeIn(s.free[d], p, d);
    BlockPlace(p, d, i);
    assert Block(p, d, i) in s.live;
  }

  lemma ListCount(s: State, full: set<nat>)
    requires InvBut(s, full)
    ensures |s.free| == DESC_CNT
  {
  }

  lemma LivePage(s: State, b: Addr)
    requires Inv(s) && b in s.live
    ensures var p := PageOf(b);
      && p in s.arenas && LiveOk(s, b) && 0 < p && Interval(p, 1) == {p}
      && (s.arenas[p].Small? ==> s.arenas[p].desc < DESC_CNT)
      && (s.arenas[p].Big? ==> Interval(p, s.arenas[p].pages) <= s.used)
  {
    LiveInside(s, b);
    assert ArenaOk(s, PageOf(b), {});
  }

  lemma ArenaPage(s: State, p: nat, full: set<nat>)
    requires InvBut(s, full) && p in s.arenas && s.arenas[p].Small?
    ensures 0 < p && p in s.used && Interval(p, 1) == {p}
  {
    assert ArenaOk(s, p, full);
  }

  lemma FirstBlock(p: nat, d: nat)
    requires d < DESC_CNT
    ensures PerArena(d) > 0 && BlockSeq(p, d, PerArena(d)) != [] && BlockSeq(p, d, PerArena(d))[0] % 4096 == 12
  {
  }

  lemma NotNull(b: Addr)
    ensures PageOf(b) > 0 ==> b != 0
  {
  }

  lemma OnePage(p: nat)
    ensures Interval(p, 1) == {p}
  {
  }

  lemma RoomHere(usedMap: seq<bool>, base: nat, n: nat, page: nat)
    requires if n > 0 then FirstFit(usedMap, base, n, page) else page == 0
    ensures NoRoom(usedMap, n) <==> page == 0
  {
  }

  lemma BigBlockPage(p: nat)
    ensures PageOf(BigBlock(p)) == p && BigBlock(p) % 4096 == 12
  {
  }
}
