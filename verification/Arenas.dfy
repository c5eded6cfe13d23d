/** The state of the block allocator of pintos/src/threads/malloc.c: arenas made of pages, blocks
    inside them, free lists, and what every malloc and free keeps.  Addresses are numbers; the page
    of an address is address / PGSIZE. */
module Arenas {
  import opened Palloc
  import opened Seqs
  import Arithmetic

  type Addr = nat

  const HEADER: nat := 12                       // sizeof (struct arena)
  const DESC_CNT: nat := 7
  const SIZE_LIMIT: nat := 0x1_0000_0000        // size_t has 32 bits

  function BlockSize(d: nat): nat
    requires d < DESC_CNT
  {
    [16, 32, 64, 128, 256, 512, 1024][d]
  }

  function PerArena(d: nat): nat
    requires d < DESC_CNT
  {
    (PGSIZE - HEADER) / BlockSize(d)
  }

  /** arena_to_block */
  function Block(p: nat, d: nat, i: nat): Addr
    requires d < DESC_CNT
  {
    p * PGSIZE + HEADER + i * BlockSize(d)
  }

  function BigBlock(p: nat): Addr { p * PGSIZE + HEADER }

  function PageOf(b: Addr): nat { b / PGSIZE }

  function Index(b: Addr, d: nat): int
    requires d < DESC_CNT
  {
    (b % PGSIZE - HEADER) / BlockSize(d)
  }

  /** B is a block of an arena of descriptor D: what the assertions of block_to_arena check. */
  predicate IsBlock(b: Addr, d: nat)
    requires d < DESC_CNT
  {
    0 <= Index(b, d) < PerArena(d) && b == Block(PageOf(b), d, Index(b, d))
  }

  /** The descriptors: blocks of 16 bytes and then twice as many each time, up to the last below half a page. */
  lemma BlockSizes(d: nat)
    requires d < DESC_CNT
    ensures BlockSize(0) == 16 && (d + 1 < DESC_CNT ==> BlockSize(d + 1) == 2 * BlockSize(d))
    ensures BlockSize(d) < PGSIZE / 2 <= 2 * BlockSize(DESC_CNT - 1)
  {
  }

  /** An arena holds as many blocks as fit behind its header, one right behind the other. */
  lemma Packed(p: nat, d: nat, i: nat)
    requires d < DESC_CNT
    ensures Block(p, d, 0) == p * PGSIZE + 12 == BigBlock(p) && Block(p, d, i + 1) == Block(p, d, i) + BlockSize(d)
    ensures PerArena(d) * BlockSize(d) <= PGSIZE - 12 < (PerArena(d) + 1) * BlockSize(d)
  {
  }

  // ---------- address arithmetic

  lemma IndexFits(i: nat, n: nat, size: nat)
    requires 0 < size && i < n / size
    ensures (i + 1) * size <= n
  {
    assert n / size * size <= n;
    assert (i + 1) * size <= n / size * size;
  }

  lemma QuotientOf(i: nat, size: nat)
    requires 0 < size
    ensures i * size / size == i
  {
    assert (i + 1) * size == i * size + size;
    Arithmetic.QuotientUnique(i * size, size, i);
  }

  /** The blocks of an arena lie behind its header in its page, and each is found again from its
      address. */
  lemma BlockPlace(p: nat, d: nat, i: nat)
    requires d < DESC_CNT && i < PerArena(d)
    ensures PageOf(Block(p, d, i)) == p && Index(Block(p, d, i), d) == i && IsBlock(Block(p, d, i), d)
    ensures p * PGSIZE + HEADER <= Block(p, d, i) && Block(p, d, i) + BlockSize(d) <= (p + 1) * PGSIZE
  {
    var size := BlockSize(d);
    IndexFits(i, PGSIZE - HEADER, size);
    assert (i + 1) * size == i * size + size;
    QuotientOf(i, size);
    var o := HEADER + i * size;
    assert Block(p, d, i) == p * PGSIZE + o && 0 <= o < PGSIZE;
  }

  /** Two blocks of one arena do not overlap. */
  lemma BlocksApart(p: nat, d: nat, i: nat, j: nat)
    requires d < DESC_CNT && i < j
    ensures Block(p, d, i) + BlockSize(d) <= Block(p, d, j)
  {
    var size := BlockSize(d);
    assert (i + 1) * size <= j * size;
    assert (i + 1) * size == i * size + size;
  }

  // ---------- the state

  /** An arena header: the descriptor and the number of free blocks, or the pages of a big block. */
  datatype Arena = Small(desc: nat, freeCnt: nat) | Big(pages: nat)

  /** USED: pages taken from the page allocator.  LIVE: blocks handed out, with the size asked for. */
  datatype State = State(used: set<nat>, arenas: map<nat, Arena>, free: seq<seq<Addr>>, live: map<Addr, nat>)

  function PageCnt(a: Arena): nat { if a.Big? then a.pages else 1 }

  /** Bytes of a block of A that its user may write. */
  function Capacity(a: Arena): int
    requires a.Small? ==> a.desc < DESC_CNT
  {
    if a.Small? then BlockSize(a.desc) else a.pages * PGSIZE - HEADER
  }

  ghost function Span(s: State, p: nat): set<nat>
    requires p in s.arenas
  {
    Interval(p, PageCnt(s.arenas[p]))
  }

  /** Indexes of the blocks of page P that are on the list FREE. */
  ghost function FreeIn(free: seq<Addr>, p: nat, d: nat): set<nat>
    requires d < DESC_CNT
  {
    set i: nat | i < PerArena(d) && Block(p, d, i) in free
  }

  /** Each block of the arena is either free or live. */
  ghost predicate BlocksOk(s: State, p: nat, d: nat)
    requires d < DESC_CNT && |s.free| == DESC_CNT
  {
    forall i: nat :: i < PerArena(d) ==> (Block(p, d, i) in s.free[d] <==> Block(p, d, i) !in s.live)
  }

  /** P may be wholly free only if it is in FULL. */
  ghost predicate ArenaOk(s: State, p: nat, full: set<nat>)
    requires p in s.arenas && |s.free| == DESC_CNT
  {
    && 0 < p && Span(s, p) <= s.used
    && match s.arenas[p]
       case Small(d, cnt) =>
         d < DESC_CNT && cnt == |FreeIn(s.free[d], p, d)| && (cnt < PerArena(d) || p in full) && BlocksOk(s, p, d)
       case Big(n) => n > 0 && BigBlock(p) in s.live
  }

  ghost predicate FreeListOk(s: State, d: nat)
    requires d < DESC_CNT && |s.free| == DESC_CNT
  {
    NoDup(s.free[d]) && forall b :: b in s.free[d] ==> FreeOk(s, d, b)
  }

  ghost predicate FreeOk(s: State, d: nat, b: Addr)
    requires d < DESC_CNT
  {
    IsBlock(b, d) && PageOf(b) in s.arenas && s.arenas[PageOf(b)].Small? && s.arenas[PageOf(b)].desc == d
  }

  ghost predicate LiveOk(s: State, b: Addr)
    requires b in s.live
  {
    && PageOf(b) in s.arenas
    && match s.arenas[PageOf(b)]
       case Small(d, _) => d < DESC_CNT && IsBlock(b, d) && s.live[b] <= BlockSize(d)
       case Big(n) => b == BigBlock(PageOf(b)) && (s.live[b] + HEADER < SIZE_LIMIT ==> s.live[b] <= n * PGSIZE - HEADER)
  }

  ghost predicate SpansOk(s: State) {
    forall p, q :: p in s.arenas && q in s.arenas && p != q ==> Span(s, p) !! Span(s, q)
  }

  ghost predicate InvBut(s: State, full: set<nat>) {
    && |s.free| == DESC_CNT
    && (forall p :: p in s.arenas ==> ArenaOk(s, p, full))
    && (forall d :: 0 <= d < DESC_CNT ==> FreeListOk(s, d))
    && (forall b :: b in s.live ==> LiveOk(s, b))
    && SpansOk(s)
  }

  /** At rest no arena is wholly free. */
  ghost predicate Inv(s: State) { InvBut(s, {}) }

  // ---------- what the invariant says

  /** Live blocks lie inside the pages of their arena, behind its header, and hold what was asked
      for, unless the request plus the header wrapped around. */
  lemma LiveInside(s: State, b: Addr)
    requires Inv(s) && b in s.live
    ensures PageOf(b) in s.arenas && LiveOk(s, b) && ArenaOk(s, PageOf(b), {})
    ensures var a := s.arenas[PageOf(b)];
      && PageOf(b) * PGSIZE + HEADER <= b && b + Capacity(a) <= (PageOf(b) + PageCnt(a)) * PGSIZE
      && (s.live[b] + HEADER < SIZE_LIMIT ==> s.live[b] <= Capacity(a))
      && Span(s, PageOf(b)) <= s.used
  {
    assert LiveOk(s, b) && ArenaOk(s, PageOf(b), {});
    var a := s.arenas[PageOf(b)];
    if a.Small? { BlockPlace(PageOf(b), a.desc, Index(b, a.desc)); }
  }

  lemma SpansApart(s: State, p: nat, q: nat)
    requires SpansOk(s) && p in s.arenas && q in s.arenas && p < q && PageCnt(s.arenas[q]) > 0
    ensures p + PageCnt(s.arenas[p]) <= q
  {
    assert q in Span(s, q);
    assert Span(s, p) !! Span(s, q);
  }

  /** Distinct live blocks share no byte. */
  lemma LiveDisjoint(s: State, b: Addr, c: Addr)
    requires Inv(s) && b in s.live && c in s.live && b < c
    ensures PageOf(b) in s.arenas && ArenaOk(s, PageOf(b), {})
    ensures b + Capacity(s.arenas[PageOf(b)]) <= c
  {
    LiveInside(s, b);
    LiveInside(s, c);
    var p: nat, q: nat := PageOf(b), PageOf(c);
    if p == q {
      SamePage(s, b, c);
    } else {
      SpansApart(s, p, q);
      assert (p + PageCnt(s.arenas[p])) * PGSIZE <= q * PGSIZE;
    }
  }

  lemma SamePage(s: State, b: Addr, c: Addr)
    requires b in s.live && c in s.live && b < c && PageOf(b) == PageOf(c) && LiveOk(s, b) && LiveOk(s, c)
    ensures s.arenas[PageOf(b)].Small? && b + BlockSize(s.arenas[PageOf(b)].desc) <= c
  {
    var p: nat, a := PageOf(b), s.arenas[PageOf(b)];
    var d := a.desc;
    var i, j := Index(b, d), Index(c, d);
    if j <= i { IndexOrder(p, d, j, i); }
    BlocksApart(p, d, i, j);
  }

  lemma IndexOrder(p: nat, d: nat, i: nat, j: nat)
    requires d < DESC_CNT && i <= j
    ensures Block(p, d, i) <= Block(p, d, j)
  {
    if i < j { BlocksApart(p, d, i, j); }
  }

  // ---------- steps

  /** S and T agree about the arena Q: its header, which of its blocks are free, and live. */
  ghost predicate SameArena(s: State, t: State, q: nat)
    requires q in s.arenas && |s.free| == DESC_CNT && |t.free| == DESC_CNT
  {
    && q in t.arenas && t.arenas[q] == s.arenas[q] && Span(s, q) <= t.used
    && (BigBlock(q) in s.live ==> BigBlock(q) in t.live)
    && (s.arenas[q].Small? && s.arenas[q].desc < DESC_CNT ==>
          var d := s.arenas[q].desc;
          forall i: nat :: i < PerArena(d) ==>
            && (Block(q, d, i) in t.free[d] <==> Block(q, d, i) in s.free[d])
            && (Block(q, d, i) in t.live <==> Block(q, d, i) in s.live))
  }

  lemma ArenaKept(s: State, t: State, q: nat, full: set<nat>, full': set<nat>)
    requires q in s.arenas && |s.free| == DESC_CNT && |t.free| == DESC_CNT
    requires ArenaOk(s, q, full) && SameArena(s, t, q) && (q in full ==> q in full')
    ensures ArenaOk(t, q, full')
  {
    if s.arenas[q].Small? {
      var d := s.arenas[q].desc;
      assert FreeIn(t.free[d], q, d) == FreeIn(s.free[d], q, d);
    }
  }

  /** S and T have the same arenas, up to the counts of free blocks. */
  ghost predicate SameShapes(s: State, t: State) {
    && t.arenas.Keys == s.arenas.Keys
    && forall q :: q in s.arenas ==>
         if s.arenas[q].Small? then t.arenas[q].Small? && t.arenas[q].desc == s.arenas[q].desc else t.arenas[q] == s.arenas[q]
  }

  lemma SpansKept(s: State, t: State)
    requires SameShapes(s, t) && SpansOk(s)
    ensures SpansOk(t)
  {
    forall p, q | p in t.arenas && q in t.arenas && p != q ensures Span(t, p) !! Span(t, q) {
      assert Span(s, p) !! Span(s, q);
    }
  }

  /** malloc takes the first free block of descriptor D. */
  function TakeFirst(s: State, d: nat, size: nat): (t: State) {
    if CanTake(s, d) then
      var b := s.free[d][0];
      var a := s.arenas[PageOf(b)];
      State(s.used, s.arenas[PageOf(b) := Small(d, a.freeCnt - 1)], s.free[d := s.free[d][1..]], s.live[b := size])
    else s
  }

  /** There is a free block of D, in an arena that counts it. */
  predicate CanTake(s: State, d: nat) {
    && d < DESC_CNT == |s.free| && s.free[d] != [] && PageOf(s.free[d][0]) in s.arenas
    && s.arenas[PageOf(s.free[d][0])].Small? && s.arenas[PageOf(s.free[d][0])].freeCnt > 0
  }

  lemma FirstFree(s: State, d: nat, full: set<nat>)
    requires InvBut(s, full) && d < DESC_CNT && s.free[d] != []
    ensures var b := s.free[d][0];
      && FreeOk(s, d, b) && s.arenas[PageOf(b)].freeCnt > 0 && b !in s.live
      && Index(b, d) in FreeIn(s.free[d], PageOf(b), d)
  {
    var b := s.free[d][0];
    assert b in s.free[d] && FreeListOk(s, d) && FreeOk(s, d, b);
    assert ArenaOk(s, PageOf(b), full);
    assert Index(b, d) in FreeIn(s.free[d], PageOf(b), d);
  }

  lemma TakeInv(s: State, d: nat, size: nat, full: set<nat>)
    requires InvBut(s, full) && d < DESC_CNT && s.free[d] != [] && size <= BlockSize(d)
    requires full <= {PageOf(s.free[d][0])}
    ensures PageOf(s.free[d][0]) in s.arenas && s.arenas[PageOf(s.free[d][0])].Small? && s.arenas[PageOf(s.free[d][0])].freeCnt > 0
    ensures s.free[d][0] !in s.live && Inv(TakeFirst(s, d, size))
  {
    FirstFree(s, d, full);
    var b := s.free[d][0];
    var t := TakeFirst(s, d, size);
    assert FreeListOk(s, d);
    NoDupTail(s.free[d]);
    forall q | q in t.arenas ensures ArenaOk(t, q, {}) {
      if q == PageOf(b) { TakeHere(s, d, size, full); } else { TakeElsewhere(s, d, size, full, q); }
    }
    TakeRest(s, d, size, full);
  }

  lemma TakeRest(s: State, d: nat, size: nat, full: set<nat>)
    requires InvBut(s, full) && d < DESC_CNT && s.free[d] != [] && size <= BlockSize(d) && FreeOk(s, d, s.free[d][0])
    requires s.arenas[PageOf(s.free[d][0])].freeCnt > 0
    ensures var t := TakeFirst(s, d, size);
      SpansOk(t) && (forall c :: c in t.live ==> LiveOk(t, c)) && (forall e :: 0 <= e < DESC_CNT ==> FreeListOk(t, e))
  {
    hide ArenaOk, PageOf, IsBlock, Span, FreeListOk, SpansOk;
    var b, t := s.free[d][0], TakeFirst(s, d, size);
    assert SameShapes(s, t);
    forall e | 0 <= e < DESC_CNT ensures FreeListOk(t, e) { TakeList(s, d, t, e); }
    forall c | c in t.live ensures LiveOk(t, c) {
      if c != b { assert LiveOk(s, c); }
    }
    SpansKept(s, t);
  }

  lemma TakeList(s: State, d: nat, t: State, e: nat)
    requires |s.free| == DESC_CNT == |t.free| && d < DESC_CNT && e < DESC_CNT && FreeListOk(s, e) && SameShapes(s, t)
    requires s.free[d] != [] && t.free == s.free[d := s.free[d][1..]]
    ensures FreeListOk(t, e)
  {
    hide IsBlock, PageOf;
    if e == d { NoDupTail(s.free[d]); }
    ListKept(s, t, e);
  }

  lemma ListKept(s: State, t: State, d: nat)
    requires d < DESC_CNT == |s.free| == |t.free| && FreeListOk(s, d) && SameShapes(s, t)
    requires NoDup(t.free[d]) && (forall b :: b in t.free[d] ==> b in s.free[d] || FreeOk(t, d, b))
    ensures FreeListOk(t, d)
  {
    forall b | b in t.free[d] ensures FreeOk(t, d, b) {
      assert b in s.free[d] ==> FreeOk(s, d, b);
    }
  }

  /** MORE is LESS and one more block of page P. */
  lemma OneMoreFree(less: seq<Addr>, more: seq<Addr>, p: nat, d: nat, b: Addr)
    requires d < DESC_CNT && IsBlock(b, d) && PageOf(b) == p
    requires (forall u :: u in more <==> u in less || u == b) && b !in less
    ensures |FreeIn(more, p, d)| == |FreeIn(less, p, d)| + 1
    ensures forall i: nat :: i < PerArena(d) ==> (Block(p, d, i) in more <==> Block(p, d, i) in less || Block(p, d, i) == b)
  {
    var k := Index(b, d);
    forall i: nat | i < PerArena(d) ensures Block(p, d, i) == b <==> i == k {
      BlockPlace(p, d, i);
    }
    hide Block, Index, PageOf;
    assert FreeIn(more, p, d) == FreeIn(less, p, d) + {k};
  }

  lemma TakeHere(s: State, d: nat, size: nat, full: set<nat>)
    requires InvBut(s, full) && d < DESC_CNT && s.free[d] != [] && FreeOk(s, d, s.free[d][0])
    requires s.arenas[PageOf(s.free[d][0])].freeCnt > 0
    ensures ArenaOk(TakeFirst(s, d, size), PageOf(s.free[d][0]), {})
  {
    var b := s.free[d][0];
    var p, t := PageOf(b), TakeFirst(s, d, size);
    assert ArenaOk(s, p, full) && FreeListOk(s, d);
    NoDupTail(s.free[d]);
    OneMoreFree(t.free[d], s.free[d], p, d, b);
    AtMostAll(s.free[d], p, d);
    hide FreeIn, IsBlock, Block, PageOf;
    assert BlocksOk(t, p, d);
  }

  lemma AtMostAll(free: seq<Addr>, p: nat, d: nat)
    requires d < DESC_CNT
    ensures |FreeIn(free, p, d)| <= PerArena(d)
  {
    IntervalSize(0, PerArena(d));
    SubsetSize(FreeIn(free, p, d), Interval(0, PerArena(d)));
  }

  lemma TakeElsewhere(s: State, d: nat, size: nat, full: set<nat>, q: nat)
    requires InvBut(s, full) && d < DESC_CNT && s.free[d] != [] && FreeOk(s, d, s.free[d][0])
    requires s.arenas[PageOf(s.free[d][0])].freeCnt > 0 && full <= {PageOf(s.free[d][0])}
    requires q in s.arenas && q != PageOf(s.free[d][0])
    ensures ArenaOk(TakeFirst(s, d, size), q, {})
  {
    var b := s.free[d][0];
    var t := TakeFirst(s, d, size);
    assert ArenaOk(s, q, full) && FreeListOk(s, d);
    NoDupTail(s.free[d]);
    OtherPage(s, q, b);
    ArenaKept(s, t, q, full, {});
  }

  /** A block of another page is none of Q's. */
  lemma OtherPage(s: State, q: nat, b: Addr)
    requires PageOf(b) != q
    ensures b != BigBlock(q)
    ensures forall d: nat, i: nat :: d < DESC_CNT && i < PerArena(d) ==> Block(q, d, i) != b
  {
    forall d: nat, i: nat | d < DESC_CNT && i < PerArena(d) ensures Block(q, d, i) != b {
      BlockPlace(q, d, i);
    }
  }

  /** free puts B at the front of its descriptor's list. */
  function PutBack(s: State, b: Addr): (t: State)
    requires |s.free| == DESC_CNT && PageOf(b) in s.arenas && s.arenas[PageOf(b)].Small? && s.arenas[PageOf(b)].desc < DESC_CNT
  {
    var a := s.arenas[PageOf(b)];
    State(s.used, s.arenas[PageOf(b) := Small(a.desc, a.freeCnt + 1)], s.free[a.desc := [b] + s.free[a.desc]], s.live - {b})
  }

  lemma LiveIsNotFree(s: State, b: Addr)
    requires Inv(s) && b in s.live && LiveOk(s, b) && s.arenas[PageOf(b)].Small?
    ensures b !in s.free[s.arenas[PageOf(b)].desc]
  {
    assert ArenaOk(s, PageOf(b), {});
  }

  lemma PutBackInv(s: State, b: Addr)
    requires Inv(s) && b in s.live && LiveOk(s, b) && s.arenas[PageOf(b)].Small?
    ensures InvBut(PutBack(s, b), {PageOf(b)})
    ensures var a := s.arenas[PageOf(b)];
      a.freeCnt + 1 <= PerArena(a.desc) && (a.freeCnt + 1 < PerArena(a.desc) ==> Inv(PutBack(s, b)))
  {
    var p: nat, t := PageOf(b), PutBack(s, b);
    var d := s.arenas[p].desc;
    assert FreeListOk(s, d);
    LiveIsNotFree(s, b);
    NoDupFront(s.free[d], b);
    PutHere(s, b);
    forall q | q in t.arenas && q != p ensures ArenaOk(t, q, {}) {
      PutElsewhere(s, b, q);
    }
    forall q | q in t.arenas ensures ArenaOk(t, q, {p}) {
      if q != p { assert ArenaOk(t, q, {}); }
    }
    PutRest(s, b);
  }

  lemma PutRest(s: State, b: Addr)
    requires Inv(s) && b in s.live && LiveOk(s, b) && s.arenas[PageOf(b)].Small?
    ensures var t := PutBack(s, b);
      SpansOk(t) && (forall c :: c in t.live ==> LiveOk(t, c)) && (forall e :: 0 <= e < DESC_CNT ==> FreeListOk(t, e))
  {
    hide ArenaOk, IsBlock, FreeListOk, SpansOk, PageOf, Span;
    var t := PutBack(s, b);
    LiveIsNotFree(s, b);
    assert SameShapes(s, t);
    forall e | 0 <= e < DESC_CNT ensures FreeListOk(t, e) { PutList(s, b, t, e); }
    forall c | c in t.live ensures LiveOk(t, c) {
      assert LiveOk(s, c);
    }
    SpansKept(s, t);
  }

  lemma PutList(s: State, b: Addr, t: State, e: nat)
    requires |s.free| == DESC_CNT && e < DESC_CNT && FreeListOk(s, e) && b in s.live && LiveOk(s, b)
    requires s.arenas[PageOf(b)].Small? && b !in s.free[s.arenas[PageOf(b)].desc] && t == PutBack(s, b) && SameShapes(s, t)
    ensures FreeListOk(t, e)
  {
    hide IsBlock, PageOf;
    if e == s.arenas[PageOf(b)].desc { NoDupFront(s.free[e], b); }
    ListKept(s, t, e);
  }

  lemma PutHere(s: State, b: Addr)
    requires Inv(s) && b in s.live && LiveOk(s, b) && s.arenas[PageOf(b)].Small?
    ensures ArenaOk(PutBack(s, b), PageOf(b), {PageOf(b)}) && s.arenas[PageOf(b)].freeCnt + 1 <= PerArena(s.arenas[PageOf(b)].desc)
  {
    var p, t := PageOf(b), PutBack(s, b);
    var d := s.arenas[p].desc;
    assert ArenaOk(s, p, {});
    LiveIsNotFree(s, b);
    assert forall u :: u in t.free[d] <==> u in s.free[d] || u == b;
    OneMoreFree(s.free[d], t.free[d], p, d, b);
    hide FreeIn, IsBlock, Block, PageOf;
    assert BlocksOk(t, p, d);
  }

  lemma PutElsewhere(s: State, b: Addr, q: nat)
    requires Inv(s) && b in s.live && LiveOk(s, b) && s.arenas[PageOf(b)].Small? && q in s.arenas && q != PageOf(b)
    ensures ArenaOk(PutBack(s, b), q, {})
  {
    var t := PutBack(s, b);
    assert ArenaOk(s, q, {});
    OtherPage(s, q, b);
    ArenaKept(s, t, q, {}, {});
  }

  ghost function AllBlocks(p: nat, d: nat, n: nat): set<Addr>
    requires d < DESC_CNT
  {
    set i: nat | i < n :: Block(p, d, i)
  }

  /** free gives the page of a wholly free arena back. */
  ghost function DropArena(s: State, p: nat, d: nat): (t: State)
    requires d < DESC_CNT == |s.free|
  {
    State(s.used - {p}, s.arenas - {p}, s.free[d := Minus(s.free[d], AllBlocks(p, d, PerArena(d)))], s.live)
  }

  lemma DropArenaInv(s: State, p: nat, d: nat)
    requires InvBut(s, {p}) && p in s.arenas && d < DESC_CNT && s.arenas[p] == Small(d, PerArena(d))
    ensures Inv(DropArena(s, p, d)) && forall b :: b in s.live ==> PageOf(b) != p
  {
    var t := DropArena(s, p, d);
    NoneLive(s, p, d);
    forall q | q in t.arenas ensures ArenaOk(t, q, {}) {
      DropElsewhere(s, p, d, q);
    }
    forall e | 0 <= e < DESC_CNT ensures FreeListOk(t, e) {
      DropList(s, p, d, e);
    }
    forall c | c in t.live ensures LiveOk(t, c) {
      assert LiveOk(s, c);
    }
    forall a, q | a in t.arenas && q in t.arenas && a != q ensures Span(t, a) !! Span(t, q) {
      assert Span(s, a) !! Span(s, q);
    }
  }

  lemma AllFree(s: State, p: nat, d: nat)
    requires |s.free| == DESC_CNT && p in s.arenas && d < DESC_CNT && s.arenas[p] == Small(d, PerArena(d)) && ArenaOk(s, p, {p})
    ensures forall i: nat :: i < PerArena(d) ==> Block(p, d, i) !in s.live
  {
    hide Block;
    var free, all := FreeIn(s.free[d], p, d), Interval(0, PerArena(d));
    IntervalSize(0, PerArena(d));
    SubsetSize(free, all);
    forall i: nat | i < PerArena(d) ensures Block(p, d, i) !in s.live {
      assert i in all;
    }
  }

  lemma NoneLive(s: State, p: nat, d: nat)
    requires InvBut(s, {p}) && p in s.arenas && d < DESC_CNT && s.arenas[p] == Small(d, PerArena(d))
    ensures forall b :: b in s.live ==> PageOf(b) != p
    ensures forall b :: b in s.free[d] && PageOf(b) == p ==> b in AllBlocks(p, d, PerArena(d))
  {
    assert ArenaOk(s, p, {p}) && FreeListOk(s, d);
    AllFree(s, p, d);
    hide ArenaOk, SpansOk;
    forall b | b in s.live ensures PageOf(b) != p {
      assert LiveOk(s, b);
    }
    forall b | b in s.free[d] && PageOf(b) == p ensures b in AllBlocks(p, d, PerArena(d)) {
      assert FreeOk(s, d, b);
    }
  }

  lemma BlocksOnPage(p: nat, d: nat, n: nat)
    requires d < DESC_CNT && n <= PerArena(d)
    ensures forall b :: b in AllBlocks(p, d, n) ==> PageOf(b) == p
  {
    forall i: nat | i < n ensures PageOf(Block(p, d, i)) == p {
      BlockPlace(p, d, i);
    }
  }

  lemma DropElsewhere(s: State, p: nat, d: nat, q: nat)
    requires InvBut(s, {p}) && p in s.arenas && d < DESC_CNT && s.arenas[p] == Small(d, PerArena(d))
    requires q in s.arenas && q != p
    ensures ArenaOk(DropArena(s, p, d), q, {})
  {
    var t := DropArena(s, p, d);
    assert ArenaOk(s, q, {p}) && Span(s, p) !! Span(s, q) && p in Span(s, p);
    MinusMember(s.free[d], AllBlocks(p, d, PerArena(d)));
    BlocksOnPage(p, d, PerArena(d));
    forall e: nat, i: nat | e < DESC_CNT && i < PerArena(e) ensures PageOf(Block(q, e, i)) == q {
      BlockPlace(q, e, i);
    }
    hide Block, PageOf, AllBlocks;
    ArenaKept(s, t, q, {p}, {});
  }

  lemma DropList(s: State, p: nat, d: nat, e: nat)
    requires InvBut(s, {p}) && p in s.arenas && d < DESC_CNT && s.arenas[p] == Small(d, PerArena(d)) && e < DESC_CNT
    ensures FreeListOk(DropArena(s, p, d), e)
  {
    assert FreeListOk(s, e) && FreeListOk(s, d);
    NoneLive(s, p, d);
    MinusMember(s.free[d], AllBlocks(p, d, PerArena(d)));
    MinusNoDup(s.free[d], AllBlocks(p, d, PerArena(d)));
    var t := DropArena(s, p, d);
    forall b | b in t.free[e] ensures FreeOk(t, e, b) {
      assert FreeOk(s, e, b);
    }
  }

  function BlockSeq(p: nat, d: nat, n: nat): (r: seq<Addr>)
    requires d < DESC_CNT
    ensures |r| == n
  {
    seq(n, i requires 0 <= i < n => Block(p, d, i))
  }

  /** malloc turns the page P into an arena of descriptor D. */
  function AddArena(s: State, p: nat, d: nat): (t: State)
    requires d < DESC_CNT == |s.free|
  {
    State(s.used + {p}, s.arenas[p := Small(d, PerArena(d))], s.free[d := s.free[d] + BlockSeq(p, d, PerArena(d))], s.live)
  }

  lemma UnusedPage(s: State, p: nat, full: set<nat>)
    requires InvBut(s, full) && p !in s.used
    ensures p !in s.arenas && (forall q :: q in s.arenas ==> p !in Span(s, q))
    ensures forall b :: b in s.live ==> PageOf(b) != p
    ensures forall d, b :: 0 <= d < DESC_CNT && b in s.free[d] ==> PageOf(b) != p
  {
    forall q | q in s.arenas ensures p !in Span(s, q) && q in Span(s, q) { assert ArenaOk(s, q, full); }
    forall b | b in s.live ensures PageOf(b) != p { assert LiveOk(s, b); }
    forall d, b | 0 <= d < DESC_CNT && b in s.free[d] ensures PageOf(b) != p { assert FreeListOk(s, d) && FreeOk(s, d, b); }
  }

  lemma NewBlocks(p: nat, d: nat, n: nat)
    requires d < DESC_CNT && n <= PerArena(d)
    ensures NoDup(BlockSeq(p, d, n))
    ensures forall b :: b in BlockSeq(p, d, n) ==> PageOf(b) == p && IsBlock(b, d)
  {
    forall i: nat | i < n ensures PageOf(Block(p, d, i)) == p && IsBlock(Block(p, d, i), d) && Index(Block(p, d, i), d) == i {
      BlockPlace(p, d, i);
    }
  }

  lemma AddArenaInv(s: State, p: nat, d: nat)
    requires Inv(s) && d < DESC_CNT && 0 < p && p !in s.used
    ensures InvBut(AddArena(s, p, d), {p})
  {
    var t := AddArena(s, p, d);
    UnusedPage(s, p, {});
    NewBlocks(p, d, PerArena(d));
    forall q | q in t.arenas ensures ArenaOk(t, q, {p}) {
      if q == p { AddHere(s, p, d); } else { AddElsewhere(s, p, d, q); }
    }
    forall e | 0 <= e < DESC_CNT ensures FreeListOk(t, e) {
      AddList(s, p, d, e);
    }
    forall c | c in t.live ensures LiveOk(t, c) {
      assert LiveOk(s, c);
    }
    forall a, q | a in t.arenas && q in t.arenas && a != q ensures Span(t, a) !! Span(t, q) {
      assert a != p && q != p ==> Span(s, a) !! Span(s, q);
    }
  }

  lemma AddHere(s: State, p: nat, d: nat)
    requires Inv(s) && d < DESC_CNT && 0 < p && p !in s.used
    ensures ArenaOk(AddArena(s, p, d), p, {p})
  {
    var t := AddArena(s, p, d);
    UnusedPage(s, p, {});
    forall i: nat | i < PerArena(d) ensures Block(p, d, i) in t.free[d] && Block(p, d, i) !in s.live {
      assert BlockSeq(p, d, PerArena(d))[i] == Block(p, d, i);
      BlockPlace(p, d, i);
    }
    assert FreeIn(t.free[d], p, d) == Interval(0, PerArena(d));
    IntervalSize(0, PerArena(d));
  }

  lemma AddElsewhere(s: State, p: nat, d: nat, q: nat)
    requires Inv(s) && d < DESC_CNT && 0 < p && p !in s.used && q in s.arenas
    ensures ArenaOk(AddArena(s, p, d), q, {p})
  {
    var t := AddArena(s, p, d);
    assert ArenaOk(s, q, {});
    UnusedPage(s, p, {});
    NewBlocks(p, d, PerArena(d));
    forall e: nat, i: nat | e < DESC_CNT && i < PerArena(e) ensures PageOf(Block(q, e, i)) == q {
      BlockPlace(q, e, i);
    }
    hide Block, PageOf, BlockSeq;
    ArenaKept(s, t, q, {}, {p});
  }

  lemma AddList(s: State, p: nat, d: nat, e: nat)
    requires Inv(s) && d < DESC_CNT && 0 < p && p !in s.used && e < DESC_CNT
    ensures FreeListOk(AddArena(s, p, d), e)
  {
    var t := AddArena(s, p, d);
    UnusedPage(s, p, {});
    NewBlocks(p, d, PerArena(d));
    assert FreeListOk(s, e);
    forall b | b in t.free[e] ensures FreeOk(t, e, b) {
      assert b in s.free[e] ==> FreeOk(s, e, b);
    }
    if e == d { NoDupJoin(s.free[d], BlockSeq(p, d, PerArena(d))); }
  }

  // ---------- big blocks

  ghost function AddBig(s: State, p: nat, n: nat, size: nat): (t: State)
    requires n > 0
  {
    State(s.used + Interval(p, n), s.arenas[p := Big(n)], s.free, s.live[BigBlock(p) := size])
  }

  lemma AddBigInv(s: State, p: nat, n: nat, size: nat)
    requires Inv(s) && 0 < p && 0 < n && Interval(p, n) !! s.used
    requires size + HEADER < SIZE_LIMIT ==> size <= n * PGSIZE - HEADER
    ensures Inv(AddBig(s, p, n, size)) && BigBlock(p) !in s.live
  {
    var t := AddBig(s, p, n, size);
    assert p in Interval(p, n);
    UnusedPage(s, p, {});
    assert PageOf(BigBlock(p)) == p;
    forall q | q in t.arenas ensures ArenaOk(t, q, {}) {
      if q != p { BigElsewhere(s, t, p, q); }
    }
    forall e | 0 <= e < DESC_CNT ensures FreeListOk(t, e) {
      assert FreeListOk(s, e);
      forall b | b in t.free[e] ensures FreeOk(t, e, b) { assert FreeOk(s, e, b); }
    }
    forall c | c in t.live ensures LiveOk(t, c) {
      if c != BigBlock(p) { assert LiveOk(s, c); }
    }
    forall a, q | a in t.arenas && q in t.arenas && a != q ensures Span(t, a) !! Span(t, q) {
      assert a != p ==> ArenaOk(s, a, {});
      assert q != p ==> ArenaOk(s, q, {});
      assert a != p && q != p ==> Span(s, a) !! Span(s, q);
    }
  }

  lemma BigElsewhere(s: State, t: State, p: nat, q: nat)
    requires Inv(s) && q in s.arenas && q != p && |t.free| == DESC_CNT
    requires t.free == s.free && q in t.arenas && t.arenas[q] == s.arenas[q] && Span(s, q) <= t.used
    requires forall b :: b != BigBlock(p) ==> (b in t.live <==> b in s.live)
    ensures ArenaOk(t, q, {})
  {
    assert ArenaOk(s, q, {});
    assert PageOf(BigBlock(p)) == p;
    OtherPage(s, q, BigBlock(p));
    ArenaKept(s, t, q, {}, {});
  }

  ghost function DropBig(s: State, b: Addr): (t: State)
    requires PageOf(b) in s.arenas && s.arenas[PageOf(b)].Big?
  {
    var p, n := PageOf(b), s.arenas[PageOf(b)].pages;
    State(s.used - Interval(p, n), s.arenas - {p}, s.free, s.live - {b})
  }

  lemma DropBigInv(s: State, b: Addr)
    requires Inv(s) && b in s.live && LiveOk(s, b) && s.arenas[PageOf(b)].Big?
    ensures Inv(DropBig(s, b)) && forall c :: c in s.live && c != b ==> PageOf(c) != PageOf(b)
  {
    var p: nat, t := PageOf(b), DropBig(s, b);
    forall c | c in s.live && c != b ensures PageOf(c) != p { assert LiveOk(s, c); }
    forall q | q in t.arenas ensures ArenaOk(t, q, {}) {
      assert ArenaOk(s, q, {}) && Span(s, p) !! Span(s, q);
      BigElsewhere(s, t, p, q);
    }
    forall e | 0 <= e < DESC_CNT ensures FreeListOk(t, e) {
      assert FreeListOk(s, e);
      forall c | c in t.free[e] ensures FreeOk(t, e, c) { assert FreeOk(s, e, c); }
    }
    forall c | c in t.live ensures LiveOk(t, c) {
      assert LiveOk(s, c);
    }
    forall a, q | a in t.arenas && q in t.arenas && a != q ensures Span(t, a) !! Span(t, q) {
      assert Span(s, a) !! Span(s, q);
    }
  }
}
