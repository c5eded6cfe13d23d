/** Loading a segment of an executable: the header checks and page arithmetic of
    pintos/src/userprog/process.c, and load_segment over the page tables. */
module Loader {
  import opened Options
  import opened Bytes
  import opened Palloc
  import opened Seqs
  import opened PageDir

  const WORD: nat := 0x1_0000_0000        // uint32_t has 32 bits

  /** A PT_LOAD program header. */
  datatype Phdr = Phdr(offset: nat, vaddr: nat, filesz: nat, memsz: nat, writable: bool)

  predicate IsPhdr(h: Phdr) { h.offset < WORD && h.vaddr < WORD && h.filesz < WORD && h.memsz < WORD }

  /** validate_segment, in 32-bit arithmetic. */
  predicate Validate(h: Phdr, fileLength: nat) {
    && h.offset % PGSIZE == h.vaddr % PGSIZE
    && h.offset <= fileLength
    && h.memsz >= h.filesz
    && h.memsz != 0
    && h.vaddr < PHYS_BASE
    && (h.vaddr + h.memsz) % WORD < PHYS_BASE
    && (h.vaddr + h.memsz) % WORD >= h.vaddr
    && h.vaddr >= PGSIZE
  }

  /** What the checks mean, in unbounded arithmetic: the segment lies in user space above page 0, begins in its page
      where it does in the file, and is not larger in the file than in memory. */
  predicate SegmentOk(h: Phdr, fileLength: nat) {
    && h.offset % PGSIZE == h.vaddr % PGSIZE && h.offset <= fileLength && 0 < h.memsz && h.filesz <= h.memsz
    && PGSIZE <= h.vaddr && h.vaddr + h.memsz < PHYS_BASE
  }

  lemma ValidateMeans(h: Phdr, fileLength: nat)
    requires IsPhdr(h)
    ensures Validate(h, fileLength) <==> SegmentOk(h, fileLength)
  {
  }

  /** What load computes for a segment: where to read from, where to map, how much to read and zero. */
  datatype Plan = Plan(filePage: nat, memPage: nat, readBytes: nat, zeroBytes: nat)

  function RoundUp(x: nat): nat { (x + PGSIZE - 1) % WORD / PGSIZE * PGSIZE }

  /** The PT_LOAD case of load, in 32-bit arithmetic. */
  function PlanFor(h: Phdr): Plan {
    var pageOffset := h.vaddr % PGSIZE;
    var end := RoundUp((pageOffset + h.memsz) % WORD);
    var read := if h.filesz > 0 then (pageOffset + h.filesz) % WORD else 0;
    Plan(h.offset - h.offset % PGSIZE, h.vaddr - pageOffset, read, (end - read) % WORD)
  }

  /** For an accepted header nothing wraps or underflows, the assertions of load_segment hold, and the
      pages lie above page 0, below PHYS_BASE and around the segment. */
  lemma PlanOk(h: Phdr, fileLength: nat)
    requires IsPhdr(h) && Validate(h, fileLength)
    ensures var p := PlanFor(h);
      && p.filePage % PGSIZE == 0 && p.memPage % PGSIZE == 0 && (p.readBytes + p.zeroBytes) % PGSIZE == 0
      && PGSIZE <= p.memPage <= h.vaddr && h.vaddr + h.memsz <= p.memPage + p.readBytes + p.zeroBytes <= PHYS_BASE
      && (h.filesz > 0 ==> p.filePage <= h.offset && p.filePage + p.readBytes == h.offset + h.filesz)
      && (h.filesz > 0 ==> p.memPage + p.readBytes == h.vaddr + h.filesz)
      && p.filePage <= fileLength && (h.filesz == 0 ==> p.readBytes == 0)
      && p.filePage <= h.offset && h.offset - p.filePage == h.vaddr - p.memPage
  {
    NoWrap(h.vaddr, h.memsz);
    var pageOffset := h.vaddr % PGSIZE;
    Aligned(h.vaddr);
    Aligned(h.offset);
    RoundUpFacts(h.vaddr - pageOffset, pageOffset + h.memsz);
    Unwrapped(h);
    hide RoundUp, PlanFor, Validate;
  }

  /** The pages a segment lies on. */
  function FirstPage(h: Phdr): nat { h.vaddr / PGSIZE }

  function PageSpan(h: Phdr): int { (h.vaddr + h.memsz - 1) / PGSIZE - h.vaddr / PGSIZE + 1 }

  /** The plan covers exactly the pages the segment lies on, and reads exactly what is in the file of it. */
  lemma PlanExact(h: Phdr, fileLength: nat)
    requires IsPhdr(h) && SegmentOk(h, fileLength)
    ensures var p := PlanFor(h);
      && p.memPage / PGSIZE == FirstPage(h) && (p.readBytes + p.zeroBytes) / PGSIZE == PageSpan(h)
      && (p.readBytes == 0 || p.filePage + p.readBytes <= fileLength <==> h.filesz == 0 || h.offset + h.filesz <= fileLength)
  {
    ValidateMeans(h, fileLength);
    var o := h.vaddr % PGSIZE;
    Aligned(h.vaddr);
    RoundUpFacts(h.vaddr - o, o + h.memsz);
    Unwrapped(h);
    PlanOk(h, fileLength);
    hide RoundUp, PlanFor, Validate;
    Rounded(o + h.memsz);
    PagesCounted(h.vaddr, h.memsz);
  }

  lemma Rounded(x: nat)
    requires x + PGSIZE <= WORD
    ensures RoundUp(x) == (x + PGSIZE - 1) / PGSIZE * PGSIZE
  {
  }

  lemma PagesCounted(v: nat, m: nat)
    requires m > 0
    ensures (v - v % PGSIZE) / PGSIZE == v / PGSIZE
    ensures (v % PGSIZE + m + PGSIZE - 1) / PGSIZE == (v + m - 1) / PGSIZE - v / PGSIZE + 1
  {
  }

  lemma Aligned(x: nat)
    ensures 0 <= x - x % PGSIZE && (x - x % PGSIZE) % PGSIZE == 0 && x % PGSIZE < PGSIZE
  {
  }

  lemma Unwrapped(h: Phdr)
    requires h.vaddr + h.memsz < PHYS_BASE && h.filesz <= h.memsz
    requires var x := h.vaddr % PGSIZE + h.memsz; x <= RoundUp(x) <= PHYS_BASE
    ensures var o := h.vaddr % PGSIZE;
      var read := if h.filesz > 0 then o + h.filesz else 0;
      PlanFor(h) == Plan(h.offset - h.offset % PGSIZE, h.vaddr - o, read, RoundUp(o + h.memsz) - read)
  {
    hide RoundUp;
    var o := h.vaddr % PGSIZE;
    assert (o + h.memsz) % WORD == o + h.memsz && (o + h.filesz) % WORD == o + h.filesz;
  }

  lemma NoWrap(v: nat, m: nat)
    requires v < WORD && m < WORD && (v + m) % WORD < PHYS_BASE && (v + m) % WORD >= v && m > 0
    ensures v + m < PHYS_BASE
  {
  }

  lemma RoundUpFacts(base: nat, x: nat)
    requires base % PGSIZE == 0 && base + x < PHYS_BASE
    ensures x <= RoundUp(x) && base + RoundUp(x) <= PHYS_BASE && RoundUp(x) % PGSIZE == 0
  {
    var q, b, r := (x + PGSIZE - 1) / PGSIZE, base / PGSIZE, PHYS_BASE / PGSIZE;
    assert RoundUp(x) == q * PGSIZE && base == b * PGSIZE && PHYS_BASE == r * PGSIZE;
    assert b + q <= r;
  }

  // ---------- memory

  /** Every mapped frame is in use and known, and mapped once. */
  ghost predicate SpaceOk(d: Dir, frames: map<nat, seq<Byte>>, used: set<nat>) {
    && DirOk(d)
    && (forall p :: 0 <= p < USER_PAGES && Mapping(d, p).Some? ==> FrameOk(frames, used, Mapping(d, p).value.kpage))
    && (forall p, q :: 0 <= p < q < USER_PAGES && Mapping(d, p).Some? && Mapping(d, q).Some? ==>
          Mapping(d, p).value.kpage != Mapping(d, q).value.kpage)
  }

  ghost predicate FrameOk(frames: map<nat, seq<Byte>>, used: set<nat>, k: nat) {
    k in used && k in frames && |frames[k]| == PGSIZE
  }

  /** The contents of page P, if it is mapped. */
  ghost function PageAt(d: Dir, frames: map<nat, seq<Byte>>, p: nat): Option<seq<Byte>>
    requires DirOk(d) && p < USER_PAGES
  {
    var m := Mapping(d, p);
    if m.None? || m.value.kpage !in frames then None else Some(frames[m.value.kpage])
  }

  /** Page P is mapped alike and holds the same in both. */
  ghost predicate SamePageIn(d: Dir, frames: map<nat, seq<Byte>>, d': Dir, frames': map<nat, seq<Byte>>, p: nat)
    requires DirOk(d) && DirOk(d') && p < USER_PAGES
  {
    Mapping(d', p) == Mapping(d, p) && PageAt(d', frames', p) == PageAt(d, frames, p)
  }

  /** A new frame K with contents C at the unmapped page P. */
  lemma MapOne(d: Dir, frames: map<nat, seq<Byte>>, used: set<nat>, p: nat, k: nat, c: seq<Byte>, w: bool)
    requires SpaceOk(d, frames, used) && p < USER_PAGES && Mapping(d, p).None? && |c| == PGSIZE && k in used
    requires forall q :: 0 <= q < USER_PAGES && Mapping(d, q).Some? ==> Mapping(d, q).value.kpage != k
    ensures var d', f' := WithEntry(d, p, Pte(true, k, w)), frames[k := c];
      && SpaceOk(d', f', used) && Mapping(d', p) == Some(Pte(true, k, w)) && PageAt(d', f', p) == Some(c)
      && (forall q :: 0 <= q < USER_PAGES && q != p ==> SamePageIn(d, frames, d', f', q))
  {
    SetOne(d, p, Pte(true, k, w));
    hide WithEntry, Mapping;
  }

  // ---------- what a segment costs

  /** Mapping page P takes a page for its page table if there is none yet. */
  function TableCost(d: Dir, p: nat): nat
    requires DirOk(d) && p < USER_PAGES
  {
    if d[PdNo(p)].None? then 1 else 0
  }

  /** Page table T covers one of the N pages from P0 on. */
  predicate Touches(t: nat, p0: nat, n: nat) { n > 0 && t * TABLE_SIZE < p0 + n && p0 < (t + 1) * TABLE_SIZE }

  /** Table T serves one of the N pages from P0 on. */
  lemma TouchesMeans(t: nat, p0: nat, n: nat)
    ensures Touches(t, p0, n) <==> exists p: nat :: p0 <= p < p0 + n && PdNo(p) == t
  {
    if Touches(t, p0, n) {
      var p := if p0 < t * TABLE_SIZE then t * TABLE_SIZE else p0;
      assert PdNo(p) == t;
    }
  }

  /** The page tables that mapping the N pages from P0 on has to create. */
  ghost function NewTables(d: Dir, p0: nat, n: nat): set<nat>
    requires DirOk(d)
  {
    set t | 0 <= t < |d| && d[t].None? && Touches(t, p0, n)
  }

  /** What load_segment needs: nothing mapped there, the bytes in the file, a frame per page from the user pool with
      USERFREE pages and a page per new table from the kernel pool with KERNELFREE. */
  ghost predicate Loadable(d: Dir, p0: nat, n: nat, inFile: bool, userFree: nat, kernelFree: nat) {
    && DirOk(d) && p0 + n <= USER_PAGES && inFile && (forall q :: p0 <= q < p0 + n ==> Mapping(d, q).None?)
    && n <= userFree && |NewTables(d, p0, n)| <= kernelFree
  }

  /** D has the tables of D0 and those that N pages from P0 on made necessary. */
  ghost predicate TablesAdded(d0: Dir, d: Dir, p0: nat, n: nat)
    requires DirOk(d0) && DirOk(d)
  {
    forall t :: 0 <= t < TABLE_SIZE ==> (d[t].Some? <==> d0[t].Some? || t in NewTables(d0, p0, n))
  }

  lemma TouchesNext(t: nat, p0: nat, n: nat)
    ensures Touches(t, p0, n + 1) <==> Touches(t, p0, n) || t == PdNo(p0 + n)
  {
  }

  /** One page more: a new table exactly when it costs one. */
  lemma NextTable(d0: Dir, d: Dir, p0: nat, n: nat)
    requires DirOk(d0) && DirOk(d) && TablesAdded(d0, d, p0, n) && p0 + n < USER_PAGES
    ensures |NewTables(d0, p0, n + 1)| == |NewTables(d0, p0, n)| + TableCost(d, p0 + n)
    ensures forall t :: t in NewTables(d0, p0, n + 1) <==> t in NewTables(d0, p0, n) || (d0[PdNo(p0 + n)].None? && t == PdNo(p0 + n))
  {
    hide Touches;
    var a, b, t := NewTables(d0, p0, n), NewTables(d0, p0, n + 1), PdNo(p0 + n);
    forall x | 0 <= x < |d0| ensures Touches(x, p0, n + 1) <==> Touches(x, p0, n) || x == t { TouchesNext(x, p0, n); }
    assert b == if d0[t].None? then a + {t} else a;
    assert d[t].Some? <==> d0[t].Some? || t in a;
  }

  lemma NoTables(d: Dir, p0: nat)
    requires DirOk(d)
    ensures NewTables(d, p0, 0) == {} && TablesAdded(d, d, p0, 0)
  {
  }

  lemma MoreTables(d: Dir, p0: nat, i: nat, n: nat)
    requires DirOk(d) && i <= n
    ensures |NewTables(d, p0, i)| <= |NewTables(d, p0, n)|
  {
    assert forall t :: Touches(t, p0, i) ==> Touches(t, p0, n);
    SubsetSize(NewTables(d, p0, i), NewTables(d, p0, n));
  }

  /** The page with the bytes of FILE from POS on, N of them, and zeros behind. */
  function Filled(file: seq<Byte>, pos: nat, n: nat): (c: seq<Byte>)
    requires n <= PGSIZE && (n == 0 || pos + n <= |file|)
    ensures |c| == PGSIZE
    ensures forall b :: 0 <= b < PGSIZE ==> c[b] == if b < n then file[pos + b] else 0
  {
    (if n == 0 then [] else file[pos..pos + n]) + seq(PGSIZE - n, _ => 0)
  }

  /** The address space of a process: its page directory and the frames its pages are in. */
  class AddressSpace {
    const palloc: Allocator
    var dir: Dir
    var frames: map<nat, seq<Byte>>

    ghost predicate Valid()
      reads this, palloc, palloc.Objects()
    {
      palloc.Valid() && SpaceOk(dir, frames, palloc.used)
    }

    /** pagedir_create: no user page is mapped. */
    constructor (p: Allocator)
      requires p.Valid()
      ensures Valid() && palloc == p && forall q :: 0 <= q < USER_PAGES ==> Mapping(dir, q).None?
    {
      palloc := p;
      dir := seq(TABLE_SIZE, _ => None);
      frames := map[];
    }

    /** install_page: maps the frame K at page P unless something is mapped there or no page table can
        be allocated. */
    method InstallPage(p: nat, k: nat, w: bool) returns (ok: bool)
      requires palloc.Valid() && DirOk(dir) && p < USER_PAGES
      modifies this`dir, palloc, palloc.Objects()
      ensures palloc.Valid() && old(palloc.used) <= palloc.used
      ensures ok <==> Mapping(old(dir), p).None? && TableCost(old(dir), p) <= old(palloc.FreeCnt(false))
      ensures dir == if ok then WithEntry(old(dir), p, Pte(true, k, w)) else old(dir)
      ensures palloc.FreeCnt(true) == old(palloc.FreeCnt(true))
      ensures palloc.FreeCnt(false) == old(palloc.FreeCnt(false)) - if ok then TableCost(old(dir), p) else 0
      ensures !ok ==> palloc.used == old(palloc.used)
    {
      hide Allocator.Valid, Allocator.FreeCnt, EmptyTable, Mapping;
      if Mapping(dir, p).Some? { return false; }
      if dir[PdNo(p)].None? {
        var t := palloc.GetPage(false);
        if t == 0 { return false; }
        NewTable(dir, p);
        dir := dir[PdNo(p) := Some(EmptyTable())];
      }
      // what pagedir_set_page asserts
      assert Mapping(dir, p).None?;
      var table := dir[PdNo(p)].value;
      dir := dir[PdNo(p) := Some(table[PtNo(p) := Pte(true, k, w)])];
      return true;
    }

    /** The body of load_segment's loop: a new frame, filled from the file, mapped at page P. */
    method LoadPage(file: seq<Byte>, pos: nat, n: nat, p: nat, w: bool) returns (ok: bool)
      requires Valid() && p < USER_PAGES && n <= PGSIZE
      modifies this, palloc, palloc.Objects()
      ensures Valid()
      ensures forall q :: 0 <= q < USER_PAGES && (q != p || !ok) ==> SamePageIn(old(dir), old(frames), dir, frames, q)
      ensures ok <==>
        && Mapping(old(dir), p).None? && (n == 0 || pos + n <= |file|)
        && old(palloc.FreeCnt(true)) > 0 && TableCost(old(dir), p) <= old(palloc.FreeCnt(false))
      ensures ok ==> palloc.FreeCnt(true) == old(palloc.FreeCnt(true)) - 1
      ensures ok ==> palloc.FreeCnt(false) == old(palloc.FreeCnt(false)) - TableCost(old(dir), p)
      ensures ok ==> forall t :: 0 <= t < TABLE_SIZE ==> (dir[t].Some? <==> old(dir)[t].Some? || t == PdNo(p))
      ensures !ok ==> palloc.used == old(palloc.used) && dir == old(dir)
      ensures ok ==> Mapping(dir, p).Some? && Mapping(dir, p).value.writable == w && PageAt(dir, frames, p) == Some(Filled(file, pos, n))
    {
      hide SpaceOk, Mapping, PageAt, Filled, Allocator.Valid, Allocator.FreeCnt, Interval;
      SpaceDir(dir, frames, palloc.used);
      var k := palloc.GetPage(true);
      if k == 0 { return false; }
      JustOne(k);
      NewFrame(dir, frames, old(palloc.used), k);
      if n > 0 && pos + n > |file| {
        palloc.FreeMultiple(k, 1);
        return false;
      }
      var c := Filled(file, pos, n);
      frames := frames[k := c];
      ok := InstallPage(p, k, w);
      if ok {
        SpaceGrows(old(dir), old(frames), old(palloc.used), palloc.used);
        MapOne(old(dir), old(frames), palloc.used, p, k, c, w);
      } else {
        SpareFrame(dir, old(frames), frames, old(palloc.used), k, c);
        palloc.FreeMultiple(k, 1);
      }
    }

    /** load_segment.  On success the memory from UPAGE on is the file from OFS on, READ bytes, and then
        zeros, mapped WRITABLE or not; in any case what was mapped before is as it was. */
    method LoadSegment(file: seq<Byte>, ofs: nat, upage: nat, read: nat, zero: nat, writable: bool) returns (ok: bool)
      requires Valid() && (read + zero) % PGSIZE == 0 && upage % PGSIZE == 0 && upage + read + zero <= PHYS_BASE
      modifies this, palloc, palloc.Objects()
      ensures Valid()
      ensures forall p :: 0 <= p < USER_PAGES && Mapping(old(dir), p).Some? ==> SamePageIn(old(dir), old(frames), dir, frames, p)
      ensures forall p :: 0 <= p < USER_PAGES && !(upage / PGSIZE <= p < (upage + read + zero) / PGSIZE) ==>
                SamePageIn(old(dir), old(frames), dir, frames, p)
      ensures ok <==> Loadable(old(dir), upage / PGSIZE, (read + zero) / PGSIZE, read == 0 || ofs + read <= |file|,
                               old(palloc.FreeCnt(true)), old(palloc.FreeCnt(false)))
      ensures ok ==>
        && palloc.FreeCnt(true) == old(palloc.FreeCnt(true)) - (read + zero) / PGSIZE
        && palloc.FreeCnt(false) == old(palloc.FreeCnt(false)) - |NewTables(old(dir), upage / PGSIZE, (read + zero) / PGSIZE)|
      ensures ok ==> forall p :: upage / PGSIZE <= p < (upage + read + zero) / PGSIZE ==>
                LoadedPage(dir, frames, upage / PGSIZE, p, file, ofs, read, writable)
    {
      hide PageAt, Mapping, LoadedPage, Filled, Allocator.Valid, Allocator.FreeCnt, NewTables, TablesAdded, Loadable, TableCost;
      ghost var user, kernel := palloc.FreeCnt(true), palloc.FreeCnt(false);
      NoTables(dir, upage / PGSIZE);
      var readBytes, zeroBytes, pos, p := read, zero, ofs, upage / PGSIZE;
      ghost var i: nat, cnt: nat, p0: nat := 0, (read + zero) / PGSIZE, upage / PGSIZE;
      ghost var d0, f0 := dir, frames;
      assert p0 + cnt <= USER_PAGES;
      while readBytes > 0 || zeroBytes > 0
        invariant Valid() && i <= cnt && p == p0 + i && readBytes + zeroBytes == (cnt - i) * PGSIZE
        invariant readBytes == Left(read, i) && pos == ofs + read - readBytes
        invariant Progress(d0, f0, dir, frames, p0, i, file, ofs, read, writable) && TablesAdded(d0, dir, p0, i)
        invariant palloc.FreeCnt(true) == user - i && palloc.FreeCnt(false) == kernel - |NewTables(d0, p0, i)|
        decreases cnt - i
      {
        LeftFacts(read, i);
        var pageRead := if readBytes < PGSIZE then readBytes else PGSIZE;
        var pageZero := PGSIZE - pageRead;
        ghost var d1, f1 := dir, frames;
        NextTable(d0, d1, p0, i);
        ok := LoadPage(file, pos, pageRead, p, writable);
        if !ok {
          Unchanged(d0, f0, d1, f1, dir, frames, p0, i, file, ofs, read, writable);
          CannotLoad(d0, f0, d1, f1, p0, i, cnt, file, ofs, read, writable, user, kernel, pos, pageRead);
          return false;
        }
        Stepped(d0, f0, d1, f1, dir, frames, p0, i, file, ofs, read, writable, pos, pageRead);
        TableStepped(d0, d1, dir, p0, i);
        readBytes := readBytes - pageRead;
        zeroBytes := zeroBytes - pageZero;
        pos := pos + pageRead;
        p := p + 1;
        i := i + 1;
      }
      CouldLoad(d0, f0, dir, frames, p0, cnt, file, ofs, read, writable, user, kernel);
      return true;
    }

    /** The PT_LOAD case of load: afterwards the process sees the segment where its header says, the
        file's bytes and then zeros, and what was mapped before is as it was. */
    method LoadPhdr(h: Phdr, file: seq<Byte>) returns (ok: bool)
      requires Valid() && IsPhdr(h)
      modifies this, palloc, palloc.Objects()
      ensures Valid()
      ensures forall p :: 0 <= p < USER_PAGES && Mapping(old(dir), p).Some? ==> SamePageIn(old(dir), old(frames), dir, frames, p)
      ensures SamePageIn(old(dir), old(frames), dir, frames, 0)
      ensures ok <==> PhdrLoadable(old(dir), h, |file|, old(palloc.FreeCnt(true)), old(palloc.FreeCnt(false)))
      ensures forall p :: 0 <= p < USER_PAGES && !(FirstPage(h) <= p < FirstPage(h) + PageSpan(h)) ==>
                SamePageIn(old(dir), old(frames), dir, frames, p)
      ensures ok ==> forall x :: h.vaddr <= x < h.vaddr + h.memsz ==> SegmentByte(dir, frames, h, file, x)
    {
      hide Validate, SegmentOk, PlanFor, Loadable, SegmentByte, LoadedPage, Mapping, PageAt;
      hide Allocator.Valid, Allocator.FreeCnt, PageSpan;
      ValidateMeans(h, |file|);
      if !Validate(h, |file|) { return false; }
      PlanExact(h, |file|);
      PlanOk(h, |file|);
      var plan := PlanFor(h);
      ghost var user, kernel, d0 := palloc.FreeCnt(true), palloc.FreeCnt(false), dir;
      ok := LoadSegment(file, plan.filePage, plan.memPage, plan.readBytes, plan.zeroBytes, h.writable);
      if ok {
        BytesInFile(d0, plan, |file|, user, kernel);
        forall x | h.vaddr <= x < h.vaddr + h.memsz ensures SegmentByte(dir, frames, h, file, x) {
          SegmentLoaded(dir, frames, h, file, plan, x);
        }
      }
    }
  }

  /** The segment is one that may be loaded, and can be: its pages are unmapped, its bytes are in the file, and there
      is memory for the pages and their tables. */
  ghost predicate PhdrLoadable(d: Dir, h: Phdr, fileLength: nat, userFree: nat, kernelFree: nat) {
    && SegmentOk(h, fileLength)
    && Loadable(d, FirstPage(h), PageSpan(h), h.filesz == 0 || h.offset + h.filesz <= fileLength, userFree, kernelFree)
  }

  lemma BytesInFile(d: Dir, plan: Plan, fileLength: nat, userFree: nat, kernelFree: nat)
    requires Loadable(d, plan.memPage / PGSIZE, (plan.readBytes + plan.zeroBytes) / PGSIZE,
                      plan.readBytes == 0 || plan.filePage + plan.readBytes <= fileLength, userFree, kernelFree)
    ensures plan.readBytes == 0 || plan.filePage + plan.readBytes <= fileLength
  {
  }

  /** The process reads at address X what the header promises, on a page mapped writable or not as asked. */
  ghost predicate SegmentByte(d: Dir, frames: map<nat, seq<Byte>>, h: Phdr, file: seq<Byte>, x: nat) {
    && DirOk(d) && x < PHYS_BASE && h.vaddr <= x
    && var m, c := Mapping(d, x / PGSIZE), PageAt(d, frames, x / PGSIZE);
       && m.Some? && m.value.writable == h.writable && c.Some? && |c.value| == PGSIZE
       && if x - h.vaddr < h.filesz then h.offset + x - h.vaddr < |file| && c.value[x % PGSIZE] == file[h.offset + x - h.vaddr]
          else c.value[x % PGSIZE] == 0
  }

  lemma SegmentLoaded(d: Dir, frames: map<nat, seq<Byte>>, h: Phdr, file: seq<Byte>, plan: Plan, x: nat)
    requires IsPhdr(h) && Validate(h, |file|) && plan == PlanFor(h) && DirOk(d) && h.vaddr <= x < h.vaddr + h.memsz
    requires plan.readBytes == 0 || plan.filePage + plan.readBytes <= |file|
    requires forall p :: plan.memPage / PGSIZE <= p < (plan.memPage + plan.readBytes + plan.zeroBytes) / PGSIZE ==>
      LoadedPage(d, frames, plan.memPage / PGSIZE, p, file, plan.filePage, plan.readBytes, h.writable)
    ensures SegmentByte(d, frames, h, file, x)
  {
    PlanOk(h, |file|);
    hide PlanFor, Validate;
    var p0: nat, p: nat := plan.memPage / PGSIZE, x / PGSIZE;
    PlaceOf(plan.memPage, plan.readBytes + plan.zeroBytes, x);
    assert LoadedPage(d, frames, p0, p, file, plan.filePage, plan.readBytes, h.writable);
    assert PageAt(d, frames, p).value[x % PGSIZE] == ImageByte(file, plan.filePage, plan.readBytes, (p - p0) * PGSIZE + x % PGSIZE);
  }

  /** The page and offset of an address in a region of whole pages. */
  lemma PlaceOf(base: nat, size: nat, x: nat)
    requires base % PGSIZE == 0 && size % PGSIZE == 0 && base <= x < base + size
    ensures base / PGSIZE <= x / PGSIZE < (base + size) / PGSIZE
    ensures (x / PGSIZE - base / PGSIZE) * PGSIZE + x % PGSIZE == x - base
  {
  }

  /** Bytes still to be read after I pages. */
  function Left(read: nat, i: nat): nat { if i * PGSIZE < read then read - i * PGSIZE else 0 }

  lemma LeftFacts(read: nat, i: nat)
    ensures Left(read, i + 1) == if Left(read, i) < PGSIZE then 0 else Left(read, i) - PGSIZE
    ensures Left(read, i) > 0 ==> read - Left(read, i) == i * PGSIZE
  {
  }

  /** I pages are loaded from page P0 on, where nothing was mapped; all else is as it was. */
  ghost predicate Progress(d0: Dir, f0: map<nat, seq<Byte>>, d: Dir, f: map<nat, seq<Byte>>, p0: nat, i: nat,
                           file: seq<Byte>, ofs: nat, read: nat, writable: bool)
  {
    && DirOk(d0) && DirOk(d) && p0 + i <= USER_PAGES
    && (forall q :: 0 <= q < USER_PAGES && !(p0 <= q < p0 + i) ==> SamePageIn(d0, f0, d, f, q))
    && (forall q :: p0 <= q < p0 + i ==> Mapping(d0, q).None?)
    && (forall q :: p0 <= q < p0 + i ==> LoadedPage(d, f, p0, q, file, ofs, read, writable))
    && (i > 0 && read > 0 ==> ofs + (if read < i * PGSIZE then read else i * PGSIZE) <= |file|)
  }

  lemma Unchanged(d0: Dir, f0: map<nat, seq<Byte>>, d1: Dir, f1: map<nat, seq<Byte>>, d: Dir, f: map<nat, seq<Byte>>,
                  p0: nat, i: nat, file: seq<Byte>, ofs: nat, read: nat, writable: bool)
    requires Progress(d0, f0, d1, f1, p0, i, file, ofs, read, writable) && DirOk(d)
    requires forall q :: 0 <= q < USER_PAGES ==> SamePageIn(d1, f1, d, f, q)
    ensures forall q :: 0 <= q < USER_PAGES && !(p0 <= q < p0 + i) ==> SamePageIn(d0, f0, d, f, q)
    ensures forall q :: p0 <= q < p0 + i ==> Mapping(d0, q).None?
  {
    forall q | 0 <= q < USER_PAGES && !(p0 <= q < p0 + i) ensures SamePageIn(d0, f0, d, f, q) {
      assert SamePageIn(d0, f0, d1, f1, q) && SamePageIn(d1, f1, d, f, q);
    }
  }

  lemma Stepped(d0: Dir, f0: map<nat, seq<Byte>>, d1: Dir, f1: map<nat, seq<Byte>>, d: Dir, f: map<nat, seq<Byte>>,
                p0: nat, i: nat, file: seq<Byte>, ofs: nat, read: nat, writable: bool, pos: nat, n: nat)
    requires Progress(d0, f0, d1, f1, p0, i, file, ofs, read, writable) && DirOk(d) && p0 + i < USER_PAGES
    requires forall q :: 0 <= q < USER_PAGES && q != p0 + i ==> SamePageIn(d1, f1, d, f, q)
    requires Mapping(d1, p0 + i).None? && Mapping(d, p0 + i).Some? && Mapping(d, p0 + i).value.writable == writable
    requires n == (if Left(read, i) < PGSIZE then Left(read, i) else PGSIZE) && pos == ofs + read - Left(read, i)
    requires n == 0 || pos + n <= |file|
    requires PageAt(d, f, p0 + i) == Some(Filled(file, pos, n))
    ensures Progress(d0, f0, d, f, p0, i + 1, file, ofs, read, writable)
  {
    LeftFacts(read, i);
    var p := p0 + i;
    assert LoadedPage(d, f, p0, p, file, ofs, read, writable);
    forall q | p0 <= q < p ensures LoadedPage(d, f, p0, q, file, ofs, read, writable) {
      assert LoadedPage(d1, f1, p0, q, file, ofs, read, writable) && SamePageIn(d1, f1, d, f, q);
    }
    assert SamePageIn(d0, f0, d1, f1, p);
    forall q | 0 <= q < USER_PAGES && !(p0 <= q < p0 + i + 1) ensures SamePageIn(d0, f0, d, f, q) {
      assert SamePageIn(d0, f0, d1, f1, q) && SamePageIn(d1, f1, d, f, q);
    }
  }

  lemma TableStepped(d0: Dir, d1: Dir, d: Dir, p0: nat, i: nat)
    requires DirOk(d0) && DirOk(d1) && DirOk(d) && TablesAdded(d0, d1, p0, i) && p0 + i < USER_PAGES
    requires forall t :: 0 <= t < TABLE_SIZE ==> (d[t].Some? <==> d1[t].Some? || t == PdNo(p0 + i))
    ensures TablesAdded(d0, d, p0, i + 1)
  {
    hide NewTables;
    NextTable(d0, d1, p0, i);
  }

  /** A page that cannot be loaded after I others is one that the segment cannot do without. */
  lemma CannotLoad(d0: Dir, f0: map<nat, seq<Byte>>, d: Dir, f: map<nat, seq<Byte>>, p0: nat, i: nat, cnt: nat,
                   file: seq<Byte>, ofs: nat, read: nat, writable: bool, user: nat, kernel: nat, pos: nat, n: nat)
    requires Progress(d0, f0, d, f, p0, i, file, ofs, read, writable) && TablesAdded(d0, d, p0, i) && i < cnt && p0 + cnt <= USER_PAGES
    requires n == (if Left(read, i) < PGSIZE then Left(read, i) else PGSIZE) && pos == ofs + read - Left(read, i)
    requires i <= user && |NewTables(d0, p0, i)| <= kernel
    requires Mapping(d, p0 + i).Some? || (n > 0 && pos + n > |file|) || user == i
      || TableCost(d, p0 + i) > kernel - |NewTables(d0, p0, i)|
    ensures !Loadable(d0, p0, cnt, read == 0 || ofs + read <= |file|, user, kernel)
  {
    hide NewTables, Mapping;
    assert SamePageIn(d0, f0, d, f, p0 + i);
    NextTable(d0, d, p0, i);
    MoreTables(d0, p0, i + 1, cnt);
  }

  lemma CouldLoad(d0: Dir, f0: map<nat, seq<Byte>>, d: Dir, f: map<nat, seq<Byte>>, p0: nat, cnt: nat,
                  file: seq<Byte>, ofs: nat, read: nat, writable: bool, user: nat, kernel: nat)
    requires Progress(d0, f0, d, f, p0, cnt, file, ofs, read, writable) && read <= cnt * PGSIZE
    requires cnt <= user && |NewTables(d0, p0, cnt)| <= kernel
    ensures Loadable(d0, p0, cnt, read == 0 || ofs + read <= |file|, user, kernel)
  {
  }

  /** Byte X of a segment: from the file up to READ, zero behind. */
  function ImageByte(file: seq<Byte>, ofs: nat, read: nat, x: nat): Byte {
    if x < read && ofs + x < |file| then file[ofs + x] else 0
  }

  /** Page P holds its part of a segment that begins at page P0. */
  ghost predicate LoadedPage(d: Dir, frames: map<nat, seq<Byte>>, p0: nat, p: nat, file: seq<Byte>, ofs: nat, read: nat, writable: bool)
  {
    && DirOk(d) && p0 <= p < USER_PAGES
    && Mapping(d, p).Some? && Mapping(d, p).value.writable == writable && PageAt(d, frames, p).Some?
    && IsImage(PageAt(d, frames, p).value, file, ofs, read, (p - p0) * PGSIZE)
  }

  /** C is the page of the segment's image that begins at byte X. */
  ghost predicate IsImage(c: seq<Byte>, file: seq<Byte>, ofs: nat, read: nat, x: nat) {
    |c| == PGSIZE && forall b :: 0 <= b < PGSIZE ==> c[b] == ImageByte(file, ofs, read, x + b)
  }

  lemma SpaceGrows(d: Dir, frames: map<nat, seq<Byte>>, used: set<nat>, used': set<nat>)
    requires SpaceOk(d, frames, used) && used <= used'
    ensures SpaceOk(d, frames, used')
  {
  }

  /** A frame that is mapped nowhere makes no difference. */
  lemma SpareFrame(d: Dir, frames: map<nat, seq<Byte>>, frames': map<nat, seq<Byte>>, used: set<nat>, k: nat, c: seq<Byte>)
    requires SpaceOk(d, frames, used) && frames' == frames[k := c]
    requires forall q :: 0 <= q < USER_PAGES && Mapping(d, q).Some? ==> Mapping(d, q).value.kpage != k
    ensures SpaceOk(d, frames', used)
    ensures forall q :: 0 <= q < USER_PAGES ==> SamePageIn(d, frames, d, frames', q)
  {
  }

  lemma SpaceDir(d: Dir, frames: map<nat, seq<Byte>>, used: set<nat>)
    requires SpaceOk(d, frames, used)
    ensures DirOk(d)
  {
  }

  /** A frame that was not in use is mapped nowhere. */
  lemma NewFrame(d: Dir, frames: map<nat, seq<Byte>>, used: set<nat>, k: nat)
    requires SpaceOk(d, frames, used) && k !in used
    ensures forall q :: 0 <= q < USER_PAGES && Mapping(d, q).Some? ==> Mapping(d, q).value.kpage != k
  {
    forall q | 0 <= q < USER_PAGES && Mapping(d, q).Some? ensures Mapping(d, q).value.kpage != k {
      assert FrameOk(frames, used, Mapping(d, q).value.kpage);
    }
  }
}
