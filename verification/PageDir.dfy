/** Two-level page tables as pintos/src/userprog/pagedir.c keeps them, for user addresses. */
module PageDir {
  import opened Options

  const TABLE_SIZE: nat := 1024
  const PHYS_BASE: nat := 0xC000_0000
  const USER_PAGES: nat := 0xC_0000       // PHYS_BASE / PGSIZE

  /** A page table entry: the present bit, the frame and the writable bit. */
  datatype Pte = Pte(present: bool, kpage: nat, writable: bool)

  type Table = seq<Pte>
  type Dir = seq<Option<Table>>

  function EmptyTable(): (t: Table)
    ensures |t| == TABLE_SIZE && forall i :: 0 <= i < |t| ==> !t[i].present
  {
    seq(TABLE_SIZE, _ => Pte(false, 0, false))
  }

  predicate DirOk(d: Dir) { |d| == TABLE_SIZE && forall i :: 0 <= i < |d| && d[i].Some? ==> |d[i].value| == TABLE_SIZE }

  /** pd_no and pt_no of page number P. */
  function PdNo(p: nat): nat { p / TABLE_SIZE }
  function PtNo(p: nat): nat { p % TABLE_SIZE }

  /** lookup_page without creating: the entry for page P, if there is a table for it. */
  function EntryOf(d: Dir, p: nat): Option<Pte>
    requires DirOk(d) && p < USER_PAGES
  {
    if d[PdNo(p)].None? then None else Some(d[PdNo(p)].value[PtNo(p)])
  }

  /** The frame mapped at page P. */
  function Mapping(d: Dir, p: nat): Option<Pte>
    requires DirOk(d) && p < USER_PAGES
  {
    var e := EntryOf(d, p);
    if e.Some? && e.value.present then e else None
  }

  /** D with the entry for page P set, in a table that is created if need be. */
  function WithEntry(d: Dir, p: nat, e: Pte): (r: Dir)
    requires DirOk(d) && p < USER_PAGES
    ensures DirOk(r)
  {
    var t := if d[PdNo(p)].None? then EmptyTable() else d[PdNo(p)].value;
    d[PdNo(p) := Some(t[PtNo(p) := e])]
  }

  /** The page number of virtual address VA splits its upper 20 bits in two halves. */
  lemma AddressParts(va: nat)
    ensures PdNo(va / 4096) == va / 0x40_0000
    ensures PtNo(va / 4096) < 1024 && va == PdNo(va / 4096) * 0x40_0000 + PtNo(va / 4096) * 0x1000 + va % 0x1000
  {
  }

  lemma SamePage(p: nat, q: nat)
    requires PdNo(p) == PdNo(q) && PtNo(p) == PtNo(q)
    ensures p == q
  {
  }

  /** Setting one entry changes the mapping of that page and no other. */
  lemma SetOne(d: Dir, p: nat, e: Pte)
    requires DirOk(d) && p < USER_PAGES
    ensures Mapping(WithEntry(d, p, e), p) == if e.present then Some(e) else None
    ensures forall q :: 0 <= q < USER_PAGES && q != p ==> Mapping(WithEntry(d, p, e), q) == Mapping(d, q)
  {
    forall q | 0 <= q < USER_PAGES && q != p ensures Mapping(WithEntry(d, p, e), q) == Mapping(d, q) {
      if PdNo(q) == PdNo(p) && PtNo(q) == PtNo(p) { SamePage(p, q); }
    }
  }

  /** Creating an empty table maps nothing. */
  lemma NewTable(d: Dir, p: nat)
    requires DirOk(d) && p < USER_PAGES && d[PdNo(p)].None?
    ensures DirOk(d[PdNo(p) := Some(EmptyTable())])
    ensures forall q :: 0 <= q < USER_PAGES ==> Mapping(d[PdNo(p) := Some(EmptyTable())], q) == Mapping(d, q)
  {
  }
}
