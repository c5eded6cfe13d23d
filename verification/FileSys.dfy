/** The file system operations of pintos/src/filesys (filesys.c, inode.c, file.c, free-map.c) as they
    allocate and release sectors and write inodes.  Parameters stand for what can fail outside: memory
    and writing the free map or the directory to their files. */
module FileSys {
  import opened Bitmap
  import opened Bytes
  import opened Seqs
  import opened InodeIO
  import opened Directory
  import opened FileState

  lemma FilledBack(u: seq<bool>, a: nat, n: nat)
    requires Group(u, a, n, false)
    ensures Filled(Filled(u, a, n, true), a, n, false) == u
  {
  }

  const ROOT_ENTRIES: nat := 16

  /** The length of the free map's file on a device of N sectors. */
  function FreeMapBytes(n: nat): nat { 4 * ((n + ELEM_BITS - 1) / ELEM_BITS) }

  function FreeMapSectors(n: nat): nat { BytesToSectors(FreeMapBytes(n)) }

  /** The state do_format leaves, with the free map's data at sector A and the root directory's at B. */
  ghost predicate Formatted(s: State, n: nat, a: nat, b: nat) {
    && s.headers == map[FREE_MAP_SECTOR := Extent(a, FreeMapBytes(n)), ROOT_DIR_SECTOR := Extent(b, ROOT_ENTRIES * ENTRY_SIZE)]
    && s.open == map[FREE_MAP_SECTOR := Inode(Extent(a, FreeMapBytes(n)), 1, 0, false)]
    && s.names == map[] && s.files == map[0 := Handle(FREE_MAP_SECTOR, false)]
    && BothMarked(s.used, FreeMapSectors(n), a, b)
  }

  /** The two headers, CNT sectors from A on and sector B are in use, all different. */
  ghost predicate BothMarked(u: seq<bool>, cnt: nat, a: nat, b: nat) {
    && 1 < a && (b < a || a + cnt <= b) && 1 < b < |u| && a + cnt <= |u|
    && u[0] && u[1] && u[b] && Group(u, a, cnt, true)
  }

  /** The sectors before sector 3 + CNT, and no others, are in use. */
  ghost predicate MarkedUpTo(u: seq<bool>, cnt: nat) {
    3 + cnt <= |u| && forall k :: 0 <= k < |u| ==> u[k] == (k < 3 + cnt)
  }

  lemma FormattedMap(u: seq<bool>, cnt: nat)
    requires MarkedUpTo(u, cnt)
    ensures BothMarked(u, cnt, 2, 2 + cnt)
  {
  }

  /** The free map's file is not empty and not too long for an off_t. */
  lemma MapFits(n: nat)
    requires 0 < n < 0x1_0000_0000
    ensures FreeMapSectors(n) > 0 && FreeMapBytes(n) < 0x8000_0000 && BytesToSectors(ROOT_ENTRIES * ENTRY_SIZE) == 1
    ensures FreeMapBytes(n) % 4 == 0 && n <= 8 * FreeMapBytes(n) < n + 32
  {
  }

  lemma FormattedSectors(s: State, n: nat, a: nat, b: nat)
    requires Formatted(s, n, a, b)
    ensures SectorsOk(s)
  {
    assert BytesToSectors(ROOT_ENTRIES * ENTRY_SIZE) == 1;
    assert DataSectors(s.headers[1]) == {b};
    assert OwnerOk(s, 0) && OwnerOk(s, 1) && Owned(s, 0) !! Owned(s, 1);
    assert forall h :: Live(s, h) ==> h == 0 || h == 1;
  }

  lemma FormattedInv(s: State, n: nat, a: nat, b: nat)
    requires Formatted(s, n, a, b)
    ensures Inv(s)
  {
    FormattedSectors(s, n, a, b);
    hide SectorsOk, FreeMapSectors, Group;
    assert On(s.files, 0) == {0} && Denying(s.files, 0) == {};
    assert OpenOk(s, 0);
  }

  /** HS are inodes on the device DISK. */
  ghost predicate OnDevice(hs: map<nat, Extent>, disk: seq<Sector>) {
    forall h :: h in hs ==> h < |disk| && Storable(hs[h]) && disk[h] == EncodeInode(hs[h])
  }

  /** The files of live inodes have the same contents in DISK' as in DISK.  The free map and the root
      directory, which the operations themselves rewrite, are not files of this kind. */
  ghost predicate LiveFilesKept(s: State, disk: seq<Sector>, disk': seq<Sector>) {
    |disk'| == |disk| && forall h :: Live(s, h) && !Permanent(h) ==> h in s.headers && FileSame(disk, disk', s.headers[h])
  }

  ghost predicate FileSame(disk: seq<Sector>, disk': seq<Sector>, e: Extent) {
    Fits(disk, e) && Fits(disk', e) && FileBytes(disk', e) == FileBytes(disk, e)
  }

  /** CNT adjacent sectors are free somewhere. */
  ghost predicate HasRun(u: seq<bool>, cnt: nat) { exists i :: Group(u, i, cnt, false) }

  /** On a device that is accepted, the number asked for and the number needed are both there or both not. */
  lemma SameRun(u: seq<bool>, length: nat)
    requires |u| < MAX_SECTORS && length < 0x8000_0000
    ensures HasRun(u, SectorsAsked(length)) <==> HasRun(u, BytesToSectors(length))
    ensures HasRun(u, SectorsAsked(length)) ==> SectorsAsked(length) == BytesToSectors(length)
  {
    hide SectorsAsked, BytesToSectors;
    AskedOrTooMany(length);
  }

  /** They are free at I, and nowhere before. */
  ghost predicate FirstRun(u: seq<bool>, cnt: nat, i: int) {
    Group(u, i, cnt, false) && forall j :: 0 <= j < i ==> !Group(u, j, cnt, false)
  }

  /** The map U has room for a header and then for N sectors of data. */
  ghost predicate HasRoom(u: seq<bool>, n: nat) {
    exists a :: FirstRun(u, 1, a) && HasRun(Filled(u, a, 1, true), n)
  }

  lemma RoomAfter(u: seq<bool>, a: nat, n: nat)
    requires FirstRun(u, 1, a)
    ensures HasRoom(u, n) <==> HasRun(Filled(u, a, 1, true), n)
  {
    hide HasRun;
    if b :| FirstRun(u, 1, b) && HasRun(Filled(u, b, 1, true), n) { assert a == b; }
  }

  lemma RoomForHeader(u: seq<bool>, n: nat)
    ensures HasRoom(u, n) ==> HasRun(u, 1)
  {
  }

  /** V is U with N more sectors in use, which belong to nobody. */
  ghost predicate Lost(s: State, u: seq<bool>, v: seq<bool>, n: nat) {
    exists b :: Group(u, b, n, false) && v == Filled(u, b, n, true) && Unowned(s, Interval(b, n))
  }

  /** Giving back the header's sector leaves the data sectors marked. */
  lemma HeaderBack(u: seq<bool>, a: nat, b: nat, n: nat)
    requires Group(u, a, 1, false) && Group(Filled(u, a, 1, true), b, n, false)
    ensures Group(u, b, n, false) && Filled(Filled(Filled(u, a, 1, true), b, n, true), a, 1, false) == Filled(u, b, n, true)
    ensures n > 0 ==> Filled(u, b, n, true) != u
  {
    var v := Filled(u, a, 1, true);
    assert v[a];
    forall k | b <= k < b + n ensures !u[k] { assert !v[k]; }
    if n > 0 { assert Filled(u, b, n, true)[b]; }
  }

  /** inode_open reads the inode back. */
  lemma HeaderRead(s: State, disk: seq<Sector>, h: nat)
    requires Inv(s) && Live(s, h) && OnDevice(s.headers, disk)
    ensures h in s.headers && h < |disk| && DecodeInode(disk[h]) == s.headers[h]
  {
    assert OwnerOk(s, h);
    InodeRoundTrip(s.headers[h]);
  }

  /** A sector just allocated is nobody's and no inode's. */
  lemma AllocatedOne(s: State, t: State, a: nat)
    requires Inv(s) && FirstRun(s.used, 1, a) && t == s.(used := Filled(s.used, a, 1, true))
    ensures a < |t.used| && t.used[a] && Group(t.used, a, 1, true) && a != 0 && Unowned(t, {a}) && Interval(a, 1) == {a} && !Live(t, a)
    ensures Filled(t.used, a, 1, false) == s.used
  {
    FreeIsUnowned(s, a, 1);
    FilledBack(s.used, a, 1);
    assert Interval(a, 1) == {a};
    assert Live(s, 0) && OwnerOk(s, 0) && 0 in Owned(s, 0);
  }

  lemma SameLive(s: State, t: State, h: nat)
    requires t.names == s.names && t.open == s.open
    ensures Live(t, h) <==> Live(s, h)
  {
  }

  lemma OwnSector(s: State, h: nat)
    requires OwnerOk(s, h) && Unowned(s, Owned(s, h))
    ensures h in s.headers && Group(s.used, h, 1, true) && Unowned(s, Interval(h, 1)) && Unowned(s, DataSectors(s.headers[h]))
  {
    assert h in Owned(s, h) && Interval(h, 1) == {h};
  }

  /** With the header's sector released the data sectors are still in use, and releasing them clears all of them. */
  lemma DataAfterHeader(s: State, h: nat)
    requires OwnerOk(s, h)
    ensures var e, u := s.headers[h], Filled(s.used, h, 1, false);
      && Group(u, e.start, BytesToSectors(e.length), true)
      && Cleared(s.used, Filled(u, e.start, BytesToSectors(e.length), false), Owned(s, h))
  {
    var e, u := s.headers[h], Filled(s.used, h, 1, false);
    var n := BytesToSectors(e.length);
    hide BytesToSectors;
    assert h in Owned(s, h);
    forall k | e.start <= k < e.start + n ensures u[k] && k != h {
      assert k in DataSectors(e) && k in Owned(s, h);
    }
    assert forall x :: x in Owned(s, h) <==> x == h || e.start <= x < e.start + n;
  }

  lemma StillUnowned(s: State, t: State, xs: set<nat>)
    requires Unowned(s, xs) && t == s.(used := t.used)
    ensures Unowned(t, xs)
  {
    forall h | Live(t, h) ensures h in t.headers && Owned(t, h) !! xs { assert Live(s, h); }
  }

  /** What the map is when both allocations went through: with the name added, and with it refused. */
  lemma Outcomes(u: seq<bool>, a: nat, b: nat, n: nat, size: nat)
    requires FirstRun(u, 1, a) && FirstRun(Filled(u, a, 1, true), n, b) && n == BytesToSectors(size)
    ensures var w := Filled(Filled(u, a, 1, true), b, n, true);
      Marked(u, w, {a} + Interval(b, n)) && Filled(w, a, 1, false) == Filled(u, b, n, true)
    ensures Group(u, b, n, false) && (Filled(u, b, n, true) == u <==> size == 0)
  {
    HeaderBack(u, a, b, n);
    var v := Filled(u, a, 1, true);
    forall x | x in Interval(b, n) ensures x < |u| && !u[x] { assert b <= x < b + n; }
    if size == 0 { assert Filled(u, b, n, true) == u; }
  }

  lemma SectorsLost(s: State, u: seq<bool>, v: seq<bool>, b: nat, n: nat)
    requires Group(u, b, n, false) && v == Filled(u, b, n, true) && Unowned(s, Interval(b, n))
    ensures Lost(s, u, v, n)
  {
  }

  /** Marking sectors before, and naming the inode or clearing sectors after, makes no difference to live files. */
  lemma Kept(s0: State, s: State, t: State, t1: State, disk: seq<Sector>, disk': seq<Sector>)
    requires s == s0.(used := s.used) && t1 == t.(used := t1.used, names := t1.names)
    requires LiveHeadersKept(s, t) && LiveFilesKept(s, disk, disk')
    ensures LiveHeadersKept(s0, t1) && LiveFilesKept(s0, disk, disk')
  {
    hide FileSame;
    assert forall h :: Live(s0, h) <==> Live(s, h);
  }

  class FileSystem {
    const freeMap: Bits
    const dev: Device
    ghost var headers: map<nat, Extent>
    var open: map<nat, Inode>
    var names: map<Name, nat>
    var files: map<nat, Handle>

    ghost function Now(): State
      reads this, freeMap
    {
      State(freeMap.contents, headers, open, names, files)
    }

    ghost predicate Valid()
      reads this, freeMap, freeMap.bits, dev
    {
      freeMap.Valid() && Inv(Now()) && |dev.sectors| == freeMap.bitCnt < MAX_SECTORS && OnDevice(headers, dev.sectors)
    }

    /** do_format and free_map_open on a device large enough for both files. */
    constructor (d: Device)
      requires 3 + FreeMapSectors(|d.sectors|) <= |d.sectors| < MAX_SECTORS
      modifies d
      ensures Valid() && dev == d && fresh(freeMap) && fresh(freeMap.bits) && names == map[]
      ensures |freeMap.contents| == |old(d.sectors)| && MarkedUpTo(freeMap.contents, FreeMapSectors(|old(d.sectors)|))
    {
      hide Inv, FreeMapBytes, BytesToSectors, OnDevice, MarkedUpTo, BothMarked, Bits.Valid, BitAt;
      freeMap := new Bits(|d.sectors|);
      dev := d;
      headers, open, names, files := map[], map[], map[], map[];
      new;
      var n := |d.sectors|;
      MapFits(n);
      var cnt := FreeMapSectors(n);
      var a, b := MarkPermanent(cnt);
      var freeMapData, rootData := Extent(a, FreeMapBytes(n)), Extent(b, ROOT_ENTRIES * ENTRY_SIZE);
      PutPermanent(freeMapData, rootData);
      headers := map[FREE_MAP_SECTOR := freeMapData, ROOT_DIR_SECTOR := rootData];
      open := map[FREE_MAP_SECTOR := Inode(freeMapData, 1, 0, false)];
      files := map[0 := Handle(FREE_MAP_SECTOR, false)];
      FormattedMap(freeMap.contents, cnt);
      FormattedInv(Now(), n, a, b);
    }

    /** free_map_init, and the allocations of free_map_create and dir_create in an empty map. */
    method MarkPermanent(cnt: nat) returns (a: int, b: int)
      requires freeMap.Valid() && Group(freeMap.contents, 0, freeMap.bitCnt, false) && 0 < cnt && 3 + cnt <= freeMap.bitCnt
      modifies freeMap`contents, freeMap.bits
      ensures freeMap.Valid() && a == 2 && b == 2 + cnt
      ensures MarkedUpTo(freeMap.contents, cnt) && |freeMap.contents| == freeMap.bitCnt
    {
      hide BitAt;
      freeMap.Set(FREE_MAP_SECTOR, true);
      freeMap.Set(ROOT_DIR_SECTOR, true);
      ghost var u := freeMap.contents;
      assert Group(u, 2, cnt, false);
      assert u[0] && u[1];
      a := freeMap.ScanAndFlip(0, cnt, false);
      assert !Group(u, 0, cnt, false) && !Group(u, 1, cnt, false);
      ghost var v := freeMap.contents;
      assert Group(v, 2 + cnt, 1, false);
      b := freeMap.ScanAndFlip(0, 1, false);
      assert forall k :: 0 <= k < 2 + cnt ==> v[k];
      assert !v[b];
    }

    /** The two inodes that always exist. */
    method PutPermanent(freeMapData: Extent, rootData: Extent)
      requires Storable(freeMapData) && Fits(dev.sectors, freeMapData) && Storable(rootData) && Fits(dev.sectors, rootData)
      requires 1 < freeMapData.start && 1 < rootData.start && 1 < |dev.sectors|
      modifies dev
      ensures |dev.sectors| == |old(dev.sectors)|
      ensures OnDevice(map[FREE_MAP_SECTOR := freeMapData, ROOT_DIR_SECTOR := rootData], dev.sectors)
    {
      WriteInode(dev, FREE_MAP_SECTOR, freeMapData);
      WriteInode(dev, ROOT_DIR_SECTOR, rootData);
    }

    /** free_map_allocate: CNT adjacent free sectors, now in use and nobody's, or BITMAP_ERROR. */
    method Allocate(cnt: nat, written: bool) returns (sector: int)
      requires Valid()
      modifies freeMap`contents, freeMap.bits
      ensures Valid() && (sector != BITMAP_ERROR <==> written && HasRun(old(freeMap.contents), cnt))
      ensures sector == BITMAP_ERROR ==> Now() == old(Now())
      ensures sector != BITMAP_ERROR ==>
        && 0 <= sector && FirstRun(old(freeMap.contents), cnt, sector) && freeMap.contents == Filled(old(freeMap.contents), sector, cnt, true)
        && Unowned(Now(), Interval(sector, cnt))
    {
      hide OnDevice;
      ghost var s := Now();
      sector := freeMap.ScanAndFlip(0, cnt, false);
      if sector != BITMAP_ERROR {
        FreeIsUnowned(s, sector, cnt);
        BitsInv(s, sector, cnt, true);
        assert Now() == s.(used := Filled(s.used, sector, cnt, true));
        if !written {
          FilledBack(s.used, sector, cnt);
          freeMap.SetMultiple(sector, cnt, false);
          sector := BITMAP_ERROR;
        }
      }
    }

    /** free_map_release, whose assertion demands that all the sectors are in use. */
    method Release(sector: nat, cnt: nat)
      requires Valid() && Group(freeMap.contents, sector, cnt, true) && Unowned(Now(), Interval(sector, cnt))
      modifies freeMap`contents, freeMap.bits
      ensures Valid() && freeMap.contents == Filled(old(freeMap.contents), sector, cnt, false)
    {
      hide OnDevice;
      ghost var s := Now();
      BitsInv(s, sector, cnt, false);
      freeMap.SetMultiple(sector, cnt, false);
      assert Now() == s.(used := Filled(s.used, sector, cnt, false));
    }

    /** inode_create in SECTOR, which is allocated and nobody's: the header goes there, the data, all zeros, on
        sectors that nobody owned either. */
    method InodeCreate(sector: nat, length: nat, memory: bool, written: bool) returns (success: bool)
      requires Valid() && sector < freeMap.bitCnt && freeMap.contents[sector] && Unowned(Now(), {sector})
      requires length < 0x8000_0000
      modifies this`headers, freeMap`contents, freeMap.bits, dev
      ensures Valid() && (success <==> memory && written && HasRun(old(freeMap.contents), BytesToSectors(length)))
      ensures !success ==> Now() == old(Now()) && dev.sectors == old(dev.sectors)
      ensures LiveHeadersKept(old(Now()), Now()) && LiveFilesKept(old(Now()), old(dev.sectors), dev.sectors)
      ensures success ==> sector in headers && headers[sector].length == length && IsZero(dev.sectors, headers[sector])
      ensures success ==> var e := headers[sector];
        && FirstRun(old(freeMap.contents), BytesToSectors(length), e.start)
        && freeMap.contents == Filled(old(freeMap.contents), e.start, BytesToSectors(length), true)
      ensures success ==> OwnerOk(Now(), sector) && Unowned(Now(), Owned(Now(), sector))
    {
      hide Inv, OnDevice, LiveFilesKept, LiveHeadersKept, IsZero, Filled, WithInode, OwnerOk;
      ghost var s0 := Now();
      if !memory {
        NothingWritten(s0, dev.sectors);
        return false;
      }
      var sectors := SectorsAsked(length);
      SameRun(freeMap.contents, length);
      var start := Allocate(sectors, written);
      if start == BITMAP_ERROR {
        NothingWritten(s0, dev.sectors);
        return false;
      }
      ghost var s, disk := Now(), dev.sectors;
      var e := Extent(start, length);
      assert sector !in DataSectors(e);
      WriteInode(dev, sector, e);
      headers := headers[sector := e] - DataSectors(e);
      InodeWritten(s, Now(), sector, e);
      InodeStored(s, disk, sector, e);
      Kept(s0, s, Now(), Now(), disk, dev.sectors);
      return true;
    }

    /** filesys_create; WRITTEN1 and WRITTEN2: the free map could be written each time; ENTRYWRITTEN: so could the
        directory entry. */
    method Create(name: Name, size: nat, rootOpens: bool, memory: bool, written1: bool, written2: bool, entryWritten: bool)
      returns (success: bool)
      requires Valid() && size < 0x8000_0000
      modifies this`headers, this`names, freeMap`contents, freeMap.bits, dev
      ensures Valid()
      ensures var n := BytesToSectors(size);
        && var granted := rootOpens && memory && written1 && written2 && HasRoom(old(freeMap.contents), n);
        && (success <==> granted && entryWritten && Addable(old(names), name))
        && (!success && !granted ==> freeMap.contents == old(freeMap.contents))
        && (!success && granted ==> Lost(Now(), old(freeMap.contents), freeMap.contents, n))
        && (!success ==> (freeMap.contents == old(freeMap.contents) <==> !(granted && size > 0)))
      ensures !success ==> names == old(names)
      ensures success ==> name in names && names == old(names)[name := names[name]] && !Live(old(Now()), names[name])
      ensures success ==> names[name] in headers && headers[names[name]].length == size
      ensures success ==> IsZero(dev.sectors, headers[names[name]])
      ensures success ==> Marked(old(freeMap.contents), freeMap.contents, Owned(Now(), names[name]))
      ensures LiveHeadersKept(old(Now()), Now()) && LiveFilesKept(old(Now()), old(dev.sectors), dev.sectors)
    {
      hide Inv, OnDevice, LiveFilesKept, LiveHeadersKept, IsZero, Live, Unowned, OwnerOk;
      hide HasRun, HasRoom, FirstRun, Lost, Marked, Filled, Group, BytesToSectors, Interval;
      ghost var s0, u, n, disk := Now(), freeMap.contents, BytesToSectors(size), dev.sectors;
      NothingWritten(s0, disk);
      RoomForHeader(u, n);
      if !rootOpens { return false; }
      var sector := Allocate(1, written1);
      if sector == BITMAP_ERROR { return false; }
      ghost var s1 := Now();
      AllocatedOne(s0, s1, sector);
      SameLive(s0, s1, sector);
      RoomAfter(u, sector, n);
      success := InodeCreate(sector, size, memory, written2);
      ghost var s2 := Now();
      if !success {
        if sector != 0 { Release(sector, 1); }
        return false;
      }
      ghost var start := headers[sector].start;
      Outcomes(u, sector, start, n, size);
      SameLive(s1, s2, sector);
      success := NameOrRelease(name, sector, entryWritten);
      Kept(s0, s1, s2, Now(), disk, dev.sectors);
      if !success { SectorsLost(Now(), u, freeMap.contents, start, n); }
    }

    /** The end of filesys_create: dir_add, or the header's sector goes back. */
    method NameOrRelease(name: Name, sector: nat, entryWritten: bool) returns (success: bool)
      requires Valid() && OwnerOk(Now(), sector) && Unowned(Now(), Owned(Now(), sector)) && !Live(Now(), sector)
      requires sector != 0
      modifies this`names, freeMap`contents, freeMap.bits
      ensures Valid() && (success <==> entryWritten && Addable(old(names), name))
      ensures success ==> Now() == old(Now()).(names := old(names)[name := sector])
      ensures !success ==> Now() == old(Now()).(used := Filled(old(freeMap.contents), sector, 1, false))
      ensures !success ==> Unowned(Now(), DataSectors(headers[sector]))
    {
      hide Inv, OnDevice, Unowned, OwnerOk, Live, Interval, Group, Filled, DataSectors;
      OwnSector(Now(), sector);
      if ValidName(name) && name !in names && |names| < ROOT_ENTRIES && entryWritten {
        NameInv(Now(), name, sector);
        names := names[name := sector];
        return true;
      }
      ghost var s := Now();
      if sector != 0 { Release(sector, 1); }
      StillUnowned(s, Now(), DataSectors(headers[sector]));
      return false;
    }

    /** inode_open or inode_reopen of a live inode for the new file F; MEMORY: a struct inode can be
        allocated if one is needed. */
    method InodeOpen(h: nat, f: nat, memory: bool) returns (ok: bool)
      requires Valid() && Live(Now(), h) && f !in files
      modifies this`open, this`files
      ensures Valid() && ok == (h in old(open) || memory)
      ensures Now() == if ok then OpenStep(old(Now()), f, h) else old(Now())
    {
      hide Inv, Live, OnDevice, DecodeInode;
      OpenInv(Now(), f, h);
      HeaderRead(Now(), dev.sectors, h);
      if h !in open && !memory { return false; }
      open := open[h := if h in open then open[h].(openCnt := open[h].openCnt + 1) else Inode(DecodeInode(dev.sectors[h]), 1, 0, false)];
      files := files[f := Handle(h, false)];
      return true;
    }

    /** file_close: the last close of a removed inode, and only that, releases its sectors. */
    method Close(f: nat)
      requires Valid() && f in files
      modifies this`open, this`files, freeMap`contents, freeMap.bits
      ensures Valid() && Now() == CloseStep(old(Now()), f).(used := freeMap.contents)
      ensures MapAfterClose(old(Now()), f, freeMap.contents)
    {
      hide Inv, OpenOk, OwnerOk, Unowned, OnDevice;
      ghost var s := Now();
      CloseInv(s, f);
      Counted(s, f);
      var h := files[f].sector;
      var i := open[h];
      if LastOfRemoved(s, f) { LastClose(s, f); }
      var left := OneLess(i, files[f].deny);
      open := if left.openCnt == 0 then open - {h} else open[h := left];
      files := files - {f};
      assert Now() == CloseStep(s, f);
      if left.openCnt == 0 && i.removed { ReleaseInode(h, i.data); }
    }

    /** The two releases of inode_close. */
    method ReleaseInode(h: nat, data: Extent)
      requires Valid() && OwnerOk(Now(), h) && headers[h] == data && Unowned(Now(), Owned(Now(), h))
      modifies freeMap`contents, freeMap.bits
      ensures Valid() && Cleared(old(freeMap.contents), freeMap.contents, Owned(Now(), h))
    {
      hide Inv, OnDevice, Unowned, OwnerOk, Interval, Group, Filled, Cleared, BytesToSectors;
      ghost var s := Now();
      OwnSector(s, h);
      DataAfterHeader(s, h);
      Release(h, 1);
      StillUnowned(s, Now(), DataSectors(data));
      Release(data.start, BytesToSectors(data.length));
    }

    /** filesys_open: a new file on the inode NAME leads to; ROOTOPENS: the root directory could be
        opened; FILEMEMORY: a struct file could be allocated. */
    method Open(name: Name, f: nat, rootOpens: bool, memory: bool, fileMemory: bool) returns (ok: bool)
      requires Valid() && f !in files
      modifies this`open, this`files, freeMap`contents, freeMap.bits
      ensures Valid() && (ok <==> rootOpens && name in names && (names[name] in old(open) || memory) && fileMemory)
      ensures Now() == if ok then OpenStep(old(Now()), f, names[name]) else old(Now())
    {
      hide Inv, OpenOk, OnDevice;
      if !rootOpens || name !in names { return false; }
      var h := names[name];
      assert h in names.Values;
      ok := InodeOpen(h, f, memory);
      if ok && !fileMemory {
        UndoOpen(old(Now()), f, h);
        Close(f);
        ok := false;
      }
    }

    /** file_reopen of F as G. */
    method Reopen(f: nat, g: nat, fileMemory: bool) returns (ok: bool)
      requires Valid() && f in files && g !in files
      modifies this`open, this`files, freeMap`contents, freeMap.bits
      ensures Valid() && ok == fileMemory
      ensures Now() == if ok then OpenStep(old(Now()), g, old(files)[f].sector) else old(Now())
    {
      hide Inv, OpenOk, OnDevice;
      Counted(Now(), f);
      var h := files[f].sector;
      ok := InodeOpen(h, g, true);
      if !fileMemory {
        UndoOpen(old(Now()), g, h);
        Close(g);
        ok := false;
      }
    }

    /** filesys_remove: the name goes at once, the sectors when nobody has the inode open.  T is the
        opener of dir_remove itself. */
    method Remove(name: Name, t: nat, rootOpens: bool, memory: bool, written: bool) returns (success: bool)
      requires Valid() && t !in files
      modifies this`open, this`names, this`files, freeMap`contents, freeMap.bits
      ensures Valid()
      ensures success <==> rootOpens && name in old(names) && (old(names)[name] in old(open) || memory) && written
      ensures if success then Now() == AfterRemove(old(Now()), name).(used := freeMap.contents) && MapAfterRemove(old(Now()), name, freeMap.contents)
              else Now() == old(Now())
    {
      hide Inv, OpenOk, OnDevice;
      if !rootOpens || name !in names { return false; }
      var h := names[name];
      assert h in names.Values;
      RemoveThenClose(Now(), name, t);
      var ok := InodeOpen(h, t, memory);
      if !ok { return false; }
      if written { Unlink(name); } else { UndoOpen(old(Now()), t, h); }
      Close(t);
      return written;
    }

    /** file_write_at: refused while somebody denies writes; exactly that file changes, and the headers of dead inodes
        that may still have been on its sectors are gone. */
    method Write(f: nat, buffer: array<Byte>, size: int, offset: nat, memory: bool) returns (n: nat)
      requires Valid() && f in files && size <= buffer.Length
      modifies this`headers, dev
      ensures Valid() && Now() == old(Now()).(headers := headers) && LiveHeadersKept(old(Now()), Now())
      ensures files[f].sector in open
      ensures var h := files[f].sector; var i := open[h];
        && h in headers && headers[h] == i.data && n <= buffer.Length && n <= Available(size, offset, i.data.length)
        && (i.denyCnt > 0 ==> n == 0)
        && (i.denyCnt == 0 && memory ==> n == Available(size, offset, i.data.length))
        && FileWritten(old(dev.sectors), dev.sectors, i.data, offset, buffer[..n])
        && forall g :: Live(Now(), g) && g != h ==> g in headers && FileSame(old(dev.sectors), dev.sectors, headers[g])
    {
      hide Inv, OnDevice, Live, LiveHeadersKept, FileSame, FileWritten, Available;
      ghost var s, disk := Now(), dev.sectors;
      OpenFile(s, f);
      var h := files[f].sector;
      var i := open[h];
      n := WriteAt(dev, i.data, i.denyCnt > 0, buffer, size, offset, memory);
      NoneOrWithin(size, offset, i.data.length, n);
      if n == 0 {
        NothingWritten(s, disk);
        AllFilesKept(s, disk, h);
        EmptyData(disk, i.data, offset, buffer[..n]);
      } else {
        WriteStep(s, disk, dev.sectors, h, offset, buffer[..n]);
        headers := headers - DataSectors(i.data);
      }
    }

    /** file_read_at, into a buffer that is not the free map's own memory. */
    method Read(f: nat, buffer: array<Byte>, size: int, offset: nat, memory: bool) returns (n: nat)
      requires Valid() && f in files && size <= buffer.Length && buffer as object != freeMap.bits
      modifies buffer
      ensures Valid() && files[f].sector in open
      ensures var e := open[files[f].sector].data;
        && n <= Available(size, offset, e.length) && (memory ==> n == Available(size, offset, e.length))
        && Fits(dev.sectors, e) && ReadInto(old(buffer[..]), buffer[..], FileBytes(dev.sectors, e), offset, n)
    {
      hide Inv, OnDevice, FileBytes, ReadInto, Available;
      OpenFile(Now(), f);
      n := ReadAt(dev, open[files[f].sector].data, buffer, size, offset, memory);
    }

    /** The name goes from the directory and its inode, which is open, is marked. */
    method Unlink(name: Name)
      requires Valid() && name in names && names[name] in open
      modifies this`open, this`names
      ensures Valid() && Now() == RemoveStep(old(Now()), name)
    {
      hide Inv, OnDevice;
      RemoveInv(Now(), name);
      var h := names[name];
      names, open := names - {name}, open[h := open[h].(removed := true)];
    }

    /** file_deny_write and file_allow_write. */
    method SetDeny(f: nat, deny: bool)
      requires Valid() && f in files
      modifies this`open, this`files
      ensures Valid() && Now() == DenyStep(old(Now()), f, deny) && DenyWithin(Now(), f)
    {
      hide Inv, OnDevice;
      DenyInv(Now(), f, deny);
      if files[f].deny != deny {
        var h := files[f].sector;
        open := open[h := Denied(open[h], deny)];
        files := files[f := Handle(h, deny)];
      }
    }
  }

  /** A device of 64 sectors, just formatted: filesys_create with the empty name fails, and sector X, which was
      free, is in use from then on although no file was ever made. */
  method LosesSector(d: Device) returns (fs: FileSystem, ghost x: nat)
    requires |d.sectors| == 64
    modifies d
    ensures fresh(fs) && fs.Valid() && fs.names == map[]
    ensures 4 <= x < |fs.freeMap.contents| && fs.freeMap.contents[x] && Unowned(fs.Now(), {x})
  {
    hide Inv, OnDevice, LiveFilesKept, LiveHeadersKept, IsZero, Marked, Unowned, Live, HasRoom, Lost;
    fs := new FileSystem(d);
    ghost var u := fs.freeMap.contents;
    RoomFromFour(u);
    var ok := fs.Create([], 1, true, true, true, true, true);
    x := OneLost(fs.Now(), u, fs.freeMap.contents);
  }

  /** A file that is created and removed again before anybody opens it leaves the free map, the directory and the
      open files as they were. */
  method CreateThenRemove(fs: FileSystem, name: Name, size: nat, t: nat)
    requires fs.Valid() && size < 0x8000_0000 && t !in fs.files
    requires Addable(fs.names, name) && HasRoom(fs.freeMap.contents, BytesToSectors(size))
    modifies fs, fs.freeMap`contents, fs.freeMap.bits, fs.dev
    ensures fs.Valid() && fs.Now() == old(fs.Now()).(headers := fs.headers)
    ensures LiveFilesKept(old(fs.Now()), old(fs.dev.sectors), fs.dev.sectors)
  {
    hide Inv, OnDevice, LiveFilesKept, LiveHeadersKept, IsZero, Marked, Cleared, Unowned, HasRoom, Lost, Owned, BytesToSectors;
    ghost var s := fs.Now();
    var made := fs.Create(name, size, true, true, true, true, true);
    ghost var r := fs.Now();
    var gone := fs.Remove(name, t, true, true, true);
    CreatedAndGone(s, r, name, fs.freeMap.contents);
  }

  lemma CreatedAndGone(s: State, r: State, name: Name, u: seq<bool>)
    requires name !in s.names && name in r.names && r.names == s.names[name := r.names[name]] && !Live(s, r.names[name])
    requires r == s.(used := r.used, headers := r.headers, names := r.names) && r.names[name] in r.headers
    requires Marked(s.used, r.used, Owned(r, r.names[name])) && MapAfterRemove(r, name, u)
    ensures u == s.used && AfterRemove(r, name).(used := u) == s.(headers := r.headers)
  {
    assert r.names - {name} == s.names;
    hide Owned;
    Unmarked(s.used, r.used, u, Owned(r, r.names[name]));
  }

  lemma Unmarked(u: seq<bool>, v: seq<bool>, w: seq<bool>, xs: set<nat>)
    requires Marked(u, v, xs) && Cleared(v, w, xs)
    ensures w == u
  {
  }

  lemma OneLost(s: State, u: seq<bool>, v: seq<bool>) returns (x: nat)
    requires Lost(s, u, v, 1)
    ensures x < |u| == |v| && !u[x] && v[x] && Unowned(s, {x})
  {
    var b :| Group(u, b, 1, false) && v == Filled(u, b, 1, true) && Unowned(s, Interval(b, 1));
    x := b;
    assert Interval(x, 1) == {x};
  }

  lemma RoomFromFour(u: seq<bool>)
    requires |u| == 64 && forall k :: 0 <= k < 64 ==> u[k] == (k < 4)
    ensures HasRoom(u, 1)
  {
    assert FirstRun(u, 1, 4) by { assert u[0] && u[1] && u[2] && u[3]; }
    assert Group(Filled(u, 4, 1, true), 5, 1, false);
  }

  /** V is U with exactly the bits of XS set, which were clear. */
  ghost predicate Marked(u: seq<bool>, v: seq<bool>, xs: set<nat>) {
    && |v| == |u| && (forall k :: 0 <= k < |u| ==> v[k] == (u[k] || k in xs))
    && (forall x :: x in xs ==> x < |u| && !u[x])
  }

  /** The inodes that were live are as they were on the device. */
  ghost predicate LiveHeadersKept(s: State, t: State) {
    forall h :: Live(s, h) ==> h in s.headers && h in t.headers && t.headers[h] == s.headers[h]
  }

  /** The directory takes NAME: it is valid and new, and there are fewer names than slots. */
  predicate Addable(names: map<Name, nat>, name: Name) {
    1 <= |name| <= 14 && name !in names && |names| < 16
  }

  ghost predicate IsZero(disk: seq<Sector>, e: Extent) {
    Fits(disk, e) && FileBytes(disk, e) == seq(e.length, _ => 0)
  }

  /** A new inode E at H, all on sectors in use that nobody owned. */
  lemma InodeWritten(s: State, t: State, h: nat, e: Extent)
    requires Inv(s) && Unowned(s, {h}) && Unowned(s, DataSectors(e))
    requires h < |s.used| && s.used[h] && Group(s.used, e.start, BytesToSectors(e.length), true)
    requires h !in DataSectors(e)
    requires t == s.(headers := s.headers[h := e] - DataSectors(e))
    ensures Inv(t) && OwnerOk(t, h) && Unowned(t, Owned(t, h)) && LiveHeadersKept(s, t)
  {
    var xs := {h} + DataSectors(e);
    assert InUse(s.used, xs);
    hide DataSectors, BytesToSectors;
    assert Unowned(s, xs);
    HeadersInv(s, t, xs);
    NewOwner(s, t, h, xs);
  }

  /** On the device: the new inode can be read, its file is all zeros, and live files keep their bytes. */
  lemma InodeStored(s: State, disk: seq<Sector>, h: nat, e: Extent)
    requires Inv(s) && |disk| == |s.used| && OnDevice(s.headers, disk) && Storable(e) && Fits(disk, e)
    requires h < |disk| && h !in DataSectors(e) && Unowned(s, {h}) && Unowned(s, DataSectors(e))
    ensures OnDevice(s.headers[h := e] - DataSectors(e), WithInode(disk, h, e))
    ensures IsZero(WithInode(disk, h, e), e) && LiveFilesKept(s, disk, WithInode(disk, h, e))
  {
    hide OnDevice, LiveFilesKept, WithInode, FileBytes;
    NewFileIsZero(disk, h, e);
    StoredHeaders(s.headers, disk, h, e);
    LiveUntouched(s, disk, h, e);
  }

  lemma StoredHeaders(hs: map<nat, Extent>, disk: seq<Sector>, h: nat, e: Extent)
    requires OnDevice(hs, disk) && Storable(e) && h < |disk| && h !in DataSectors(e)
    ensures OnDevice(hs[h := e] - DataSectors(e), WithInode(disk, h, e))
  {
    hide EncodeInode;
  }

  lemma LiveUntouched(s: State, disk: seq<Sector>, h: nat, e: Extent)
    requires Inv(s) && |disk| == |s.used| && Storable(e) && Unowned(s, {h}) && Unowned(s, DataSectors(e))
    ensures LiveFilesKept(s, disk, WithInode(disk, h, e))
  {
    hide EncodeInode, FileBytes, Zeros;
    var disk' := WithInode(disk, h, e);
    forall g | Live(s, g) && !Permanent(g) ensures g in s.headers && FileSame(disk, disk', s.headers[g]) {
      var f := s.headers[g];
      assert OwnerOk(s, g);
      forall k | f.start <= k < f.start + BytesToSectors(f.length) ensures disk'[k] == disk[k] {
        assert k in Owned(s, g);
      }
      FileKept(disk, disk', f);
    }
  }

  /** The file E is in DISK' as in DISK with DATA in place from OFFSET on. */
  ghost predicate FileWritten(disk: seq<Sector>, disk': seq<Sector>, e: Extent, offset: nat, data: seq<Byte>) {
    && Fits(disk, e) && Fits(disk', e)
    && var was, now := FileBytes(disk, e), FileBytes(disk', e);
       if data == [] then now == was else offset + |data| <= |was| && now == was[..offset] + data + was[offset + |data|..]
  }

  /** The inode of an open file is live, and is in memory as on the device. */
  lemma OpenFile(s: State, f: nat)
    requires Inv(s) && f in s.files
    ensures var h := s.files[f].sector;
      && h in s.open && h in s.headers && s.open[h].data == s.headers[h] && Live(s, h)
      && s.headers[h].start + BytesToSectors(s.headers[h].length) <= |s.used|
  {
    var h := s.files[f].sector;
    assert OpenOk(s, h) && Live(s, h) && OwnerOk(s, h);
  }

  lemma NoneOrWithin(size: int, offset: nat, length: nat, n: nat)
    requires n <= Available(size, offset, length)
    ensures n > 0 ==> offset + n <= length
  {
  }

  /** Nothing written: every live file is as it was. */
  lemma AllFilesKept(s: State, disk: seq<Sector>, h: nat)
    requires Inv(s) && |disk| == |s.used|
    ensures forall g :: Live(s, g) && g != h ==> g in s.headers && FileSame(disk, disk, s.headers[g])
  {
    forall g | Live(s, g) && g != h ensures g in s.headers && FileSame(disk, disk, s.headers[g]) {
      assert OwnerOk(s, g);
    }
  }

  lemma EmptyData(disk: seq<Sector>, e: Extent, offset: nat, data: seq<Byte>)
    requires data == [] && Fits(disk, e)
    ensures FileWritten(disk, disk, e, offset, data)
  {
  }

  /** Writing data of the live inode H keeps everything in order. */
  lemma WriteStep(s: State, disk: seq<Sector>, disk': seq<Sector>, h: nat, offset: nat, data: seq<Byte>)
    requires Inv(s) && |disk| == |s.used| && OnDevice(s.headers, disk) && Live(s, h) && h in s.headers && data != []
    requires offset + |data| <= s.headers[h].length && Overwritten(disk, disk', Address(s.headers[h], offset), data)
    ensures var e := s.headers[h]; var t := s.(headers := s.headers - DataSectors(e));
      && Inv(t) && LiveHeadersKept(s, t) && h in t.headers && t.headers[h] == e
      && |disk'| == |disk| && OnDevice(t.headers, disk') && FileWritten(disk, disk', e, offset, data)
      && forall g :: Live(t, g) && g != h ==> g in t.headers && FileSame(disk, disk', t.headers[g])
  {
    hide OnDevice, FileSame, Overwritten, FileBytes, BytesToSectors;
    var e := s.headers[h];
    var t := s.(headers := s.headers - DataSectors(e));
    assert OwnerOk(s, h);
    forall g | Live(s, g) ensures g in s.headers && g !in DataSectors(e) {
      assert OwnerOk(s, g) && g in Owned(s, g);
      assert g != h ==> Owned(s, g) !! Owned(s, h);
    }
    LiveHeadersInv(s, t);
    HeadersStay(s.headers, disk, disk', e, offset, data);
    ReadAfterWrite(disk, disk', e, offset, data);
    SameSize(disk, disk', Address(e, offset), data);
    forall g | Live(t, g) && g != h ensures g in t.headers && FileSame(disk, disk', t.headers[g]) {
      assert Live(s, g);
      LiveFilesIndependent(s, disk, disk', h, g, offset, data);
    }
  }

  lemma SameSize(disk: seq<Sector>, disk': seq<Sector>, a: nat, data: seq<Byte>)
    requires Overwritten(disk, disk', a, data)
    ensures |disk'| == |disk|
  {
  }

  lemma HeadersStay(hs: map<nat, Extent>, disk: seq<Sector>, disk': seq<Sector>, e: Extent, offset: nat, data: seq<Byte>)
    requires OnDevice(hs, disk) && Fits(disk, e) && offset + |data| <= e.length
    requires Overwritten(disk, disk', Address(e, offset), data)
    ensures OnDevice(hs - DataSectors(e), disk')
  {
    hide EncodeInode, Overwritten;
    SameSize(disk, disk', Address(e, offset), data);
    forall h | h in hs - DataSectors(e) ensures h < |disk'| && Storable(hs[h]) && disk'[h] == EncodeInode(hs[h]) {
      SectorKept(disk, disk', e, offset, data, h);
    }
  }

  lemma NothingWritten(s: State, disk: seq<Sector>)
    requires Inv(s) && |disk| == |s.used|
    ensures LiveFilesKept(s, disk, disk) && LiveHeadersKept(s, s)
  {
    forall g | Live(s, g) && !Permanent(g) ensures g in s.headers && FileSame(disk, disk, s.headers[g]) {
      assert OwnerOk(s, g);
    }
  }

  /** Closing a file just opened on a live inode restores everything. */
  lemma UndoOpen(s: State, f: nat, h: nat)
    requires Inv(s) && Live(s, h) && f !in s.files
    ensures f in OpenStep(s, f, h).files && CloseStep(OpenStep(s, f, h), f) == s && !LastOfRemoved(OpenStep(s, f, h), f)
  {
    OpenThenClose(s, f, h);
    if h in s.open { assert OpenOk(s, h); } else { assert OwnerOk(s, h); }
  }

  /** What a successful remove of NAME does: the name is gone; an inode that is still open is marked. */
  function AfterRemove(s: State, name: Name): State {
    if name !in s.names then s
    else
      var h := s.names[name];
      s.(names := s.names - {name}, open := if h in s.open then s.open[h := s.open[h].(removed := true)] else s.open)
  }

  /** Its sectors are released at once exactly when nobody has it open. */
  ghost predicate MapAfterRemove(s: State, name: Name, u: seq<bool>) {
    name in s.names &&
    var h := s.names[name];
    if h in s.open then u == s.used else h in s.headers && Cleared(s.used, u, Owned(s, h))
  }

  lemma RemoveThenClose(s: State, name: Name, f: nat)
    requires Inv(s) && name in s.names && f !in s.files
    ensures var r := RemoveStep(OpenStep(s, f, s.names[name]), name);
      && CloseStep(r, f) == AfterRemove(s, name)
      && (forall u :: MapAfterClose(r, f, u) ==> MapAfterRemove(s, name, u))
  {
    var h := s.names[name];
    assert h in s.names.Values && Live(s, h) && OwnerOk(s, h);
    if h in s.open { OpenedBefore(s, h); }
    hide Inv, Live, OwnerOk;
    RemovedTables(s, name, f, h);
  }

  lemma OpenedBefore(s: State, h: nat)
    requires Inv(s) && h in s.open
    ensures s.open[h].openCnt > 0
  {
    assert OpenOk(s, h);
  }

  lemma RemovedTables(s: State, name: Name, f: nat, h: nat)
    requires name in s.names && h == s.names[name] && h in s.headers && f !in s.files && (h in s.open ==> s.open[h].openCnt > 0)
    ensures var r := RemoveStep(OpenStep(s, f, h), name);
      CloseStep(r, f) == AfterRemove(s, name) && r.used == s.used && r.headers == s.headers
      && f in r.files && r.files[f].sector == h && (LastOfRemoved(r, f) <==> h !in s.open)
  {
    assert s.files[f := Handle(h, false)] - {f} == s.files;
  }

  lemma NewOwner(s: State, t: State, h: nat, xs: set<nat>)
    requires Inv(s) && Unowned(s, xs) && h in t.headers && Owned(t, h) == xs && t == s.(headers := t.headers)
    requires forall g :: g in s.headers && g !in xs ==> g in t.headers && t.headers[g] == s.headers[g]
    ensures Unowned(t, xs) && LiveHeadersKept(s, t)
  {
    forall g | Live(s, g) ensures g in s.headers && g in t.headers && t.headers[g] == s.headers[g] {
      assert OwnerOk(s, g) && g in Owned(s, g);
    }
    forall g | Live(t, g) ensures g in t.headers && Owned(t, g) !! xs {
      assert Live(s, g) && OwnerOk(s, g);
    }
  }

  /** In every state of the file system, writing to one live file changes no byte of another. */
  lemma LiveFilesIndependent(s: State, disk: seq<Sector>, disk': seq<Sector>, g: nat, h: nat, offset: nat, data: seq<Byte>)
    requires Inv(s) && |disk| == |s.used| && Live(s, g) && Live(s, h) && g != h && g in s.headers && h in s.headers
    requires offset + |data| <= s.headers[g].length
    requires Overwritten(disk, disk', Address(s.headers[g], offset), data)
    ensures FileSame(disk, disk', s.headers[h])
  {
    var e, f := s.headers[g], s.headers[h];
    assert OwnerOk(s, g) && OwnerOk(s, h);
    assert Owned(s, g) !! Owned(s, h);
    if e.length > 0 && f.length > 0 {
      IntervalsApart(e.start, BytesToSectors(e.length), f.start, BytesToSectors(f.length));
      OtherFileKept(disk, disk', e, offset, data, f);
    } else if f.length > 0 {
      EmptyWrite(disk, disk', Address(e, offset), data, f);
    }
  }

  lemma IntervalsApart(a: nat, m: nat, b: nat, n: nat)
    requires Interval(a, m) !! Interval(b, n) && m > 0 && n > 0
    ensures a + m <= b || b + n <= a
  {
    var x := if a < b then b else a;
    assert x < a + m && x < b + n ==> x in Interval(a, m) && x in Interval(b, n);
  }

  lemma EmptyWrite(disk: seq<Sector>, disk': seq<Sector>, a: nat, data: seq<Byte>, f: Extent)
    requires Overwritten(disk, disk', a, data) && data == [] && Fits(disk, f)
    ensures Fits(disk', f) && FileBytes(disk', f) == FileBytes(disk, f)
  {
    forall i | 0 <= i < f.length ensures FileBytes(disk', f)[i] == FileBytes(disk, f)[i] {
      AddressFits(disk, f, i);
      assert ByteAt(disk', Address(f, i)) == FileBytes(disk', f)[i];
    }
  }

  /** No sector belongs to two live inodes, none of them is free, and a removed inode that is open is
      still live. */
  lemma SectorsExclusive(s: State, g: nat, h: nat, x: nat)
    requires Inv(s) && Live(s, g) && Live(s, h)
    ensures g in s.headers && h in s.headers
    ensures x in Owned(s, g) ==> x < |s.used| && s.used[x]
    ensures x in Owned(s, g) && x in Owned(s, h) ==> g == h
  {
    assert OwnerOk(s, g) && OwnerOk(s, h);
    assert g != h ==> Owned(s, g) !! Owned(s, h);
  }
}
