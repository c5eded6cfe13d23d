/** Directories of pintos/src/filesys/directory.c: a file that is an array of 20-byte entries, read
    and written through inode_read_at and inode_write_at. */
module Directory {
  import opened Bytes
  import opened InodeIO
  import opened Seqs

  const NAME_MAX: int := 14
  const ENTRY_SIZE: int := 20

  /** A file name without its terminating null byte. */
  type Name = Text

  /** A directory entry: RAW is the 15-byte name field. */
  datatype Entry = Entry(sector: nat, raw: seq<Byte>, inUse: bool)

  function Decode(b: seq<Byte>): Entry
    requires |b| == ENTRY_SIZE
  {
    Entry(Word(b[..4]), b[4..19], b[19] != 0)
  }

  function Encode(e: Entry): (b: seq<Byte>)
    requires |e.raw| == NAME_MAX + 1 && e.sector < 0x1_0000_0000
    ensures |b| == ENTRY_SIZE && Decode(b) == e
  {
    var w := WordBytes(e.sector);
    var b := w + e.raw + [if e.inUse then 1 else 0];
    assert b[..4] == w && b[4..19] == e.raw;
    b
  }

  /** The layout of an entry: the sector, the name field and the flag. */
  lemma EntryLayout(e: Entry)
    requires |e.raw| == 15 && e.sector < 0x1_0000_0000
    ensures var b := Encode(e);
      && |b| == 20 && LittleEndian(b[0], b[1], b[2], b[3]) == e.sector && b[4..19] == e.raw && b[19] == if e.inUse then 1 else 0
  {
    var w, b := WordBytes(e.sector), Encode(e);
    assert b[..4] == w && Word(w) == e.sector;
  }

  /** strcmp says that RAW holds NAME. */
  predicate Matches(raw: seq<Byte>, name: Name) {
    |name| < |raw| && raw[..|name|] == name && raw[|name|] == 0
  }

  predicate ValidName(name: Name) { 1 <= |name| <= NAME_MAX }

  function SlotCnt(e: Extent): nat { e.length / ENTRY_SIZE }

  /** The entries of the directory file E. */
  function Slots(disk: seq<Sector>, e: Extent): (r: seq<Entry>)
    requires Fits(disk, e)
    ensures |r| == SlotCnt(e)
  {
    var f := FileBytes(disk, e);
    seq(SlotCnt(e), k requires 0 <= k < SlotCnt(e) => Decode(f[k * ENTRY_SIZE..k * ENTRY_SIZE + ENTRY_SIZE]))
  }

  /** On a terminated field, strcmp compares with the string in it. */
  lemma {:induction false} MatchesName(raw: seq<Byte>, name: Name)
    requires 0 in raw
    ensures Matches(raw, name) <==> TextOf(raw) == name
  {
    if raw[0] != 0 {
      assert raw == [raw[0]] + raw[1..];
      if name == [] {
        assert !Matches(raw, name);
      } else {
        MatchesName(raw[1..], name[1..]);
        assert name == [name[0]] + name[1..];
        assert Matches(raw, name) <==> raw[0] == name[0] && Matches(raw[1..], name[1..]) by {
          if |name| < |raw| {
            assert raw[..|name|] == [raw[0]] + raw[1..][..|name| - 1];
            assert raw[1..][|name| - 1] == raw[|name|];
          }
        }
      }
    } else {
      assert name != [] ==> |raw| <= |name| || raw[..|name|] != name by {
        if name != [] && |name| < |raw| { assert raw[..|name|][0] == 0 && name[0] in name; }
      }
    }
  }

  /** An entry in use holds a terminated, valid name. */
  predicate SlotOk(s: Entry) { s.inUse ==> 0 in s.raw && ValidName(TextOf(s.raw)) }

  /** The entries in use are exactly the bindings of NAMES, each name once. */
  ghost predicate DirOk(slots: seq<Entry>, names: map<Name, nat>) {
    && (forall k :: 0 <= k < |slots| ==> SlotOk(slots[k]))
    && (forall k :: 0 <= k < |slots| && slots[k].inUse ==>
          TextOf(slots[k].raw) in names && names[TextOf(slots[k].raw)] == slots[k].sector)
    && (forall j, k :: 0 <= j < k < |slots| && slots[j].inUse && slots[k].inUse ==> TextOf(slots[j].raw) != TextOf(slots[k].raw))
    && (forall n :: n in names ==> Holder(slots, n))
  }

  ghost predicate Holder(slots: seq<Entry>, n: Name) {
    exists k :: 0 <= k < |slots| && slots[k].inUse && TextOf(slots[k].raw) == n
  }

  /** Slot K holds NAME. */
  predicate HasName(slots: seq<Entry>, k: int, name: Name) {
    0 <= k < |slots| && slots[k].inUse && TextOf(slots[k].raw) == name
  }

  lemma SlotOf(slots: seq<Entry>, names: map<Name, nat>, n: Name) returns (k: nat)
    requires DirOk(slots, names) && n in names
    ensures HasName(slots, k, n)
  {
    assert Holder(slots, n);
    k :| 0 <= k < |slots| && slots[k].inUse && TextOf(slots[k].raw) == n;
  }

  /** The names in use from slot K on, in order. */
  function Listing(slots: seq<Entry>, k: nat): seq<Name>
    decreases |slots| - k
  {
    if k >= |slots| then []
    else (if slots[k].inUse then [TextOf(slots[k].raw)] else []) + Listing(slots, k + 1)
  }

  lemma {:induction false} ListingMember(slots: seq<Entry>, k: nat, n: Name)
    ensures n in Listing(slots, k) <==> exists i :: k <= i < |slots| && HasName(slots, i, n)
    decreases |slots| - k
  {
    if k < |slots| {
      ListingMember(slots, k + 1, n);
      if HasName(slots, k, n) { assert n in Listing(slots, k); }
      if i :| k <= i < |slots| && HasName(slots, i, n) { assert i == k || k + 1 <= i; }
    }
  }

  /** Reading a directory from its beginning lists every name in it exactly once. */
  lemma {:induction false} ListingOnce(slots: seq<Entry>, names: map<Name, nat>, k: nat)
    requires DirOk(slots, names)
    ensures NoDup(Listing(slots, k))
    ensures k == 0 ==> forall n :: n in Listing(slots, 0) <==> n in names
    decreases |slots| - k
  {
    if k < |slots| {
      ListingOnce(slots, names, k + 1);
      if slots[k].inUse {
        var n := TextOf(slots[k].raw);
        ListingMember(slots, k + 1, n);
        NoDupFront(Listing(slots, k + 1), n);
      } else {
        assert Listing(slots, k) == Listing(slots, k + 1);
      }
    }
    if k == 0 {
      forall n ensures n in Listing(slots, 0) <==> n in names {
        ListingMember(slots, 0, n);
        if n in names {
          var i := SlotOf(slots, names, n);
        }
      }
    }
  }

  lemma {:induction false} ListingLength(slots: seq<Entry>, k: nat)
    requires k <= |slots|
    ensures |Listing(slots, k)| <= |slots| - k
    ensures |Listing(slots, k)| == |slots| - k <==> forall i :: k <= i < |slots| ==> slots[i].inUse
    decreases |slots| - k
  {
    if k < |slots| { ListingLength(slots, k + 1); }
  }

  /** A slot is free exactly when there are fewer names than slots; so a removed name makes room again. */
  lemma FreeSlots(slots: seq<Entry>, names: map<Name, nat>)
    requires DirOk(slots, names)
    ensures |names| <= |slots| && (HasFree(slots) <==> |names| < |slots|)
  {
    ListingOnce(slots, names, 0);
    ListingLength(slots, 0);
    hide DirOk, Listing;
    NoDupSize(Listing(slots, 0), names.Keys);
  }

  lemma RemoveMakesRoom(slots: seq<Entry>, names: map<Name, nat>, name: Name)
    requires DirOk(slots, names) && name in names
    ensures |names - {name}| < |slots|
  {
    FreeSlots(slots, names);
    hide DirOk;
    assert (names - {name}).Keys == names.Keys - {name};
  }

  /** AFTER is BEFORE with NAME for SECTOR in the first slot that was free. */
  ghost predicate InFirstFree(before: seq<Entry>, after: seq<Entry>, name: Name, sector: nat) {
    exists k :: HasName(after, k, name) && k < |before| && !before[k].inUse && (forall j :: 0 <= j < k ==> before[j].inUse)
      && after[k].sector == sector && after == before[k := after[k]]
  }

  /** AFTER is BEFORE with the slot of NAME marked free. */
  ghost predicate SlotFreed(before: seq<Entry>, after: seq<Entry>, name: Name) {
    exists k :: HasName(before, k, name) && after == before[k := before[k].(inUse := false)]
  }

  // ---------- slots and bytes

  lemma SlotAt(disk: seq<Sector>, e: Extent, k: nat)
    requires Fits(disk, e) && k < SlotCnt(e)
    ensures k * ENTRY_SIZE + ENTRY_SIZE <= e.length
    ensures Slots(disk, e)[k] == Decode(FileBytes(disk, e)[k * ENTRY_SIZE..k * ENTRY_SIZE + ENTRY_SIZE])
  {
  }

  /** Writing one whole entry changes that slot and no other. */
  lemma SlotWritten(disk: seq<Sector>, disk': seq<Sector>, e: Extent, k: nat, data: seq<Byte>)
    requires Fits(disk, e) && k < SlotCnt(e) && |data| == ENTRY_SIZE
    requires Overwritten(disk, disk', Address(e, k * ENTRY_SIZE), data)
    ensures Fits(disk', e) && Slots(disk', e) == Slots(disk, e)[k := Decode(data)]
  {
    hide Overwritten, FileBytes, Decode, Slots;
    ReadAfterWrite(disk, disk', e, k * ENTRY_SIZE, data);
    var f, g := FileBytes(disk, e), FileBytes(disk', e);
    forall j | 0 <= j < SlotCnt(e) ensures Slots(disk', e)[j] == if j == k then Decode(data) else Slots(disk, e)[j] {
      SlotAt(disk, e, j);
      SlotAt(disk', e, j);
      var a := j * ENTRY_SIZE;
      if j == k {
        assert g[a..a + ENTRY_SIZE] == data;
      } else {
        SliceKept(f, g, k * ENTRY_SIZE, data, a);
      }
    }
  }

  lemma SliceKept(f: seq<Byte>, g: seq<Byte>, o: nat, data: seq<Byte>, a: nat)
    requires o + |data| <= |f| && g == f[..o] + data + f[o + |data|..]
    requires a + ENTRY_SIZE <= o || (o + |data| <= a && a + ENTRY_SIZE <= |f|)
    ensures g[a..a + ENTRY_SIZE] == f[a..a + ENTRY_SIZE]
  {
  }

  /** Bytes written behind the last whole entry belong to no slot. */
  lemma TailWritten(disk: seq<Sector>, disk': seq<Sector>, e: Extent, data: seq<Byte>)
    requires Fits(disk, e) && SlotCnt(e) * ENTRY_SIZE + |data| <= e.length
    requires Overwritten(disk, disk', Address(e, SlotCnt(e) * ENTRY_SIZE), data)
    ensures Fits(disk', e) && Slots(disk', e) == Slots(disk, e)
  {
    ReadAfterWrite(disk, disk', e, SlotCnt(e) * ENTRY_SIZE, data);
    var f, g := FileBytes(disk, e), FileBytes(disk', e);
    forall j | 0 <= j < SlotCnt(e) ensures Slots(disk', e)[j] == Slots(disk, e)[j] {
      SlotAt(disk, e, j);
      SlotAt(disk', e, j);
      SliceKept(f, g, SlotCnt(e) * ENTRY_SIZE, data, j * ENTRY_SIZE);
    }
  }

  /** strlcpy of a valid name over RAW. */
  function CopyName(raw: seq<Byte>, name: Name): (r: seq<Byte>)
    requires |raw| == NAME_MAX + 1 && ValidName(name)
    ensures |r| == NAME_MAX + 1 && 0 in r
  {
    var r := name + [0] + raw[|name| + 1..];
    assert r[|name|] == 0;
    r
  }

  lemma CopiedName(raw: seq<Byte>, name: Name)
    requires |raw| == NAME_MAX + 1 && ValidName(name)
    ensures TextOf(CopyName(raw, name)) == name
  {
    var r := CopyName(raw, name);
    assert r[..|name|] == name;
    MatchesName(r, name);
  }

  lemma AddedOk(slots: seq<Entry>, names: map<Name, nat>, k: nat, name: Name, s: Entry)
    requires DirOk(slots, names) && k < |slots| && !slots[k].inUse && name !in names
    requires s.inUse && SlotOk(s) && TextOf(s.raw) == name
    ensures DirOk(slots[k := s], names[name := s.sector])
  {
    var t, m := slots[k := s], names[name := s.sector];
    forall n | n in m ensures Holder(t, n) {
      if n == name {
        assert t[k].inUse && TextOf(t[k].raw) == n;
      } else {
        assert Holder(slots, n);
        var j :| 0 <= j < |slots| && slots[j].inUse && TextOf(slots[j].raw) == n;
        assert t[j] == slots[j];
      }
    }
  }

  lemma RemovedOk(slots: seq<Entry>, names: map<Name, nat>, k: nat, name: Name)
    requires DirOk(slots, names) && HasName(slots, k, name)
    ensures DirOk(slots[k := slots[k].(inUse := false)], names - {name}) && name in names && names[name] == slots[k].sector
  {
    var t := slots[k := slots[k].(inUse := false)];
    forall n | n in names - {name} ensures Holder(t, n) {
      assert Holder(slots, n);
      var j :| 0 <= j < |slots| && slots[j].inUse && TextOf(slots[j].raw) == n;
      assert t[j] == slots[j];
    }
  }

  /** An open directory; DENIED parameters stand for the inode's deny-write count, and bounce buffers
      are available. */
  class Dir {
    const dev: Device
    const inode: Extent
    var pos: nat
    ghost var names: map<Name, nat>

    ghost predicate Valid()
      reads this, dev
    {
      Fits(dev.sectors, inode) && DirOk(Slots(dev.sectors, inode), names) && pos % ENTRY_SIZE == 0
    }

    /** dir_open on a directory whose entries hold BOUND. */
    constructor (d: Device, e: Extent, ghost bound: map<Name, nat>)
      requires Fits(d.sectors, e) && DirOk(Slots(d.sectors, e), bound)
      ensures Valid() && dev == d && inode == e && names == bound && pos == 0
    {
      dev, inode, pos, names := d, e, 0, bound;
    }

    /** inode_read_at of the entry at OFS; OK says that the whole entry was read. */
    method ReadEntry(ofs: nat) returns (ok: bool, entry: Entry)
      requires Fits(dev.sectors, inode) && ofs % ENTRY_SIZE == 0
      ensures ok <==> ofs / ENTRY_SIZE < SlotCnt(inode)
      ensures |entry.raw| == NAME_MAX + 1 && (ok ==> entry == Slots(dev.sectors, inode)[ofs / ENTRY_SIZE])
    {
      var e := new Byte[ENTRY_SIZE];
      var n := ReadAt(dev, inode, e, ENTRY_SIZE, ofs, true);
      ok, entry := n == ENTRY_SIZE, Decode(e[..]);
      if ok {
        SlotAt(dev.sectors, inode, ofs / ENTRY_SIZE);
        assert e[..] == FileBytes(dev.sectors, inode)[ofs..ofs + ENTRY_SIZE];
      }
    }

    /** lookup: the entry that holds NAME and its offset, if there is one. */
    method Lookup(name: Name) returns (found: bool, entry: Entry, ofs: nat)
      requires Valid()
      ensures found <==> name in names
      ensures found ==> ofs % ENTRY_SIZE == 0 && HasName(Slots(dev.sectors, inode), ofs / ENTRY_SIZE, name)
      ensures found ==> entry == Slots(dev.sectors, inode)[ofs / ENTRY_SIZE] && entry.sector == names[name]
    {
      hide Decode, FileBytes;
      ghost var slots := Slots(dev.sectors, inode);
      ofs := 0;
      var ok;
      ok, entry := ReadEntry(ofs);
      while ok
        invariant ofs % ENTRY_SIZE == 0 && ofs / ENTRY_SIZE <= |slots| && (ok <==> ofs / ENTRY_SIZE < |slots|)
        invariant ok ==> entry == slots[ofs / ENTRY_SIZE]
        invariant forall k :: 0 <= k < ofs / ENTRY_SIZE ==> !HasName(slots, k, name)
        decreases |slots| - ofs / ENTRY_SIZE
      {
        ghost var k := ofs / ENTRY_SIZE;
        assert SlotOk(slots[k]);
        if entry.inUse { MatchesName(entry.raw, name); }
        if entry.inUse && Matches(entry.raw, name) { return true, entry, ofs; }
        ofs := ofs + ENTRY_SIZE;
        ok, entry := ReadEntry(ofs);
      }
      found := false;
      if name in names { ghost var k := SlotOf(slots, names, name); }
    }

    /** The offset of the first free slot, or of the end of the last whole entry. */
    method FindFree() returns (ofs: nat, entry: Entry)
      requires Valid()
      ensures ofs % ENTRY_SIZE == 0 && ofs / ENTRY_SIZE <= SlotCnt(inode) && |entry.raw| == NAME_MAX + 1
      ensures var slots, k := Slots(dev.sectors, inode), ofs / ENTRY_SIZE;
        && (forall j :: 0 <= j < k ==> slots[j].inUse)
        && (k < |slots| ==> entry == slots[k] && !entry.inUse)
    {
      hide Decode, FileBytes, DirOk;
      ghost var slots := Slots(dev.sectors, inode);
      ofs := 0;
      var ok;
      ok, entry := ReadEntry(ofs);
      while ok
        invariant ofs % ENTRY_SIZE == 0 && ofs / ENTRY_SIZE <= |slots| && (ok <==> ofs / ENTRY_SIZE < |slots|)
        invariant |entry.raw| == NAME_MAX + 1 && (ok ==> entry == slots[ofs / ENTRY_SIZE])
        invariant forall j :: 0 <= j < ofs / ENTRY_SIZE ==> slots[j].inUse
        decreases |slots| - ofs / ENTRY_SIZE
      {
        if !entry.inUse { return; }
        ofs := ofs + ENTRY_SIZE;
        ok, entry := ReadEntry(ofs);
      }
    }

    /** inode_write_at of an entry: all of it in a slot, or not all of it behind the last one. */
    method WriteEntry(ofs: nat, entry: Entry, denied: bool) returns (ok: bool)
      requires Fits(dev.sectors, inode) && ofs % ENTRY_SIZE == 0 && ofs / ENTRY_SIZE <= SlotCnt(inode)
      requires |entry.raw| == NAME_MAX + 1 && entry.sector < 0x1_0000_0000
      modifies dev
      ensures Fits(dev.sectors, inode) && OthersKept(old(dev.sectors), dev.sectors, inode)
      ensures ok <==> !denied && ofs / ENTRY_SIZE < SlotCnt(inode)
      ensures Slots(dev.sectors, inode) ==
        if ok then Slots(old(dev.sectors), inode)[ofs / ENTRY_SIZE := entry] else Slots(old(dev.sectors), inode)
    {
      hide Overwritten, Decode, Encode, FileBytes, Slots;
      ghost var disk, k := dev.sectors, ofs / ENTRY_SIZE;
      var data := Encode(entry);
      var e := new Byte[ENTRY_SIZE](i requires 0 <= i < ENTRY_SIZE => data[i]);
      assert e[..] == data;
      var n := WriteAt(dev, inode, denied, e, ENTRY_SIZE, ofs, true);
      ok := n == ENTRY_SIZE;
      if n > 0 {
        OnlyThisFile(disk, dev.sectors, inode, ofs, e[..n]);
        if ok {
          assert e[..n] == data;
          SlotWritten(disk, dev.sectors, inode, k, data);
        } else {
          TailWritten(disk, dev.sectors, inode, e[..n]);
        }
      }
    }

    /** Adds NAME exactly when it is valid and new and there are fewer names than slots; the first slot that
        is free is used. */
    method Add(name: Name, sector: nat, denied: bool) returns (success: bool)
      requires Valid() && sector < 0x1_0000_0000
      modifies this`names, dev
      ensures Valid() && OthersKept(old(dev.sectors), dev.sectors, inode)
      ensures success <==> 1 <= |name| <= 14 && name !in old(names) && !denied && |old(names)| < SlotCnt(inode)
      ensures names == if success then old(names)[name := sector] else old(names)
      ensures success ==> InFirstFree(Slots(old(dev.sectors), inode), Slots(dev.sectors, inode), name, sector)
      ensures !success ==> Slots(dev.sectors, inode) == Slots(old(dev.sectors), inode)
    {
      hide Decode, FileBytes, DirOk, Slots;
      if |name| == 0 || |name| > NAME_MAX { return false; }
      var found, _, _ := Lookup(name);
      if found { return false; }
      var ofs, e := FindFree();
      ghost var slots, k := Slots(dev.sectors, inode), ofs / ENTRY_SIZE;
      CopiedName(e.raw, name);
      e := Entry(sector, CopyName(e.raw, name), true);
      FreeOrFull(slots, k);
      FreeSlots(slots, names);
      success := WriteEntry(ofs, e, denied);
      if success {
        AddedOk(slots, names, k, name, e);
        assert HasName(slots[k := e], k, name);
        names := names[name := sector];
      }
    }

    /** Removes NAME, whose slot is free again; OPENS says whether inode_open of its inode succeeds. */
    method Remove(name: Name, opens: bool, denied: bool) returns (success: bool)
      requires Valid()
      modifies this`names, dev
      ensures Valid() && OthersKept(old(dev.sectors), dev.sectors, inode)
      ensures success <==> name in old(names) && opens && !denied
      ensures names == if success then old(names) - {name} else old(names)
      ensures success ==> SlotFreed(Slots(old(dev.sectors), inode), Slots(dev.sectors, inode), name)
      ensures success ==> |names| < SlotCnt(inode)
      ensures !success ==> Slots(dev.sectors, inode) == Slots(old(dev.sectors), inode)
    {
      hide Decode, FileBytes, DirOk, Slots;
      var found, e, ofs := Lookup(name);
      if !found || !opens { return false; }
      ghost var slots, k := Slots(dev.sectors, inode), ofs / ENTRY_SIZE;
      DecodedSector(dev.sectors, inode, k);
      success := WriteEntry(ofs, e.(inUse := false), denied);
      if success {
        RemovedOk(slots, names, k, name);
        RemoveMakesRoom(slots, names, name);
        names := names - {name};
      }
    }

    /** The next name in use from POS on; FOUND is false when there is none. */
    method ReadDir() returns (found: bool, name: Name)
      requires Valid()
      modifies this`pos
      ensures Valid() && pos >= old(pos)
      ensures var slots := Slots(dev.sectors, inode);
        if found then Listing(slots, old(pos) / ENTRY_SIZE) == [name] + Listing(slots, pos / ENTRY_SIZE)
        else Listing(slots, old(pos) / ENTRY_SIZE) == []
    {
      hide Decode, FileBytes, DirOk, Slots, Fits;
      ghost var slots, p0 := Slots(dev.sectors, inode), pos / ENTRY_SIZE;
      var ok, e := ReadEntry(pos);
      while ok
        invariant Valid() && pos >= old(pos) && (ok <==> pos / ENTRY_SIZE < |slots|) && (ok ==> e == slots[pos / ENTRY_SIZE])
        invariant Listing(slots, p0) == Listing(slots, pos / ENTRY_SIZE)
        decreases |slots| - pos / ENTRY_SIZE
      {
        pos := pos + ENTRY_SIZE;
        if e.inUse { return true, TextOf(e.raw); }
        ok, e := ReadEntry(pos);
      }
      return false, [];
    }
  }

  lemma DecodedSector(disk: seq<Sector>, e: Extent, k: nat)
    requires Fits(disk, e) && k < SlotCnt(e)
    ensures var s := Slots(disk, e)[k]; s.sector < 0x1_0000_0000 && |s.raw| == NAME_MAX + 1
  {
  }

  lemma FreeOrFull(slots: seq<Entry>, k: nat)
    requires k <= |slots| && (forall j :: 0 <= j < k ==> slots[j].inUse) && (k < |slots| ==> !slots[k].inUse)
    ensures HasFree(slots) <==> k < |slots|
  {
  }

  ghost predicate HasFree(slots: seq<Entry>) { exists k :: 0 <= k < |slots| && !slots[k].inUse }

  /** Every file on other sectors has the same contents in DISK' as in DISK. */
  ghost predicate OthersKept(disk: seq<Sector>, disk': seq<Sector>, e: Extent) {
    forall f :: Fits(disk, f) && Apart(e, f) ==> Fits(disk', f) && FileBytes(disk', f) == FileBytes(disk, f)
  }

  predicate Apart(e: Extent, f: Extent) {
    e.start + BytesToSectors(e.length) <= f.start || f.start + BytesToSectors(f.length) <= e.start
  }

  lemma OnlyThisFile(disk: seq<Sector>, disk': seq<Sector>, e: Extent, offset: nat, data: seq<Byte>)
    requires Fits(disk, e) && offset + |data| <= e.length && Overwritten(disk, disk', Address(e, offset), data)
    ensures OthersKept(disk, disk', e)
  {
    forall f | Fits(disk, f) && Apart(e, f) ensures Fits(disk', f) && FileBytes(disk', f) == FileBytes(disk, f) {
      OtherFileKept(disk, disk', e, offset, data, f);
    }
  }
}
