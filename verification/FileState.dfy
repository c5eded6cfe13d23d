/** Which sectors belong to which file over the life of a file system (pintos/src/filesys: inode.c,
    file.c, free-map.c, filesys.c), and what each step of create, open, close and remove keeps. */
module FileState {
  import opened Bitmap
  import opened Seqs
  import opened InodeIO
  import opened Directory

  const FREE_MAP_SECTOR: nat := 0
  const ROOT_DIR_SECTOR: nat := 1

  /** An open inode. */
  datatype Inode = Inode(data: Extent, openCnt: nat, denyCnt: nat, removed: bool)

  /** An open file: its inode, by sector, and whether it denies writes. */
  datatype Handle = Handle(sector: nat, deny: bool)

  /** USED: the free map.  HEADERS: the inodes on the device, by sector.  OPEN: the list of open inodes,
      by sector.  NAMES: the root directory.  FILES: the open files. */
  datatype State = State(used: seq<bool>, headers: map<nat, Extent>, open: map<nat, Inode>,
                         names: map<Name, nat>, files: map<nat, Handle>)

  /** Sectors that hold data of a file. */
  ghost function DataSectors(e: Extent): set<nat> { Interval(e.start, BytesToSectors(e.length)) }

  predicate Permanent(h: nat) { h == FREE_MAP_SECTOR || h == ROOT_DIR_SECTOR }

  /** The inode at H is named by the directory, open, or one of the two that always exist. */
  ghost predicate Live(s: State, h: nat) { Permanent(h) || h in s.names.Values || h in s.open }

  ghost function Owned(s: State, h: nat): set<nat>
    requires h in s.headers
  {
    {h} + DataSectors(s.headers[h])
  }

  ghost predicate InUse(used: seq<bool>, xs: set<nat>) { forall x :: x in xs ==> x < |used| && used[x] }

  ghost predicate OwnerOk(s: State, h: nat) {
    && h in s.headers && InUse(s.used, Owned(s, h)) && h !in DataSectors(s.headers[h])
    && s.headers[h].start + BytesToSectors(s.headers[h].length) <= |s.used|
  }

  ghost predicate SectorsOk(s: State) {
    && (forall h :: Live(s, h) ==> OwnerOk(s, h))
    && (forall g, h :: Live(s, g) && Live(s, h) && g != h ==> Owned(s, g) !! Owned(s, h))
  }

  ghost function On(files: map<nat, Handle>, h: nat): set<nat> { set f | f in files && files[f].sector == h }

  ghost function Denying(files: map<nat, Handle>, h: nat): set<nat> { set f | f in files && files[f] == Handle(h, true) }

  /** An open inode is as on the device, counts its openers and deniers, and is marked removed exactly
      when no name leads to it. */
  ghost predicate OpenOk(s: State, h: nat)
    requires h in s.open && h in s.headers
  {
    var i := s.open[h];
    && i.data == s.headers[h] && i.openCnt == |On(s.files, h)| > 0 && i.denyCnt == |Denying(s.files, h)|
    && (i.removed <==> !Permanent(h) && h !in s.names.Values)
  }

  ghost predicate NamesOk(s: State) {
    && (forall m, n :: m in s.names && n in s.names && m != n ==> s.names[m] != s.names[n])
    && (forall n :: n in s.names ==> !Permanent(s.names[n]))
  }

  ghost predicate Inv(s: State) {
    && SectorsOk(s) && NamesOk(s)
    && (forall h :: h in s.open ==> h in s.headers && OpenOk(s, h))
    && (forall f :: f in s.files ==> s.files[f].sector in s.open)
  }

  // ---------- sectors

  /** Nobody owns a sector of XS. */
  ghost predicate Unowned(s: State, xs: set<nat>) {
    forall h :: Live(s, h) ==> h in s.headers && Owned(s, h) !! xs
  }

  /** Free sectors are nobody's. */
  lemma FreeIsUnowned(s: State, a: nat, n: nat)
    requires SectorsOk(s) && Group(s.used, a, n, false)
    ensures Unowned(s, Interval(a, n))
  {
    forall h | Live(s, h) ensures h in s.headers && Owned(s, h) !! Interval(a, n) {
      assert OwnerOk(s, h);
    }
  }

  /** Changing bits nobody owns, or marking more in use, harms nobody. */
  lemma BitsInv(s: State, a: nat, n: nat, v: bool)
    requires Inv(s) && a + n <= |s.used| && (v || Unowned(s, Interval(a, n)))
    ensures Inv(s.(used := Filled(s.used, a, n, v)))
  {
    var t := s.(used := Filled(s.used, a, n, v));
    forall h | Live(t, h) ensures OwnerOk(t, h) {
      assert Live(s, h) && OwnerOk(s, h);
    }
    forall g, h | Live(t, g) && Live(t, h) && g != h ensures Owned(t, g) !! Owned(t, h) {
      assert Live(s, g) && Live(s, h);
    }
    forall h | h in t.open ensures OpenOk(t, h) { assert OpenOk(s, h); }
  }

  /** Writing sectors nobody owns: a header, or zeros over what was there. */
  lemma HeadersInv(s: State, t: State, xs: set<nat>)
    requires Inv(s) && t == s.(headers := t.headers) && Unowned(s, xs)
    requires forall h :: h in s.headers && h !in xs ==> h in t.headers && t.headers[h] == s.headers[h]
    ensures Inv(t)
  {
    forall h | Live(s, h) ensures h in t.headers && t.headers[h] == s.headers[h] {
      assert OwnerOk(s, h) && h in Owned(s, h);
    }
    LiveHeadersInv(s, t);
  }

  /** Whatever is written elsewhere, the headers of live inodes are all that counts. */
  lemma LiveHeadersInv(s: State, t: State)
    requires Inv(s) && t == s.(headers := t.headers)
    requires forall h :: Live(s, h) ==> h in s.headers && h in t.headers && t.headers[h] == s.headers[h]
    ensures Inv(t)
  {
    forall h | Live(t, h) ensures OwnerOk(t, h) { assert Live(s, h) && OwnerOk(s, h); }
    forall g, h | Live(t, g) && Live(t, h) && g != h ensures Owned(t, g) !! Owned(t, h) {
      assert Live(s, g) && Live(s, h);
    }
    forall h | h in t.open ensures OpenOk(t, h) { assert OpenOk(s, h) && Live(s, h); }
  }

  /** dir_add of a new inode. */
  lemma NameInv(s: State, name: Name, h: nat)
    requires Inv(s) && name !in s.names && !Live(s, h) && OwnerOk(s, h) && Unowned(s, Owned(s, h))
    ensures Inv(s.(names := s.names[name := h]))
  {
    hide SectorsOk, OwnerOk, OpenOk, Unowned, Owned;
    var t := s.(names := s.names[name := h]);
    NameSectors(s, t, name, h);
    NameDistinct(s, t, name, h);
    forall x | x in t.open ensures x in t.headers && OpenOk(t, x) { NameOpen(s, t, name, h, x); }
  }

  lemma NameSectors(s: State, t: State, name: Name, h: nat)
    requires SectorsOk(s) && name !in s.names && OwnerOk(s, h) && Unowned(s, Owned(s, h))
    requires t == s.(names := s.names[name := h])
    ensures SectorsOk(t)
  {
    forall x | Live(t, x) ensures x == h || Live(s, x) { if x != h { NewValue(s.names, name, h, x); } }
    forall x | Live(t, x) ensures OwnerOk(t, x) { if x != h { assert OwnerOk(s, x); } }
    forall g, x | Live(t, g) && Live(t, x) && g != x ensures Owned(t, g) !! Owned(t, x) {}
  }

  lemma NameDistinct(s: State, t: State, name: Name, h: nat)
    requires NamesOk(s) && name !in s.names && !Live(s, h) && t == s.(names := s.names[name := h])
    ensures NamesOk(t)
  {
    forall m, n | m in t.names && n in t.names && m != n ensures t.names[m] != t.names[n] {
      assert m != name ==> s.names[m] in s.names.Values;
      assert n != name ==> s.names[n] in s.names.Values;
    }
  }

  lemma NameOpen(s: State, t: State, name: Name, h: nat, x: nat)
    requires x in s.open && x in s.headers && OpenOk(s, x) && name !in s.names && !Live(s, h)
    requires t == s.(names := s.names[name := h])
    ensures x in t.headers && OpenOk(t, x)
  {
    hide On, Denying;
    NewValue(s.names, name, h, x);
  }

  lemma NewValue(names: map<Name, nat>, name: Name, h: nat, x: nat)
    requires name !in names && x != h
    ensures x in names[name := h].Values <==> x in names.Values
  {
    var m := names[name := h];
    if x in m.Values { var n :| n in m && m[n] == x; assert names[n] == x; }
    if x in names.Values { var n :| n in names && names[n] == x; assert m[n] == x; }
  }

  // ---------- opening and closing

  /** S and T differ in the open inode H, its opener F, and counts. */
  ghost predicate SameElsewhere(s: State, t: State, h: nat, f: nat) {
    && t.used == s.used && t.headers == s.headers && t.names == s.names
    && (forall g :: g != h ==> (g in t.open <==> g in s.open) && (g in s.open ==> t.open[g] == s.open[g]))
    && (forall k :: k != f ==> (k in t.files <==> k in s.files) && (k in s.files ==> t.files[k] == s.files[k]))
    && (f in s.files ==> s.files[f].sector == h) && (f in t.files ==> t.files[f].sector == h)
  }

  lemma OthersOpenOk(s: State, t: State, h: nat, f: nat)
    requires Inv(s) && SameElsewhere(s, t, h, f)
    ensures forall g :: g in t.open && g != h ==> g in t.headers && OpenOk(t, g)
  {
    hide OpenOk, SectorsOk, NamesOk;
    forall g | g in t.open && g != h ensures g in t.headers && OpenOk(t, g) { OtherOpenOk(s, t, h, f, g); }
  }

  lemma OtherOpenOk(s: State, t: State, h: nat, f: nat, g: nat)
    requires SameElsewhere(s, t, h, f) && g != h && g in s.open && g in s.headers && OpenOk(s, g)
    ensures g in t.open && g in t.headers && OpenOk(t, g)
  {
    assert On(t.files, g) == On(s.files, g) && Denying(t.files, g) == Denying(s.files, g);
  }

  /** No sector changes hands when the live inodes are the same, or fewer. */
  lemma SectorsKept(s: State, t: State)
    requires SectorsOk(s) && t.used == s.used && t.headers == s.headers && forall g :: Live(t, g) ==> Live(s, g)
    ensures SectorsOk(t)
  {
    forall h | Live(t, h) ensures OwnerOk(t, h) { assert OwnerOk(s, h); }
    forall g, h | Live(t, g) && Live(t, h) && g != h ensures Owned(t, g) !! Owned(t, h) {
      assert Live(s, g) && Live(s, h);
    }
  }

  /** inode_open (or reopen) of H for the new file F. */
  function OpenStep(s: State, f: nat, h: nat): (t: State) {
    if h in s.open then
      s.(open := s.open[h := s.open[h].(openCnt := s.open[h].openCnt + 1)], files := s.files[f := Handle(h, false)])
    else if h in s.headers then
      s.(open := s.open[h := Inode(s.headers[h], 1, 0, false)], files := s.files[f := Handle(h, false)])
    else
      s
  }

  lemma OpenInv(s: State, f: nat, h: nat)
    requires Inv(s) && Live(s, h) && f !in s.files
    ensures h in s.headers && Inv(OpenStep(s, f, h))
  {
    assert OwnerOk(s, h);
    var t := OpenStep(s, f, h);
    assert SameElsewhere(s, t, h, f);
    OthersOpenOk(s, t, h, f);
    SectorsKept(s, t);
    OpenHere(s, f, h);
  }

  lemma OpenHere(s: State, f: nat, h: nat)
    requires Inv(s) && Live(s, h) && f !in s.files && h in s.headers
    ensures OpenOk(OpenStep(s, f, h), h)
  {
    OpenerAdded(s.files, f, h);
    if h in s.open {
      assert OpenOk(s, h);
    } else {
      assert On(s.files, h) == {} && Denying(s.files, h) == {};
    }
    hide On, Denying;
  }

  lemma OpenerAdded(files: map<nat, Handle>, f: nat, h: nat)
    requires f !in files
    ensures |On(files[f := Handle(h, false)], h)| == |On(files, h)| + 1
    ensures Denying(files[f := Handle(h, false)], h) == Denying(files, h)
  {
    assert On(files[f := Handle(h, false)], h) == On(files, h) + {f};
  }

  lemma OpenerGone(files: map<nat, Handle>, f: nat)
    requires f in files
    ensures var h := files[f].sector;
      && |On(files - {f}, h)| == |On(files, h)| - 1
      && |Denying(files - {f}, h)| == |Denying(files, h)| - (if files[f].deny then 1 else 0)
      && (|On(files, h)| == 1 ==> On(files - {f}, h) == {})
  {
    var h := files[f].sector;
    assert f in On(files, h) && On(files - {f}, h) == On(files, h) - {f};
    assert Denying(files - {f}, h) == Denying(files, h) - {f};
    assert f in Denying(files, h) <==> files[f].deny;
  }

  lemma OpenerDenies(files: map<nat, Handle>, f: nat, deny: bool)
    requires f in files && files[f].deny != deny
    ensures var h := files[f].sector;
      && On(files[f := Handle(h, deny)], h) == On(files, h)
      && |Denying(files[f := Handle(h, deny)], h)| == |Denying(files, h)| + (if deny then 1 else -1)
  {
    var h := files[f].sector;
    var g := files[f := Handle(h, deny)];
    assert f in Denying(files, h) <==> files[f].deny;
    assert Denying(g, h) == if deny then Denying(files, h) + {f} else Denying(files, h) - {f};
  }

  /** file_close of F up to the release of sectors. */
  function CloseStep(s: State, f: nat): (t: State) {
    if f !in s.files || s.files[f].sector !in s.open then s
    else
      var h := s.files[f].sector;
      var i := s.open[h];
      if i.openCnt <= 1 then s.(open := s.open - {h}, files := s.files - {f})
      else s.(open := s.open[h := OneLess(i, s.files[f].deny)], files := s.files - {f})
  }

  function OneLess(i: Inode, deny: bool): Inode
    requires i.openCnt > 0
  {
    i.(openCnt := i.openCnt - 1, denyCnt := if deny && i.denyCnt > 0 then i.denyCnt - 1 else i.denyCnt)
  }

  /** The counts cannot go below zero. */
  lemma Counted(s: State, f: nat)
    requires Inv(s) && f in s.files
    ensures var h := s.files[f].sector;
      h in s.open && h in s.headers && OpenOk(s, h) && s.open[h].openCnt > 0 && (s.files[f].deny ==> s.open[h].denyCnt > 0)
      && s.open[h].denyCnt <= s.open[h].openCnt && (!s.files[f].deny ==> s.open[h].denyCnt < s.open[h].openCnt)
  {
    var h := s.files[f].sector;
    assert OpenOk(s, h);
    var on, denying := On(s.files, h), Denying(s.files, h);
    assert f in on && (s.files[f].deny ==> f in denying) && denying <= on;
    SubsetSize(denying, on);
    if !s.files[f].deny {
      assert denying <= on - {f};
      SubsetSize(denying, on - {f});
    }
  }

  lemma CloseInv(s: State, f: nat)
    requires Inv(s) && f in s.files
    ensures Inv(CloseStep(s, f))
  {
    Counted(s, f);
    var h, t := s.files[f].sector, CloseStep(s, f);
    assert SameElsewhere(s, t, h, f);
    OthersOpenOk(s, t, h, f);
    SectorsKept(s, t);
    CloseHere(s, f);
  }

  lemma CloseHere(s: State, f: nat)
    requires Inv(s) && f in s.files
    requires var h := s.files[f].sector; h in s.open && s.open[h].openCnt > 0 && (s.files[f].deny ==> s.open[h].denyCnt > 0)
    ensures var h, t := s.files[f].sector, CloseStep(s, f); if h in t.open then OpenOk(t, h) else On(t.files, h) == {}
  {
    var h, t := s.files[f].sector, CloseStep(s, f);
    assert OpenOk(s, h);
    OpenerGone(s.files, f);
    hide On, Denying;
  }

  /** Closing the last opener of a removed inode leaves its sectors, still in use, to nobody. */
  lemma LastClose(s: State, f: nat)
    requires Inv(s) && f in s.files
    requires var h := s.files[f].sector; h in s.open && s.open[h].openCnt == 1 && s.open[h].removed
    ensures var h, t := s.files[f].sector, CloseStep(s, f);
      && h in s.headers && s.open[h].data == s.headers[h] && h !in t.open
      && Unowned(t, Owned(s, h)) && OwnerOk(s, h) && OwnerOk(t, h)
  {
    var h, t := s.files[f].sector, CloseStep(s, f);
    assert Live(s, h) && OwnerOk(s, h) && OpenOk(s, h);
    forall g | Live(t, g) ensures g in t.headers && Owned(t, g) !! Owned(s, h) {
      assert Live(s, g) && g != h && OwnerOk(s, g);
    }
  }

  /** Closing undoes opening. */
  lemma OpenThenClose(s: State, f: nat, h: nat)
    requires Inv(s) && Live(s, h) && f !in s.files
    ensures CloseStep(OpenStep(s, f, h), f) == s
  {
    assert OwnerOk(s, h);
    if h in s.open { assert OpenOk(s, h); }
    hide OwnerOk, OpenOk, SectorsOk;
    OpenedClosed(s, f, h);
  }

  lemma OpenedClosed(s: State, f: nat, h: nat)
    requires h in s.headers && f !in s.files && (h in s.open ==> s.open[h].openCnt > 0)
    ensures CloseStep(OpenStep(s, f, h), f) == s
  {
    assert s.files[f := Handle(h, false)] - {f} == s.files;
    if h in s.open {
      assert OneLess(s.open[h].(openCnt := s.open[h].openCnt + 1), false) == s.open[h];
    } else {
      assert OpenStep(s, f, h).open - {h} == s.open;
    }
  }

  /** The last opener of a removed inode is about to close it. */
  predicate LastOfRemoved(s: State, f: nat) {
    && f in s.files && s.files[f].sector in s.open && s.files[f].sector in s.headers
    && s.open[s.files[f].sector].openCnt == 1 && s.open[s.files[f].sector].removed
  }

  /** V is U with exactly the bits of XS cleared. */
  ghost predicate Cleared(u: seq<bool>, v: seq<bool>, xs: set<nat>) {
    |v| == |u| && forall k :: 0 <= k < |u| ==> v[k] == (u[k] && k !in xs)
  }

  /** The free map after closing F: its inode's sectors are released on the last close of a removed
      inode, and never otherwise. */
  ghost predicate MapAfterClose(s: State, f: nat, u: seq<bool>) {
    if LastOfRemoved(s, f) then Cleared(s.used, u, Owned(s, s.files[f].sector)) else u == s.used
  }

  // ---------- removing, denying writes

  /** dir_remove of NAME, whose inode is open. */
  function RemoveStep(s: State, name: Name): (t: State) {
    if name !in s.names || s.names[name] !in s.open then s
    else
      var h := s.names[name];
      s.(names := s.names - {name}, open := s.open[h := s.open[h].(removed := true)])
  }

  lemma RemoveInv(s: State, name: Name)
    requires Inv(s) && name in s.names && s.names[name] in s.open
    ensures Inv(RemoveStep(s, name))
  {
    var h, t := s.names[name], RemoveStep(s, name);
    forall x ensures x in t.names.Values <==> x in s.names.Values && x != h {
      if x in t.names.Values { var n :| n in t.names && t.names[n] == x; assert s.names[n] == x; }
      if x in s.names.Values && x != h { var n :| n in s.names && s.names[n] == x; assert t.names[n] == x; }
    }
    SectorsKept(s, t);
    forall x | x in t.open ensures OpenOk(t, x) { assert OpenOk(s, x); }
  }

  /** file_deny_write and file_allow_write of F. */
  function DenyStep(s: State, f: nat, deny: bool): (t: State) {
    if f !in s.files || s.files[f].sector !in s.open || s.files[f].deny == deny then s
    else
      var h := s.files[f].sector;
      s.(files := s.files[f := Handle(h, deny)], open := s.open[h := Denied(s.open[h], deny)])
  }

  function Denied(i: Inode, deny: bool): Inode {
    i.(denyCnt := if deny then i.denyCnt + 1 else if i.denyCnt > 0 then i.denyCnt - 1 else 0)
  }

  /** What the assertions of inode_deny_write and inode_allow_write check. */
  predicate DenyWithin(s: State, f: nat) {
    f in s.files && s.files[f].sector in s.open && s.open[s.files[f].sector].denyCnt <= s.open[s.files[f].sector].openCnt
  }

  /** The deny count never exceeds the open count, nor falls below zero. */
  lemma DenyInv(s: State, f: nat, deny: bool)
    requires Inv(s) && f in s.files
    ensures s.files[f].sector in s.open && (s.files[f].deny ==> s.open[s.files[f].sector].denyCnt > 0)
    ensures Inv(DenyStep(s, f, deny)) && DenyWithin(DenyStep(s, f, deny), f)
  {
    Counted(s, f);
    var h, t := s.files[f].sector, DenyStep(s, f, deny);
    if s.files[f].deny != deny {
      assert SameElsewhere(s, t, h, f);
      OthersOpenOk(s, t, h, f);
      SectorsKept(s, t);
      DenyHere(s, f, deny);
    }
  }

  lemma DenyHere(s: State, f: nat, deny: bool)
    requires Inv(s) && f in s.files && s.files[f].sector in s.open && s.files[f].deny != deny
    requires s.files[f].deny ==> s.open[s.files[f].sector].denyCnt > 0
    ensures OpenOk(DenyStep(s, f, deny), s.files[f].sector)
  {
    assert OpenOk(s, s.files[f].sector);
    OpenerDenies(s.files, f, deny);
    hide On, Denying;
  }

  // ---------- what the steps do

  /** Opening adds a file that does not deny writes, and one opener of its inode. */
  lemma OpenOutcome(s: State, f: nat, h: nat)
    requires Inv(s) && Live(s, h) && f !in s.files
    ensures var t := OpenStep(s, f, h);
      && SameElsewhere(s, t, h, f) && t.files == s.files[f := Handle(h, false)] && h in t.open
      && (h in s.open ==> t.open[h] == s.open[h].(openCnt := s.open[h].openCnt + 1))
      && (h !in s.open ==> h in s.headers && t.open[h] == Inode(s.headers[h], 1, 0, false))
  {
    assert OwnerOk(s, h);
  }

  /** Closing removes the file and what it counted for; its inode stays open as long as another file is on it. */
  lemma CloseOutcome(s: State, f: nat)
    requires Inv(s) && f in s.files
    ensures var h, t := s.files[f].sector, CloseStep(s, f);
      && SameElsewhere(s, t, h, f) && t.files == s.files - {f} && h in s.open
      && (h in t.open <==> exists g :: g in s.files && g != f && s.files[g].sector == h)
      && (h in t.open ==> t.open[h].data == s.open[h].data && t.open[h].removed == s.open[h].removed)
      && (h in t.open ==> t.open[h].openCnt == s.open[h].openCnt - 1)
      && (h in t.open ==> t.open[h].denyCnt == s.open[h].denyCnt - if s.files[f].deny then 1 else 0)
  {
    Counted(s, f);
    OpenerGone(s.files, f);
    var h := s.files[f].sector;
    var rest := On(s.files - {f}, h);
    if rest != {} { var g :| g in rest; }
    if g :| g in s.files && g != f && s.files[g].sector == h { assert g in rest; }
  }

  /** Denying and allowing change the flag of the file and the count of its inode, and nothing else. */
  lemma DenyOutcome(s: State, f: nat, deny: bool)
    requires Inv(s) && f in s.files
    ensures var h, t := s.files[f].sector, DenyStep(s, f, deny);
      && SameElsewhere(s, t, h, f) && t.files == s.files[f := Handle(h, deny)] && h in s.open && h in t.open
      && t.open[h] == s.open[h].(denyCnt := t.open[h].denyCnt)
      && (t.open[h].denyCnt > 0 <==> exists g :: g in t.files && t.files[g] == Handle(h, true))
  {
    hide Inv, OpenOk;
    DenyInv(s, f, deny);
    Counted(s, f);
    var h, t := s.files[f].sector, DenyStep(s, f, deny);
    Counted(t, f);
    DenierCounted(t, h);
    DenyTables(s, f, deny);
  }

  lemma DenyTables(s: State, f: nat, deny: bool)
    requires f in s.files && s.files[f].sector in s.open
    ensures var h, t := s.files[f].sector, DenyStep(s, f, deny);
      && SameElsewhere(s, t, h, f) && t.files == s.files[f := Handle(h, deny)] && h in t.open
      && t.open[h] == s.open[h].(denyCnt := t.open[h].denyCnt)
  {
    assert s.files[f].deny == deny ==> s.files[f := Handle(s.files[f].sector, deny)] == s.files;
  }

  lemma DenierCounted(s: State, h: nat)
    requires h in s.open && h in s.headers && OpenOk(s, h)
    ensures s.open[h].denyCnt > 0 <==> exists g :: g in s.files && s.files[g] == Handle(h, true)
  {
    var d := Denying(s.files, h);
    if d != {} { var g :| g in d; }
    if g :| g in s.files && s.files[g] == Handle(h, true) { assert g in d; }
  }
}
