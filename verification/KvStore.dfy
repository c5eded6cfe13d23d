/** The on-disk store of kvstore/src/server/kvstore.c: one file per entry, named by the hash of
    the key and a position in that hash's chain.  The directory is a map from such names to
    file contents. */
module KvStore {
  import opened CStrings
  import opened Options

  const MAX_KEYLEN: nat := 1024
  const MAX_VALLEN: nat := 1024
  const ERRKEYLEN: int := -11
  const ERRVALLEN: int := -12
  const ERRNOKEY: int := -13
  const ERRFILACCESS: int := -17
  const TWO_64: int := 0x1_0000_0000_0000_0000

  /** The djb2 hash in unsigned 64-bit arithmetic; characters are signed. */
  function Djb2(s: seq<Char>): (h: int)
    ensures 0 <= h < TWO_64
  {
    if s == [] then 5381 else (Djb2(s[..|s| - 1]) * 33 + s[|s| - 1]) % TWO_64
  }

  /** The original computes the factor 33 as a shift by five and an addition. */
  lemma ShiftAndAdd(h: int, c: int)
    ensures ((h * 32) % TWO_64 + h + c) % TWO_64 == (h * 33 + c) % TWO_64
  {
    var q, x := h * 32 / TWO_64, (h * 32) % TWO_64 + h + c;
    assert h * 33 + c == x + TWO_64 * q;
    AddMultiple(x, q);
  }

  lemma AddMultiple(x: int, q: int)
    ensures (x + TWO_64 * q) % TWO_64 == x % TWO_64
  {
    var a, b := x / TWO_64, (x + TWO_64 * q) / TWO_64;
    assert x + TWO_64 * q == TWO_64 * (a + q) + x % TWO_64;
  }

  method Hash(str: CString) returns (hash: int)
    ensures hash == Djb2(str)
  {
    hash := 5381;
    var i := 0;
    while i < |str|
      invariant 0 <= i <= |str| && hash == Djb2(str[..i])
    {
      assert str[..i + 1][..i] == str[..i];
      ShiftAndAdd(hash, str[i]);
      hash := ((hash * 32) % TWO_64 + hash + str[i]) % TWO_64;
      i := i + 1;
    }
    assert str[..i] == str;
  }

  function Power33(n: nat): nat { if n == 0 then 1 else 33 * Power33(n - 1) }

  /** The characters of S as the digits of a number in base 33, the first the most significant. */
  function Base33(s: seq<Char>): int { if s == [] then 0 else s[0] * Power33(|s| - 1) + Base33(s[1..]) }

  lemma {:induction false} Base33Last(s: seq<Char>, c: Char)
    ensures Base33(s + [c]) == Base33(s) * 33 + c
  {
    if s == [] {
      assert Power33(0) == 1;
    } else {
      Base33Last(s[1..], c);
      assert (s + [c])[1..] == s[1..] + [c];
      Shifted(s[0], Power33(|s| - 1), Base33(s[1..]), c);
    }
  }

  lemma Shifted(d: int, p: int, b: int, c: int)
    ensures d * (33 * p) + (b * 33 + c) == (d * p + b) * 33 + c
  {
  }

  lemma Reduced(x: int, c: int)
    ensures (x % TWO_64 * 33 + c) % TWO_64 == (x * 33 + c) % TWO_64
  {
    var q := x / TWO_64;
    assert x * 33 + c == (x % TWO_64 * 33 + c) + TWO_64 * (q * 33);
    AddMultiple(x % TWO_64 * 33 + c, q * 33);
  }

  /** The hash is 5381 shifted left by the length of the string in base 33, plus the string, modulo 2 to the 64. */
  lemma {:induction false} HashIs(s: seq<Char>)
    ensures Djb2(s) == (5381 * Power33(|s|) + Base33(s)) % 0x1_0000_0000_0000_0000
  {
    if s != [] {
      var t, c := s[..|s| - 1], s[|s| - 1];
      HashIs(t);
      Base33Last(t, c);
      assert s == t + [c];
      Shifted(5381, Power33(|t|), Base33(t), c);
      Reduced(5381 * Power33(|t|) + Base33(t), c);
    }
  }

  /** A file: the length field, then key, NUL, value, NUL. */
  datatype Entry = Entry(length: int, data: seq<Char>)
  datatype Pair = Pair(key: CString, value: CString)

  function Encode(p: Pair): (e: Entry) {
    Entry(|p.key| + |p.value| + 2, Terminated(p.key) + Terminated(p.value))
  }

  /** Reading an entry back gives the pair that was written, and the length field is exact. */
  lemma EntryRoundTrip(p: Pair)
    ensures var e := Encode(p);
            && e.length == |e.data| == |p.key| + |p.value| + 2
            && StringAt(e.data) == p.key
            && StringAt(After(e.data)) == p.value
  {
    StringRoundTrip(p.key, Terminated(p.value));
    StringRoundTrip(p.value, []);
    assert Terminated(p.value) + [] == Terminated(p.value);
  }

  // ---------- hash chains

  type Chains = map<int, seq<Pair>>

  function Chain(chains: Chains, h: int): (c: seq<Pair>) { if h in chains then chains[h] else [] }

  /** Every key of a chain hashes to it, and no key occurs twice. */
  ghost predicate ChainOk(h: int, c: seq<Pair>) {
    && (forall p :: 0 <= p < |c| ==> Djb2(c[p].key) == h)
    && (forall p, q :: 0 <= p < q < |c| ==> c[p].key != c[q].key)
  }

  ghost predicate ChainsOk(chains: Chains) {
    forall h :: ChainOk(h, Chain(chains, h))
  }

  /** The chains hold exactly the pairs of M. */
  ghost predicate Represents(chains: Chains, m: map<CString, CString>) {
    forall p: Pair :: p in Chain(chains, Djb2(p.key)) <==> (p.key in m && m[p.key] == p.value)
  }

  /** The directory holds exactly the files of the chains: positions 0 .. n-1, no gap. */
  ghost predicate OnDisk(files: map<(int, nat), Entry>, chains: Chains) {
    && (forall h, p: nat :: (h, p) in files <==> p < |Chain(chains, h)|)
    && (forall h, p: nat :: p < |Chain(chains, h)| ==> files[(h, p)] == Encode(Chain(chains, h)[p]))
  }

  /** The position find_entry reports: the first entry with key K, or the end of the chain. */
  function Position(c: seq<Pair>, k: CString): (i: nat)
    ensures i <= |c| && (i < |c| ==> c[i].key == k)
    ensures forall j :: 0 <= j < i ==> c[j].key != k
  {
    if c == [] || c[0].key == k then 0 else 1 + Position(c[1..], k)
  }

  lemma PositionFrom(c: seq<Pair>, k: CString, i: nat)
    requires i <= Position(c, k) && i < |c|
    ensures if c[i].key == k then i == Position(c, k) else i + 1 <= Position(c, k)
  {
  }

  /** Overwrites the entry of the key, or appends one. */
  function ChainPut(c: seq<Pair>, p: Pair): (r: seq<Pair>) {
    var i := Position(c, p.key);
    if i < |c| then c[i := p] else c + [p]
  }

  /** Moves the last entry into the place of the deleted one. */
  function ChainDel(c: seq<Pair>, i: nat): (r: seq<Pair>)
    requires i < |c|
  {
    c[i := c[|c| - 1]][..|c| - 1]
  }

  lemma ChainPutOk(h: int, c: seq<Pair>, p: Pair)
    requires ChainOk(h, c) && Djb2(p.key) == h
    ensures ChainOk(h, ChainPut(c, p))
    ensures forall x: Pair :: x in ChainPut(c, p) <==> x == p || (x in c && x.key != p.key)
  {
    var i, d := Position(c, p.key), ChainPut(c, p);
    forall x: Pair ensures x in d <==> x == p || (x in c && x.key != p.key) {
      assert d[i] == p;
      if x in c && x.key != p.key {
        var j :| 0 <= j < |c| && c[j] == x;
        assert d[j] == x;
      }
    }
  }

  /** Deleting by moving the last entry removes exactly one key and loses no other. */
  lemma ChainDelOk(h: int, c: seq<Pair>, i: nat)
    requires ChainOk(h, c) && i < |c|
    ensures ChainOk(h, ChainDel(c, i))
    ensures forall x: Pair :: x in ChainDel(c, i) <==> x in c && x.key != c[i].key
  {
    var d := ChainDel(c, i);
    forall x: Pair ensures x in d <==> x in c && x.key != c[i].key {
      if x in c && x.key != c[i].key {
        var j :| 0 <= j < |c| && c[j] == x;
        assert d[if j < |d| then j else i] == x;
      }
    }
  }

  /** Directory, chains and contents agree. */
  ghost predicate Agrees(files: map<(int, nat), Entry>, chains: Chains, m: map<CString, CString>) {
    ChainsOk(chains) && Represents(chains, m) && OnDisk(files, chains)
  }

  lemma ReplaceChain(chains: Chains, m: map<CString, CString>, h: int, c: seq<Pair>, m': map<CString, CString>)
    requires ChainsOk(chains) && Represents(chains, m) && ChainOk(h, c)
    requires forall x: Pair | Djb2(x.key) == h :: x in c <==> (x.key in m' && m'[x.key] == x.value)
    requires forall k: CString | Djb2(k) != h :: (k in m <==> k in m') && (k in m ==> m[k] == m'[k])
    ensures ChainsOk(chains[h := c]) && Represents(chains[h := c], m')
  {
    var chains' := chains[h := c];
    forall g ensures ChainOk(g, Chain(chains', g)) {
      assert ChainOk(g, Chain(chains, g));
    }
    forall x: Pair
      ensures x in Chain(chains', Djb2(x.key)) <==> (x.key in m' && m'[x.key] == x.value)
    {
      assert x in Chain(chains, Djb2(x.key)) <==> (x.key in m && m[x.key] == x.value);
    }
  }

  lemma PutAgrees(files: map<(int, nat), Entry>, chains: Chains, m: map<CString, CString>, p: Pair, h: int, i: nat)
    requires Agrees(files, chains, m) && h == Djb2(p.key) && i == Position(Chain(chains, h), p.key)
    ensures Agrees(files[(h, i) := Encode(p)], chains[h := ChainPut(Chain(chains, h), p)], m[p.key := p.value])
  {
    var c := Chain(chains, h);
    assert ChainOk(h, c);
    ChainPutOk(h, c, p);
    var m' := m[p.key := p.value];
    forall x: Pair | Djb2(x.key) == h
      ensures x in ChainPut(c, p) <==> (x.key in m' && m'[x.key] == x.value)
    {
      assert x in Chain(chains, Djb2(x.key)) <==> (x.key in m && m[x.key] == x.value);
    }
    ReplaceChain(chains, m, h, ChainPut(c, p), m');
    OnDiskPut(files, chains, p, h, i);
  }

  lemma OnDiskPut(files: map<(int, nat), Entry>, chains: Chains, p: Pair, h: int, i: nat)
    requires OnDisk(files, chains) && i == Position(Chain(chains, h), p.key)
    ensures OnDisk(files[(h, i) := Encode(p)], chains[h := ChainPut(Chain(chains, h), p)])
  {
    hide Encode, ChainPut, Position;
    var c, r := Chain(chains, h), ChainPut(Chain(chains, h), p);
    PutInChain(c, p, i);
    var files', chains' := files[(h, i) := Encode(p)], chains[h := r];
    forall g, q: nat ensures (g, q) in files' <==> q < |Chain(chains', g)| {
      assert (g, q) in files <==> q < |Chain(chains, g)|;
    }
  }

  lemma PutInChain(c: seq<Pair>, p: Pair, i: nat)
    requires i == Position(c, p.key)
    ensures var r := ChainPut(c, p);
      && i <= |c| && i < |r| && r[i] == p && |r| == (if i < |c| then |c| else |c| + 1)
      && forall q :: 0 <= q < |c| && q != i ==> r[q] == c[q]
  {
  }

  lemma DelAgrees(files: map<(int, nat), Entry>, chains: Chains, m: map<CString, CString>, key: CString, h: int, i: nat, last: nat)
    requires Agrees(files, chains, m) && h == Djb2(key)
    requires i <= last && last + 1 == |Chain(chains, h)| && Chain(chains, h)[i].key == key
    ensures (h, last) in files
    ensures Agrees(files[(h, i) := files[(h, last)]] - {(h, last)}, chains[h := ChainDel(Chain(chains, h), i)], m - {key})
  {
    var c := Chain(chains, h);
    assert ChainOk(h, c);
    ChainDelOk(h, c, i);
    var m' := m - {key};
    forall x: Pair | Djb2(x.key) == h
      ensures x in ChainDel(c, i) <==> (x.key in m' && m'[x.key] == x.value)
    {
      assert x in Chain(chains, Djb2(x.key)) <==> (x.key in m && m[x.key] == x.value);
    }
    ReplaceChain(chains, m, h, ChainDel(c, i), m');
    OnDiskDel(files, chains, h, i, last);
  }

  lemma OnDiskDel(files: map<(int, nat), Entry>, chains: Chains, h: int, i: nat, last: nat)
    requires OnDisk(files, chains) && i <= last && last + 1 == |Chain(chains, h)|
    ensures (h, last) in files
    ensures OnDisk(files[(h, i) := files[(h, last)]] - {(h, last)}, chains[h := ChainDel(Chain(chains, h), i)])
  {
    assert (h, last) in files;
    var files' := files[(h, i) := files[(h, last)]] - {(h, last)};
    var chains' := chains[h := ChainDel(Chain(chains, h), i)];
    forall g, q: nat ensures (g, q) in files' <==> q < |Chain(chains', g)| {
      assert (g, q) in files <==> q < |Chain(chains, g)|;
    }
  }

  lemma RenameToSelf(files: map<(int, nat), Entry>, f: (int, nat))
    requires f in files
    ensures files[f := files[f]] - {f} == files - {f}
  {
  }

  /** Where a key is found is determined by the contents. */
  lemma PositionOfKey(chains: Chains, m: map<CString, CString>, key: CString)
    requires ChainsOk(chains) && Represents(chains, m)
    ensures var c := Chain(chains, Djb2(key)); var i := Position(c, key);
            if key in m then i < |c| && c[i] == Pair(key, m[key]) else i == |c|
  {
    var c := Chain(chains, Djb2(key));
    var i := Position(c, key);
    if key in m {
      assert Pair(key, m[key]) in c;
      assert ChainOk(Djb2(key), c);
    }
    if i < |c| {
      assert c[i] in c && Djb2(c[i].key) == Djb2(key);
    }
  }

  class Store {
    var dirExists: bool
    var files: map<(int, nat), Entry>

    ghost var chains: Chains
    ghost var contents: map<CString, CString>

    ghost predicate Valid()
      reads this
    {
      Agrees(files, chains, contents)
      && (!dirExists ==> contents == map[])
    }

    constructor ()
      ensures Valid() && dirExists && contents == map[]
    {
      dirExists, files, chains, contents := true, map[], map[], map[];
    }

    /** kvstore_init on a directory that an earlier store left: its entries are all there. */
    constructor Reopen(left: map<(int, nat), Entry>, ghost c: Chains, ghost m: map<CString, CString>)
      requires Agrees(left, c, m)
      ensures Valid() && dirExists && files == left && contents == m
    {
      dirExists, files, chains, contents := true, left, c, m;
    }

    /** Walks the chain of KEY.  Returns the position of its entry and the value found there, or
        an error code. */
    method FindEntry(key: CString) returns (pos: int, value: Option<CString>)
      requires Valid()
      ensures |key| > MAX_KEYLEN ==> pos == ERRKEYLEN
      ensures |key| <= MAX_KEYLEN && !dirExists ==> pos == ERRFILACCESS
      ensures |key| <= MAX_KEYLEN && dirExists && key !in contents ==> pos == ERRNOKEY
      ensures |key| <= MAX_KEYLEN && dirExists && key in contents ==>
                pos == Position(Chain(chains, Djb2(key)), key) && value == Some(contents[key])
      ensures pos < 0 ==> value == None
    {
      value := None;
      if |key| > MAX_KEYLEN {
        return ERRKEYLEN, None;
      }
      if !dirExists {
        return ERRFILACCESS, None;
      }
      var hashval := Hash(key);
      ghost var c := Chain(chains, hashval);
      PositionOfKey(chains, contents, key);
      var counter: nat := 0;
      while (hashval, counter) in files
        invariant counter <= Position(c, key)
        decreases |c| - counter
      {
        var entry := files[(hashval, counter)];
        EntryRoundTrip(c[counter]);
        PositionFrom(c, key, counter);
        if key == StringAt(entry.data) {
          return counter, Some(StringAt(After(entry.data)));
        }
        counter := counter + 1;
      }
      return ERRNOKEY, None;
    }

    method Get(key: CString) returns (err: int, value: Option<CString>)
      requires Valid()
      ensures |key| > MAX_KEYLEN ==> err == ERRKEYLEN
      ensures |key| <= MAX_KEYLEN && !dirExists ==> err == ERRFILACCESS
      ensures |key| <= MAX_KEYLEN && dirExists ==>
                err == (if key in contents then 0 else ERRNOKEY)
      ensures err == 0 ==> key in contents
      ensures value == if err == 0 then Some(contents[key]) else None
    {
      var pos;
      pos, value := FindEntry(key);
      err := if pos < 0 then pos else 0;
    }

    function PutCheck(key: CString, value: CString): (err: int)
      reads this
    {
      if |key| > MAX_KEYLEN then ERRKEYLEN
      else if |value| > MAX_VALLEN then ERRVALLEN
      else if !dirExists then ERRFILACCESS
      else 0
    }

    /** The first position of the chain HASHVAL, from FROM on, that holds no file. */
    method EndOfChain(hashval: int, from: nat) returns (end: nat)
      requires Valid() && from <= |Chain(chains, hashval)|
      ensures end == |Chain(chains, hashval)|
    {
      end := from;
      while (hashval, end) in files
        invariant end <= |Chain(chains, hashval)|
        decreases |Chain(chains, hashval)| - end
      {
        end := end + 1;
      }
    }

    method Put(key: CString, value: CString) returns (err: int)
      requires Valid()
      modifies this
      ensures Valid() && dirExists == old(dirExists)
      ensures err == if |key| > 1024 then -11 else if |value| > 1024 then -12 else if !old(dirExists) then -17 else 0
      ensures contents == if err == 0 then old(contents)[key := value] else old(contents)
      ensures err != 0 ==> files == old(files)
      ensures err == 0 ==> exists i: nat :: files == old(files)[(Djb2(key), i) := Encode(Pair(key, value))]
    {
      err := PutCheck(key, value);
      if err < 0 {
        return;
      }
      var hashval := Hash(key);
      var counter, _ := FindEntry(key);
      ghost var c := Chain(chains, hashval);
      var p := Pair(key, value);
      PositionOfKey(chains, contents, key);
      if counter < 0 {
        counter := EndOfChain(hashval, 0);
      }
      PutAgrees(files, chains, contents, p, hashval, counter);
      files := files[(hashval, counter) := Encode(p)];
      chains, contents := chains[hashval := ChainPut(c, p)], contents[key := value];
    }

    method Del(key: CString) returns (err: int)
      requires Valid()
      modifies this
      ensures Valid() && dirExists == old(dirExists)
      ensures |key| > MAX_KEYLEN ==> err == ERRKEYLEN
      ensures |key| <= MAX_KEYLEN && !dirExists ==> err == ERRFILACCESS
      ensures |key| <= MAX_KEYLEN && dirExists ==>
                err == (if key in old(contents) then 0 else ERRNOKEY)
      ensures contents == if err == 0 then old(contents) - {key} else old(contents)
    {
      var chainpos, _ := FindEntry(key);
      if chainpos < 0 {
        return chainpos;
      }
      PositionOfKey(chains, contents, key);
      var hashval := Hash(key);
      DeleteAt(key, hashval, chainpos);
      err := 0;
    }

    /** Removes the file at CHAINPOS, filling the gap with the last file of the chain. */
    method DeleteAt(key: CString, hashval: int, chainpos: nat)
      requires Valid() && hashval == Djb2(key)
      requires chainpos < |Chain(chains, hashval)| && Chain(chains, hashval)[chainpos].key == key
      modifies this`files, this`chains, this`contents
      ensures Valid() && contents == old(contents) - {key}
    {
      var counter := EndOfChain(hashval, chainpos + 1);
      var last := counter - 1;
      DelAgrees(files, chains, contents, key, hashval, chainpos, last);
      chains := chains[hashval := ChainDel(Chain(chains, hashval), chainpos)];
      contents := contents - {key};
      if counter == chainpos + 1 {
        RenameToSelf(files, (hashval, chainpos));
        files := files - {(hashval, chainpos)};
      } else {
        files := files[(hashval, chainpos) := files[(hashval, last)]] - {(hashval, last)};
      }
    }

    /** Removes every entry and the directory. */
    method Clean()
      requires Valid()
      modifies this
      ensures Valid() && !dirExists && contents == map[]
    {
      while files != map[]
        decreases |files|
      {
        var f :| f in files;
        assert files.Keys == (files - {f}).Keys + {f};
        files := files - {f};
      }
      dirExists, chains, contents := false, map[], map[];
    }
  }
}
