/** One set of the server's cache: kvstore/src/server/kvcacheset.c.  The replacement queue (utlist)
    is a sequence, the hash index (uthash) the set of keys it finds. */
module KvCacheSet {
  import opened CStrings
  import opened Options

  const ERRNOKEY: int := -13

  // ---------- the replacement queue as a value

  datatype Slot = Slot(key: CString, value: CString, refbit: bool)

  ghost predicate HasKey(s: seq<Slot>, key: CString) { exists i :: 0 <= i < |s| && s[i].key == key }

  ghost predicate DistinctKeys(s: seq<Slot>) {
    forall i, j :: 0 <= i < j < |s| ==> s[i].key != s[j].key
  }

  /** A hit sets the reference bit. */
  ghost function Touched(s: seq<Slot>, key: CString): (r: seq<Slot>) {
    seq(|s|, i requires 0 <= i < |s| => if s[i].key == key then s[i].(refbit := true) else s[i])
  }

  ghost function Assigned(s: seq<Slot>, key: CString, value: CString): (r: seq<Slot>) {
    seq(|s|, i requires 0 <= i < |s| => if s[i].key == key then Slot(key, value, true) else s[i])
  }

  ghost function Cleared(s: seq<Slot>): (r: seq<Slot>) {
    seq(|s|, i requires 0 <= i < |s| => s[i].(refbit := false))
  }

  /** The number of referenced entries at the front of the queue. */
  ghost function Referenced(s: seq<Slot>): (k: nat)
    ensures k <= |s| && (forall i :: 0 <= i < k ==> s[i].refbit) && (k < |s| ==> !s[k].refbit)
  {
    if s == [] || !s[0].refbit then 0 else 1 + Referenced(s[1..])
  }

  /** What one round of second-chance eviction leaves of the queue S: the first unreferenced
      entry goes, and those ahead of it move to the back with their bits cleared.  When all are
      referenced, the head has lost its bit by the time it is seen again and goes -- unless it is
      the only entry, which survives. */
  ghost function AfterEviction(s: seq<Slot>): (r: seq<Slot>) {
    var k := Referenced(s);
    if k < |s| then s[k + 1..] + Cleared(s[..k])
    else if |s| >= 2 then Cleared(s[1..])
    else Cleared(s)
  }

  /** The set is empty or holds one entry, which is referenced. */
  ghost predicate NothingToEvict(s: seq<Slot>) { s == [] || (|s| == 1 && s[0].refbit) }

  ghost function AfterPut(s: seq<Slot>, key: CString, value: CString, full: bool): (r: seq<Slot>) {
    if HasKey(s, key) then Assigned(s, key, value)
    else WithRoom(s, full) + [Slot(key, value, false)]
  }

  ghost function WithRoom(s: seq<Slot>, full: bool): (r: seq<Slot>) {
    if full then AfterEviction(s) else s
  }

  ghost function Without(s: seq<Slot>, key: CString): (r: seq<Slot>)
    ensures |r| <= |s|
  {
    if s == [] then []
    else (if s[0].key == key then [] else [s[0]]) + Without(s[1..], key)
  }

  /** What a lookup finds. */
  ghost function ValueOf(s: seq<Slot>, key: CString): (v: Option<CString>) {
    if s == [] then None
    else if s[0].key == key then Some(s[0].value)
    else ValueOf(s[1..], key)
  }

  lemma {:induction false} ValueAt(s: seq<Slot>, i: nat)
    requires i < |s| && DistinctKeys(s)
    ensures ValueOf(s, s[i].key) == Some(s[i].value)
  {
    if i > 0 { ValueAt(s[1..], i - 1); }
  }

  lemma {:induction false} ValueAbsent(s: seq<Slot>, key: CString)
    ensures HasKey(s, key) <==> ValueOf(s, key).Some?
  {
    if s != [] {
      ValueAbsent(s[1..], key);
      if HasKey(s, key) && s[0].key != key {
        var i :| 0 <= i < |s| && s[i].key == key;
        assert s[1..][i - 1].key == key;
      }
      if HasKey(s[1..], key) {
        var i :| 0 <= i < |s[1..]| && s[1..][i].key == key;
        assert s[i + 1].key == key;
      }
    }
  }

  lemma {:induction false} WithoutAt(s: seq<Slot>, i: nat)
    requires i < |s| && DistinctKeys(s)
    ensures Without(s, s[i].key) == s[..i] + s[i + 1..]
  {
    if i == 0 {
      WithoutAbsent(s[1..], s[0].key);
    } else {
      WithoutAt(s[1..], i - 1);
      assert s[..i] == [s[0]] + s[1..][..i - 1];
      assert s[1..][i..] == s[i + 1..];
    }
  }

  lemma {:induction false} WithoutAbsent(s: seq<Slot>, key: CString)
    requires !HasKey(s, key)
    ensures Without(s, key) == s
  {
    if s != [] {
      assert forall i :: 0 <= i < |s[1..]| ==> s[1..][i] == s[i + 1];
      WithoutAbsent(s[1..], key);
    }
  }

  /** The entry an eviction removes, if any. */
  ghost function Victim(s: seq<Slot>): (v: Option<Slot>) {
    var k := Referenced(s);
    if k < |s| then Some(s[k]) else if |s| >= 2 then Some(s[0]) else None
  }

  /** Lookups after an eviction: only the victim's key is gone, every other key keeps its value. */
  lemma EvictionRemovesVictim(s: seq<Slot>, key: CString)
    requires DistinctKeys(s)
    ensures DistinctKeys(AfterEviction(s))
    ensures ValueOf(AfterEviction(s), key) ==
            if Victim(s).Some? && Victim(s).value.key == key then None else ValueOf(s, key)
  {
    var k := Referenced(s);
    if k < |s| {
      assert s == s[..k] + ([s[k]] + s[k + 1..]);
      VictimInMiddle(s[..k], s[k], s[k + 1..], key);
    } else if |s| >= 2 {
      assert s == [] + ([s[0]] + s[1..]);
      assert Cleared(s[1..]) == Cleared(s[1..]) + Cleared([]);
      VictimInMiddle([], s[0], Cleared(s[1..]), key);
      ValueCleared(s[1..], key);
      assert ValueOf([s[0]] + Cleared(s[1..]), key) == ValueOf(s, key);
    } else {
      ValueCleared(s, key);
    }
  }

  lemma VictimInMiddle(a: seq<Slot>, v: Slot, b: seq<Slot>, key: CString)
    requires DistinctKeys(a + ([v] + b))
    ensures DistinctKeys(b + Cleared(a))
    ensures ValueOf(b + Cleared(a), key) == if v.key == key then None else ValueOf(a + ([v] + b), key)
  {
    var s := a + ([v] + b);
    assert forall i :: 0 <= i < |a| ==> s[i] == a[i];
    assert forall i :: 0 <= i < |b| ==> s[|a| + 1 + i] == b[i];
    assert s[|a|] == v;
    ValueConcat(a, [v] + b, key);
    ValueConcat(b, Cleared(a), key);
    ValueCleared(a, key);
    ValueAbsent(a, key);
    ValueAbsent(b, key);
  }

  lemma {:induction false} ValueConcat(a: seq<Slot>, b: seq<Slot>, key: CString)
    ensures ValueOf(a + b, key) == if ValueOf(a, key).Some? then ValueOf(a, key) else ValueOf(b, key)
  {
    if a == [] {
      assert a + b == b;
    } else {
      ValueConcat(a[1..], b, key);
      assert (a + b)[1..] == a[1..] + b;
    }
  }

  lemma {:induction false} ValueCleared(s: seq<Slot>, key: CString)
    ensures ValueOf(Cleared(s), key) == ValueOf(s, key)
  {
    if s != [] {
      ValueCleared(s[1..], key);
      assert Cleared(s)[1..] == Cleared(s[1..]);
    }
  }

  /** Every cached pair is a pair of M. */
  ghost predicate Coherent(s: seq<Slot>, m: map<CString, CString>) {
    forall i :: 0 <= i < |s| ==> s[i].key in m && m[s[i].key] == s[i].value
  }

  lemma CoherentLookup(s: seq<Slot>, m: map<CString, CString>, key: CString)
    requires Coherent(s, m) && ValueOf(s, key).Some?
    ensures key in m && ValueOf(s, key) == Some(m[key])
  {
    if s[0].key != key { CoherentLookup(s[1..], m, key); }
  }

  lemma CoherentPut(s: seq<Slot>, m: map<CString, CString>, key: CString, value: CString, full: bool)
    requires Coherent(s, m)
    ensures Coherent(AfterPut(s, key, value, full), m[key := value])
  {
    var t := AfterPut(s, key, value, full);
    if !HasKey(s, key) {
      assert forall i :: 0 <= i < |s| ==> s[i].key != key;
    }
  }

  lemma {:induction false} CoherentWithout(s: seq<Slot>, m: map<CString, CString>, key: CString)
    requires Coherent(s, m)
    ensures Coherent(Without(s, key), m - {key})
  {
    if s != [] {
      assert forall i :: 0 <= i < |s[1..]| ==> s[1..][i] == s[i + 1];
      CoherentWithout(s[1..], m, key);
    }
  }

  ghost function Keys(s: seq<Slot>): set<CString> { set i | 0 <= i < |s| :: s[i].key }

  lemma KeysOf(s: seq<Slot>, key: CString)
    ensures key in Keys(s) <==> HasKey(s, key)
    ensures key in Keys(s) <==> ValueOf(s, key).Some?
  {
    ValueAbsent(s, key);
  }

  class CacheSet {
    const elemPerSet: nat
    var numEntries: nat
    var entries: seq<Slot>
    var hash: set<CString>

    /** Queue and hash index hold the same keys, all distinct. */
    ghost predicate Consistent()
      reads this
    {
      DistinctKeys(entries) && hash == Keys(entries)
    }

    ghost predicate Valid()
      reads this
    {
      elemPerSet >= 2 && |entries| <= numEntries <= elemPerSet && Consistent()
    }

    constructor (elemPerSet: nat)
      requires elemPerSet >= 2
      ensures Valid() && this.elemPerSet == elemPerSet && entries == [] && numEntries == 0
    {
      this.elemPerSet := elemPerSet;
      numEntries, entries, hash := 0, [], {};
    }

    /** HASH_FIND_STR: the entry with this key, by its place in the queue. */
    method Find(key: CString) returns (i: nat)
      requires Consistent() && key in hash
      ensures i < |entries| && entries[i].key == key
    {
      i :| i < |entries| && entries[i].key == key;
    }

    method Get(key: CString) returns (err: int, value: Option<CString>)
      requires Valid()
      modifies this`entries
      ensures Valid() && entries == old(Touched(entries, key))
      ensures value == old(ValueOf(entries, key)) && err == (if value.Some? then 0 else ERRNOKEY)
    {
      KeysOf(entries, key);
      if key !in hash {
        assert Touched(entries, key) == entries;
        return ERRNOKEY, None;
      }
      var i := Find(key);
      ValueAt(entries, i);
      SameKeys(entries, Touched(entries, key));
      assert Touched(entries, key) == entries[i := entries[i].(refbit := true)];
      entries := entries[i := entries[i].(refbit := true)];
      err, value := 0, Some(entries[i].value);
    }

    /** The eviction loop.  As in DL_FOREACH_SAFE the successor is read before the entry is
        unlinked, so after a full turn the cursor meets the moved entries again; the entry under
        the cursor is always at the head of the queue. */
    method Evict()
      requires Consistent()
      modifies this`entries, this`hash
      ensures Consistent() && entries == old(AfterEviction(entries))
      ensures |entries| == |old(entries)| - if old(NothingToEvict(entries)) then 0 else 1
    {
      ghost var s0, n, r := entries, |entries|, 0;
      var atEntry := entries != [];
      assert s0[0..] + Cleared(s0[..0]) == s0;
      while atEntry
        invariant r <= n == |entries| && Consistent() && Rotated(s0, entries, r)
        invariant atEntry <==> !(n == 0 || (n == 1 && r == 1))
        decreases n - r
      {
        var elt, hasNext := entries[0], |entries| > 1;
        if !elt.refbit {
          RotatedEvict(s0, entries, r);
          KeysDrop(entries);
          entries, hash := entries[1..], hash - {elt.key};
          return;
        }
        ghost var r' := r + 1;
        RotatedStep(s0, entries, r, r');
        SameKeysRotated(entries);
        entries := entries[1..] + [elt.(refbit := false)];
        atEntry, r := hasNext, r';
      }
      RotatedSurvives(s0, entries, r);
    }

    method Put(key: CString, value: CString) returns (err: int)
      requires Valid()
      modifies this
      ensures Valid() && err == 0
      ensures entries == old(AfterPut(entries, key, value, numEntries == elemPerSet))
      ensures numEntries == old(if HasKey(entries, key) || numEntries == elemPerSet then numEntries else numEntries + 1)
    {
      KeysOf(entries, key);
      if key in hash {
        var i := Find(key);
        SameKeys(entries, Assigned(entries, key, value));
        assert Assigned(entries, key, value) == entries[i := Slot(key, value, true)];
        entries := entries[i := Slot(key, value, true)];
      } else {
        ghost var s0 := entries;
        if numEntries < elemPerSet {
          numEntries := numEntries + 1;
        } else {
          Evict();
          EvictionKeys(s0, key);
        }
        KeysAppend(entries, Slot(key, value, false));
        entries, hash := entries + [Slot(key, value, false)], hash + {key};
      }
      err := 0;
    }

    method Del(key: CString) returns (err: int)
      requires Valid()
      modifies this`entries, this`hash
      ensures Valid() && entries == old(Without(entries, key))
      ensures err == (if old(HasKey(entries, key)) then 0 else ERRNOKEY)
    {
      KeysOf(entries, key);
      if key !in hash {
        WithoutAbsent(entries, key);
        return ERRNOKEY;
      }
      var i := Find(key);
      WithoutAt(entries, i);
      KeysRemove(entries, i);
      entries, hash := entries[..i] + entries[i + 1..], hash - {key};
      err := 0;
    }

    /** Empties the set.  Like Del it leaves the entry counter alone. */
    method Clear()
      requires Valid()
      modifies this`entries, this`hash
      ensures Valid() && entries == []
    {
      while hash != {}
        invariant Valid()
        decreases |entries|
      {
        var key :| key in hash;
        KeysOf(entries, key);
        var i := Find(key);
        WithoutAt(entries, i);
        var _ := Del(key);
      }
      if entries != [] { KeysOf(entries, entries[0].key); }
    }
  }

  lemma SameKeys(s: seq<Slot>, t: seq<Slot>)
    requires |s| == |t| && (forall i :: 0 <= i < |s| ==> s[i].key == t[i].key) && DistinctKeys(s)
    ensures DistinctKeys(t) && Keys(t) == Keys(s)
  {
  }

  lemma KeysRemove(s: seq<Slot>, i: nat)
    requires DistinctKeys(s) && i < |s|
    ensures DistinctKeys(s[..i] + s[i + 1..]) && Keys(s[..i] + s[i + 1..]) == Keys(s) - {s[i].key}
  {
    var t := s[..i] + s[i + 1..];
    forall k | k in Keys(s) && k != s[i].key ensures k in Keys(t) {
      var j :| 0 <= j < |s| && s[j].key == k;
      assert t[if j < i then j else j - 1].key == k;
    }
  }

  lemma KeysAppend(s: seq<Slot>, x: Slot)
    requires DistinctKeys(s) && x.key !in Keys(s)
    ensures DistinctKeys(s + [x]) && Keys(s + [x]) == Keys(s) + {x.key}
  {
    var t := s + [x];
    assert t[|s|] == x && forall i :: 0 <= i < |s| ==> t[i] == s[i];
  }

  lemma KeysDrop(s: seq<Slot>)
    requires DistinctKeys(s) && s != []
    ensures DistinctKeys(s[1..]) && Keys(s[1..]) == Keys(s) - {s[0].key}
  {
    assert s[..0] + s[1..] == s[1..];
    KeysRemove(s, 0);
  }

  lemma SameKeysRotated(s: seq<Slot>)
    requires DistinctKeys(s) && s != []
    ensures DistinctKeys(HeadToBack(s)) && Keys(HeadToBack(s)) == Keys(s)
  {
    var t := HeadToBack(s);
    assert forall j :: 0 <= j < |s| ==> t[if j == 0 then |s| - 1 else j - 1].key == s[j].key;
  }

  lemma EvictionKeys(s: seq<Slot>, key: CString)
    requires DistinctKeys(s) && key !in Keys(s)
    ensures key !in Keys(AfterEviction(s))
  {
    EvictionRemovesVictim(s, key);
    KeysOf(s, key);
    KeysOf(AfterEviction(s), key);
  }

  /** After R referenced entries of S0 were moved to the back. */
  ghost predicate Rotated(s0: seq<Slot>, s: seq<Slot>, r: nat) {
    r <= Referenced(s0) && s == s0[r..] + Cleared(s0[..r])
  }

  lemma RotatedEvict(s0: seq<Slot>, s: seq<Slot>, r: nat)
    requires Rotated(s0, s, r) && s != [] && !s[0].refbit && (r < |s0| || |s0| >= 2)
    ensures s[1..] == AfterEviction(s0)
  {
    hide Cleared;
    if r < |s0| {
      var a, b := s0[r..], Cleared(s0[..r]);
      assert a[0] == s0[r];
      DropFirst(a, b);
      assert a[1..] == s0[r + 1..];
    } else {
      assert s0[..r] == s0 && s == Cleared(s0) + [] by { NothingLeft(s0, Cleared(s0)); }
      ClearedTail(s0);
    }
  }

  lemma NothingLeft(s0: seq<Slot>, c: seq<Slot>)
    ensures s0[|s0|..] + c == c && s0[..|s0|] == s0 && c + [] == c
  {
  }

  lemma ClearedTail(s: seq<Slot>)
    requires s != []
    ensures Cleared(s)[1..] == Cleared(s[1..])
  {
  }

  lemma DropFirst(a: seq<Slot>, b: seq<Slot>)
    requires a != []
    ensures (a + b)[1..] == a[1..] + b
  {
  }

  lemma RotatedSurvives(s0: seq<Slot>, s: seq<Slot>, r: nat)
    requires Rotated(s0, s, r) && (|s0| == 0 || (|s0| == 1 && r == 1))
    ensures s == AfterEviction(s0)
  {
  }

  /** The head moved to the back with its bit cleared. */
  ghost function HeadToBack(s: seq<Slot>): (r: seq<Slot>)
    requires s != []
  {
    s[1..] + [s[0].(refbit := false)]
  }

  lemma RotatedStep(s0: seq<Slot>, s: seq<Slot>, r: nat, r': nat)
    requires Rotated(s0, s, r) && s != [] && s[0].refbit && r' == r + 1
    ensures r < |s0| && Rotated(s0, HeadToBack(s), r')
  {
    assert s[0] == s0[r];
    assert s0[..r + 1] == s0[..r] + [s0[r]];
    assert Cleared(s0[..r + 1]) == Cleared(s0[..r]) + [s0[r].(refbit := false)];
  }

  lemma FillTwo(a: CString, b: CString)
    requires a != b
    ensures AfterPut([], a, [], false) == [Slot(a, [], false)]
    ensures AfterPut([Slot(a, [], false)], b, [], false) == [Slot(a, [], false), Slot(b, [], false)]
    ensures !HasKey([], a) && !HasKey([Slot(a, [], false)], b)
  {
  }

  lemma DropOne(a: CString, b: CString)
    requires a != b
    ensures Without([Slot(a, [], false), Slot(b, [], false)], b) == [Slot(a, [], false)]
    ensures Touched([Slot(a, [], false)], a) == [Slot(a, [], true)]
  {
    WithoutAt([Slot(a, [], false), Slot(b, [], false)], 1);
  }

  lemma KeepOne(a: CString, c: CString)
    requires a != c
    ensures NothingToEvict([Slot(a, [], true)]) && !HasKey([Slot(a, [], true)], c)
    ensures AfterPut([Slot(a, [], true)], c, [], true) == [Slot(a, [], false), Slot(c, [], false)]
  {
    assert AfterEviction([Slot(a, [], true)]) == [Slot(a, [], false)];
  }

  /** Two entries put and one deleted: the set counts as full with one entry.  Once that entry has been looked up,
      a new key evicts nothing. */
  method FullButForOne(a: CString, b: CString, c: CString) returns (s: CacheSet)
    requires a != b && a != c
    ensures fresh(s) && s.Valid() && s.numEntries == s.elemPerSet == 2
    ensures s.entries == [Slot(a, [], false), Slot(c, [], false)]
  {
    hide AfterPut, Without, Touched, HasKey, ValueOf, NothingToEvict, Keys, DistinctKeys;
    FillTwo(a, b);
    DropOne(a, b);
    KeepOne(a, c);
    s := new CacheSet(2);
    var e1 := s.Put(a, []);
    var e2 := s.Put(b, []);
    var e3 := s.Del(b);
    var e4, v := s.Get(a);
    var e5 := s.Put(c, []);
  }

  // ---------- second chance

  /** The place of KEY after a lookup or an overwrite, which set its bit. */
  ghost predicate Marked(s: seq<Slot>, t: seq<Slot>, key: CString) {
    && |t| == |s| && (forall i :: 0 <= i < |s| && s[i].key != key ==> t[i] == s[i])
    && (forall i :: 0 <= i < |s| && s[i].key == key ==> t[i].key == key && t[i].refbit)
  }

  /** A lookup marks its entry and changes no value; an overwrite marks it and changes only its value. */
  lemma MarkedEntries(s: seq<Slot>, key: CString, value: CString, full: bool)
    requires HasKey(s, key)
    ensures Marked(s, Touched(s, key), key) && forall i :: 0 <= i < |s| ==> Touched(s, key)[i].value == s[i].value
    ensures Marked(s, AfterPut(s, key, value, full), key)
    ensures forall i :: 0 <= i < |s| && s[i].key == key ==> AfterPut(s, key, value, full)[i].value == value
  {
  }

  /** A marked entry outlives the next eviction, as long as another entry is unmarked; the first such goes. */
  lemma SecondChance(s: seq<Slot>, t: seq<Slot>, key: CString, j: nat)
    requires DistinctKeys(s) && Marked(s, t, key) && HasKey(s, key)
    requires j < |s| && s[j].key != key && !s[j].refbit
    requires forall i :: 0 <= i < j && s[i].key != key ==> s[i].refbit
    ensures Victim(t) == Some(s[j]) && ValueOf(AfterEviction(t), key) == ValueOf(t, key) != None
    ensures ValueOf(AfterEviction(t), s[j].key) == None
  {
    SameKeys(s, t);
    assert t[j] == s[j] && Referenced(t) == j;
    KeysOf(s, key);
    KeysOf(t, key);
    EvictionRemovesVictim(t, key);
    EvictionRemovesVictim(t, s[j].key);
  }

  /** A new entry is not marked: it is the next to go from a set where all others are. */
  lemma Newcomer(s: seq<Slot>, key: CString, value: CString)
    requires !HasKey(s, key) && forall i :: 0 <= i < |s| ==> s[i].refbit
    ensures Victim(AfterPut(s, key, value, false)) == Some(Slot(key, value, false))
  {
    var t := AfterPut(s, key, value, false);
    assert t[|s|] == Slot(key, value, false) && Referenced(t) == |s|;
  }

  /** The queue after an eviction: what was behind the victim, then what was ahead of it, unmarked. */
  lemma EvictionOrder(s: seq<Slot>, k: nat)
    requires k < |s| && !s[k].refbit && forall i :: 0 <= i < k ==> s[i].refbit
    ensures Victim(s) == Some(s[k]) && |AfterEviction(s)| == |s| - 1
    ensures forall i :: k < i < |s| ==> AfterEviction(s)[i - k - 1] == s[i]
    ensures forall i :: 0 <= i < k ==> AfterEviction(s)[|s| - k - 1 + i] == Slot(s[i].key, s[i].value, false)
  {
    assert Referenced(s) == k;
    hide Cleared;
    BehindThenAhead(s, k, Cleared(s[..k]));
  }

  lemma BehindThenAhead(s: seq<Slot>, k: nat, ahead: seq<Slot>)
    requires k < |s| && ahead == Cleared(s[..k])
    ensures |ahead| == k && forall i :: k < i < |s| ==> (s[k + 1..] + ahead)[i - k - 1] == s[i]
    ensures forall i :: 0 <= i < k ==> (s[k + 1..] + ahead)[|s| - k - 1 + i] == Slot(s[i].key, s[i].value, false)
  {
  }

  /** When every entry is marked, the head goes and the others lose their marks; a single entry stays. */
  lemma AllMarked(s: seq<Slot>)
    requires s != [] && forall i :: 0 <= i < |s| ==> s[i].refbit
    ensures var gone := if |s| == 1 then 0 else 1;
      && |AfterEviction(s)| == |s| - gone
      && forall i :: gone <= i < |s| ==> AfterEviction(s)[i - gone] == Slot(s[i].key, s[i].value, false)
  {
    assert Referenced(s) == |s|;
  }
}
