/** The set-associative cache (kvstore/src/server/kvcache.c) and the write-through server on top
    of it and of the store (kvstore/src/server/kvserver.c), for requests handled one at a time. */
module KvServer {
  import opened CStrings
  import opened Options
  import KvStore
  import opened KvCacheSet

  const MAX_KEYLEN := KvStore.MAX_KEYLEN
  const MAX_VALLEN := KvStore.MAX_VALLEN
  const ERRKEYLEN := KvStore.ERRKEYLEN
  const ERRVALLEN := KvStore.ERRVALLEN

  /** get_cache_set: the hash is cut to 32 bits before the remainder is taken. */
  function SetIndex(key: CString, numSets: nat): (i: nat)
    requires 0 < numSets < 0x1_0000_0000
    ensures i < numSets
  {
    KvStore.Djb2(key) % 0x1_0000_0000 % numSets
  }

  class Cache {
    const sets: seq<CacheSet>

    /** What the sets hold. */
    ghost var tables: seq<seq<Slot>>

    /** Every set is in order, and no two are the same object. */
    ghost predicate Valid()
      reads this, sets
    {
      && 0 < |sets| < 0x1_0000_0000 && |tables| == |sets|
      && (forall i, j :: 0 <= i < j < |sets| ==> sets[i] != sets[j])
      && (forall i :: 0 <= i < |sets| ==> sets[i].Valid() && sets[i].entries == tables[i])
    }

    constructor (numSets: nat, elemPerSet: nat)
      requires 0 < numSets < 0x1_0000_0000 && elemPerSet >= 2
      ensures Valid() && fresh(sets) && |tables| == numSets
      ensures forall i :: 0 <= i < |tables| ==> tables[i] == []
    {
      var made: seq<CacheSet> := [];
      ghost var t: seq<seq<Slot>> := [];
      while |made| < numSets
        invariant |made| == |t| <= numSets && fresh(made)
        invariant forall i, j :: 0 <= i < j < |made| ==> made[i] != made[j]
        invariant forall i :: 0 <= i < |made| ==> made[i].Valid() && made[i].entries == t[i] == []
      {
        var s := new CacheSet(elemPerSet);
        made, t := made + [s], t + [[]];
      }
      sets, tables := made, t;
    }

    function SetOf(key: CString): (i: nat)
      requires 0 < |sets| < 0x1_0000_0000
      ensures i < |sets|
    {
      SetIndex(key, |sets|)
    }

    /** The counter of set I says that it is full. */
    ghost predicate Full(i: nat)
      requires i < |sets|
      reads sets
    {
      sets[i].numEntries == sets[i].elemPerSet
    }

    method Get(key: CString) returns (err: int, value: Option<CString>)
      requires Valid()
      modifies this, sets
      ensures Valid()
      ensures |key| > MAX_KEYLEN ==> err == ERRKEYLEN && value == None && tables == old(tables)
      ensures |key| <= MAX_KEYLEN ==>
                && value == ValueOf(old(tables)[SetOf(key)], key)
                && err == (if value.Some? then 0 else ERRNOKEY)
                && tables == old(tables)[SetOf(key) := Touched(old(tables)[SetOf(key)], key)]
    {
      if |key| > MAX_KEYLEN {
        err, value := ERRKEYLEN, None;
      } else {
        var k := SetOf(key);
        err, value := sets[k].Get(key);
        tables := tables[k := Touched(tables[k], key)];
      }
    }

    method Put(key: CString, value: CString) returns (err: int)
      requires Valid()
      modifies this, sets
      ensures Valid()
      ensures err == (if |key| > MAX_KEYLEN then ERRKEYLEN else if |value| > MAX_VALLEN then ERRVALLEN else 0)
      ensures err != 0 ==> tables == old(tables)
      ensures err == 0 ==>
                tables == old(tables)[SetOf(key) := AfterPut(old(tables)[SetOf(key)], key, value, old(Full(SetOf(key))))]
    {
      if |key| > MAX_KEYLEN {
        err := ERRKEYLEN;
      } else if |value| > MAX_VALLEN {
        err := ERRVALLEN;
      } else {
        var k := SetOf(key);
        ghost var full := Full(k);
        err := sets[k].Put(key, value);
        tables := tables[k := AfterPut(tables[k], key, value, full)];
      }
    }

    method Del(key: CString) returns (err: int)
      requires Valid()
      modifies this, sets
      ensures Valid()
      ensures |key| > MAX_KEYLEN ==> err == ERRKEYLEN && tables == old(tables)
      ensures |key| <= MAX_KEYLEN ==>
                && tables == old(tables)[SetOf(key) := Without(old(tables)[SetOf(key)], key)]
                && err == (if HasKey(old(tables)[SetOf(key)], key) then 0 else ERRNOKEY)
    {
      if |key| > MAX_KEYLEN {
        err := ERRKEYLEN;
      } else {
        var k := SetOf(key);
        err := sets[k].Del(key);
        tables := tables[k := Without(tables[k], key)];
      }
    }
  }

  // ---------- the server against a plain map

  datatype Request = Get(key: CString) | Put(key: CString, value: CString) | Del(key: CString)
  datatype Response = Response(err: int, value: Option<CString>)

  predicate InRange(r: Request) { r.Del? ==> |r.key| <= MAX_KEYLEN }

  /** How a plain map with length limits answers. */
  function MapStep(m: map<CString, CString>, r: Request): (res: (map<CString, CString>, Response)) {
    if |r.key| > MAX_KEYLEN then (m, Response(ERRKEYLEN, None))
    else match r
      case Get(k) => (m, if k in m then Response(0, Some(m[k])) else Response(ERRNOKEY, None))
      case Put(k, v) =>
        if |v| > MAX_VALLEN then (m, Response(ERRVALLEN, None)) else (m[k := v], Response(0, None))
      case Del(k) => if k in m then (m - {k}, Response(0, None)) else (m, Response(ERRNOKEY, None))
  }

  function MapRun(m: map<CString, CString>, rs: seq<Request>): (res: (map<CString, CString>, seq<Response>)) {
    if rs == [] then (m, [])
    else
      var (m1, a1) := MapRun(m, rs[..|rs| - 1]);
      var (m2, a) := MapStep(m1, rs[|rs| - 1]);
      (m2, a1 + [a])
  }

  /** Every cached pair is in M, and sits in the set its key is routed to. */
  ghost predicate CacheOk(tables: seq<seq<Slot>>, m: map<CString, CString>) {
    && 0 < |tables| < 0x1_0000_0000
    && forall i :: 0 <= i < |tables| ==> TableOk(tables[i], i, |tables|, m)
  }

  ghost predicate TableOk(t: seq<Slot>, i: nat, n: nat, m: map<CString, CString>)
    requires 0 < n < 0x1_0000_0000
  {
    Coherent(t, m) && forall j :: 0 <= j < |t| ==> SetIndex(t[j].key, n) == i
  }

  lemma EvictionKeepsKeys(s: seq<Slot>, j: nat)
    requires j < |AfterEviction(s)|
    ensures HasKey(s, AfterEviction(s)[j].key)
  {
    var k, n := Referenced(s), |s|;
    var i := if k == n then (if n >= 2 then j + 1 else j) else if j < n - k - 1 then k + 1 + j else j - (n - k - 1);
    assert s[i].key == AfterEviction(s)[j].key;
  }

  lemma PutKeys(s: seq<Slot>, key: CString, value: CString, full: bool, j: nat)
    requires j < |AfterPut(s, key, value, full)|
    ensures var k := AfterPut(s, key, value, full)[j].key; k == key || HasKey(s, k)
  {
    var t := AfterPut(s, key, value, full);
    if HasKey(s, key) || !full {
      assert j < |s| ==> s[j].key == t[j].key;
    } else if j < |AfterEviction(s)| {
      EvictionKeepsKeys(s, j);
    }
  }

  lemma TouchOk(tables: seq<seq<Slot>>, m: map<CString, CString>, key: CString, k: nat)
    requires CacheOk(tables, m) && k < |tables|
    ensures CacheOk(tables[k := Touched(tables[k], key)], m)
  {
    assert TableOk(tables[k], k, |tables|, m);
    assert TableOk(Touched(tables[k], key), k, |tables|, m);
  }

  /** Filling or updating the cache while the store gains the same pair.  No other set can hold
      the key, because of the routing. */
  lemma PutOk(tables: seq<seq<Slot>>, m: map<CString, CString>, key: CString, value: CString, full: bool, k: nat)
    requires CacheOk(tables, m) && k == SetIndex(key, |tables|)
    ensures CacheOk(tables[k := AfterPut(tables[k], key, value, full)], m[key := value])
  {
    var n, t := |tables|, AfterPut(tables[k], key, value, full);
    var m' := m[key := value];
    assert TableOk(t, k, n, m') by {
      assert TableOk(tables[k], k, n, m);
      CoherentPut(tables[k], m, key, value, full);
      forall j | 0 <= j < |t| ensures SetIndex(t[j].key, n) == k {
        PutKeys(tables[k], key, value, full, j);
      }
    }
    forall i | 0 <= i < n && i != k ensures TableOk(tables[i], i, n, m') {
      assert TableOk(tables[i], i, n, m);
    }
  }

  lemma DelOk(tables: seq<seq<Slot>>, m: map<CString, CString>, key: CString, k: nat)
    requires CacheOk(tables, m) && k == SetIndex(key, |tables|)
    ensures CacheOk(tables[k := Without(tables[k], key)], m - {key})
  {
    var n, t := |tables|, Without(tables[k], key);
    assert TableOk(t, k, n, m - {key}) by {
      assert TableOk(tables[k], k, n, m);
      CoherentWithout(tables[k], m, key);
      forall j | 0 <= j < |t| ensures SetIndex(t[j].key, n) == k {
        WithoutMember(tables[k], key, t[j]);
      }
    }
    forall i | 0 <= i < n && i != k ensures TableOk(tables[i], i, n, m - {key}) {
      assert TableOk(tables[i], i, n, m);
    }
  }

  lemma {:induction false} WithoutMember(s: seq<Slot>, key: CString, x: Slot)
    requires x in Without(s, key)
    ensures x in s
  {
    if s != [] && x != s[0] { WithoutMember(s[1..], key, x); }
  }

  class Server {
    const cache: Cache
    const store: KvStore.Store

    ghost predicate Valid()
      reads this, cache, cache.sets, store
    {
      && cache.Valid() && store.Valid() && store.dirExists
      && CacheOk(cache.tables, store.contents)
    }

    constructor (numSets: nat, elemPerSet: nat)
      requires 0 < numSets < 0x1_0000_0000 && elemPerSet >= 2
      ensures Valid() && fresh(cache) && fresh(cache.sets) && fresh(store) && store.contents == map[]
    {
      cache := new Cache(numSets, elemPerSet);
      store := new KvStore.Store();
    }

    /** kvserver_init over the files of an earlier server: the same contents behind an empty cache. */
    constructor Restart(numSets: nat, elemPerSet: nat, left: map<(int, nat), KvStore.Entry>,
                        ghost c: KvStore.Chains, ghost m: map<CString, CString>)
      requires 0 < numSets < 0x1_0000_0000 && elemPerSet >= 2 && KvStore.Agrees(left, c, m)
      ensures Valid() && fresh(cache) && fresh(cache.sets) && fresh(store) && store.contents == m && store.files == left
    {
      hide KvStore.Agrees;
      cache := new Cache(numSets, elemPerSet);
      store := new KvStore.Store.Reopen(left, c, m);
    }

    /** From the cache when possible, else from the store and then into the cache. */
    method Get(key: CString) returns (err: int, value: Option<CString>)
      requires Valid()
      modifies cache, cache.sets, store
      ensures Valid()
      ensures (store.contents, Response(err, value)) == old(MapStep(store.contents, Request.Get(key)))
    {
      if |key| > MAX_KEYLEN {
        return ERRKEYLEN, None;
      }
      ghost var k, t := cache.SetOf(key), cache.tables;
      err, value := cache.Get(key);
      TouchOk(t, store.contents, key, k);
      assert TableOk(t[k], k, |t|, store.contents);
      if err < 0 {
        err, value := store.Get(key);
        if err == 0 {
          ghost var t1, full := cache.tables, cache.Full(k);
          var _ := cache.Put(key, value.value);
          FillOk(t1, cache.tables, store.contents, key, k, full);
        }
      } else {
        CoherentLookup(t[k], store.contents, key);
      }
    }

    /** Into the store first, then into the cache. */
    method Put(key: CString, value: CString) returns (err: int)
      requires Valid()
      modifies cache, cache.sets, store
      ensures Valid()
      ensures (store.contents, Response(err, None)) == old(MapStep(store.contents, Request.Put(key, value)))
    {
      err := store.PutCheck(key, value);
      if err < 0 {
        return;
      }
      ghost var k, t, m := cache.SetOf(key), cache.tables, store.contents;
      ghost var full := cache.Full(k);
      err := store.Put(key, value);
      if err < 0 {
        return;
      }
      err := cache.Put(key, value);
      PutOk(t, m, key, value, full, k);
    }

    /** Out of the cache first, then out of the store.  The original locks the key's cache set
        before any check; a key over the limit has no lock, so callers keep to the limit. */
    method Del(key: CString) returns (err: int)
      requires Valid() && |key| <= MAX_KEYLEN
      modifies cache, cache.sets, store
      ensures Valid()
      ensures (store.contents, Response(err, None)) == old(MapStep(store.contents, Request.Del(key)))
    {
      hide CacheOk, HasKey, Without, KvStore.Agrees;
      ghost var k, t, m := cache.SetOf(key), cache.tables, store.contents;
      var _ := cache.Del(key);
      err := store.Del(key);
      DelOk(t, m, key, k);
      assert key !in m ==> m - {key} == m;
    }

    /** kvserver_handle_no_tpc: dispatch on the type of the request. */
    method Handle(r: Request) returns (res: Response)
      requires Valid() && InRange(r)
      modifies cache, cache.sets, store
      ensures Valid()
      ensures (store.contents, res) == old(MapStep(store.contents, r))
    {
      match r
      case Get(key) =>
        var err, value := Get(key);
        res := Response(err, value);
      case Put(key, value) =>
        var err := Put(key, value);
        res := Response(err, None);
      case Del(key) =>
        var err := Del(key);
        res := Response(err, None);
    }

    /** Every sequential history of requests is answered exactly as a plain map would. */
    method Serve(rs: seq<Request>) returns (answers: seq<Response>)
      requires Valid() && forall r | r in rs :: InRange(r)
      modifies cache, cache.sets, store
      ensures Valid()
      ensures (store.contents, answers) == old(MapRun(store.contents, rs))
    {
      answers := [];
      ghost var m := store.contents;
      var i := 0;
      while i < |rs|
        invariant 0 <= i <= |rs| && Valid()
        invariant (store.contents, answers) == MapRun(m, rs[..i])
      {
        assert rs[..i + 1][..i] == rs[..i];
        var a := Handle(rs[i]);
        answers := answers + [a];
        i := i + 1;
      }
      assert rs[..i] == rs;
    }
  }

  /** Filling the cache with a pair the store already has. */
  lemma FillOk(t: seq<seq<Slot>>, t': seq<seq<Slot>>, m: map<CString, CString>, key: CString, k: nat, full: bool)
    requires CacheOk(t, m) && k == SetIndex(key, |t|) && key in m
    requires t' == t || t' == t[k := AfterPut(t[k], key, m[key], full)]
    ensures CacheOk(t', m)
  {
    if t' != t {
      PutOk(t, m, key, m[key], full, k);
      assert m[key := m[key]] == m;
    }
  }

  // ---------- what a plain map does

  /** The set of a key: the low 32 bits of its hash, modulo the number of sets. */
  lemma SetRouting(key: CString, n: nat)
    requires 0 < n < 0x1_0000_0000
    ensures SetIndex(key, n) < n
    ensures exists a: nat, b: nat :: SetOfHash(KvStore.Djb2(key), n, a, b, SetIndex(key, n))
  {
    var h := KvStore.Djb2(key);
    hide KvStore.Djb2;
    var low := h % 0x1_0000_0000;
    Split(low, n);
    assert SetOfHash(h, n, h / 0x1_0000_0000, low / n, SetIndex(key, n));
  }

  lemma Split(x: nat, n: nat)
    requires n > 0
    ensures x == n * (x / n) + x % n
  {
  }

  predicate SetOfHash(h: int, n: nat, a: nat, b: nat, i: nat) {
    h == 0x1_0000_0000 * a + n * b + i && n * b + i < 0x1_0000_0000
  }

  /** A pair that was put is read back until it is overwritten or deleted, other keys are unaffected, and the
      errors change nothing. */
  lemma MapLaws(m: map<CString, CString>, key: CString, value: CString, other: CString)
    requires |key| <= 1024 && other != key
    ensures var (m', r) := MapStep(m, Put(key, value));
      && (|value| > 1024 ==> m' == m && r == Response(-12, None))
      && (|value| <= 1024 ==> r == Response(0, None) && MapStep(m', Get(key)) == (m', Response(0, Some(value))))
      && MapStep(m', Get(other)).1 == MapStep(m, Get(other)).1
    ensures var (m', r) := MapStep(m, Del(key));
      && MapStep(m', Get(key)) == (m', Response(-13, None)) && MapStep(m', Get(other)).1 == MapStep(m, Get(other)).1
      && (r.err == 0 <==> MapStep(m, Get(key)).1.err == 0) && (r.err == 0 || (r == Response(-13, None) && m' == m))
    ensures |other| > 1024 ==> forall q: Request :: q.key == other ==> MapStep(m, q) == (m, Response(-11, None))
    ensures MapStep(m, Get(key)).0 == m && MapStep(map[], Get(key)).1 == Response(-13, None)
  {
    assert key !in m - {key};
  }

  /** Each request of a history is answered, in order, by what the requests before it left. */
  lemma {:induction false} RunAnswers(m: map<CString, CString>, rs: seq<Request>, i: nat)
    requires i < |rs|
    ensures |MapRun(m, rs).1| == |rs| && MapRun(m, rs).1[i] == MapStep(MapRun(m, rs[..i]).0, rs[i]).1
    ensures MapRun(m, rs[..i + 1]).0 == MapStep(MapRun(m, rs[..i]).0, rs[i]).0
    decreases |rs|
  {
    var front := rs[..|rs| - 1];
    if i < |front| {
      RunAnswers(m, front, i);
      assert front[..i] == rs[..i] && front[..i + 1] == rs[..i + 1];
    } else {
      if front != [] { RunAnswers(m, front, |front| - 1); }
      assert rs[..i + 1] == rs && rs[..i] == front;
    }
  }
}
