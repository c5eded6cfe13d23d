/** The commit log of kvstore/src/server/tpclog.c: numbered files, one entry each, found again after
    a restart by probing from 0. */
module TpcLog {
  import opened CStrings
  import opened Options

  const ERRFILACCESS: int := -17
  const ERRINVLDMSG: int := -14
  const ENOMEM: int := 12

  /** Message types; only the first four can be logged. */
  datatype MsgType = PutReq | DelReq | Abort | Commit | Other

  /** What is logged. */
  datatype Entry = Put(key: CString, value: CString) | Del(key: CString) | Aborted | Committed

  /** A log file: a whole logentry_t, or one that was created but not written out. */
  datatype LogFile = Whole(typ: MsgType, length: nat, data: seq<Char>) | Partial

  function TypeOf(e: Entry): MsgType {
    match e
    case Put(_, _) => PutReq
    case Del(_) => DelReq
    case Aborted => Abort
    case Committed => Commit
  }

  function DataOf(e: Entry): seq<Char> {
    match e
    case Put(k, v) => Terminated(k) + Terminated(v)
    case Del(k) => Terminated(k)
    case _ => []
  }

  function Encode(e: Entry): LogFile { Whole(TypeOf(e), |DataOf(e)|, DataOf(e)) }

  /** What a reader makes of a log file. */
  function Decode(f: LogFile): Option<Entry> {
    if f.Partial? || |f.data| < f.length then None
    else
      match f.typ
      case PutReq => Some(Put(StringAt(f.data), StringAt(After(f.data))))
      case DelReq => Some(Del(StringAt(f.data)))
      case Abort => Some(Aborted)
      case Commit => Some(Committed)
      case Other => None
  }

  lemma EntryRoundTrip(e: Entry)
    ensures Decode(Encode(e)) == Some(e)
  {
    match e
    case Put(k, v) =>
      StringRoundTrip(k, Terminated(v));
      StringRoundTrip(v, []);
      assert Terminated(v) + [] == Terminated(v);
    case Del(k) =>
      StringRoundTrip(k, []);
      assert Terminated(k) + [] == Terminated(k);
    case _ =>
  }

  /** The files are 0, 1, ..., N - 1. */
  ghost predicate Numbered(files: map<nat, LogFile>, n: nat) { forall i: nat :: i in files <==> i < n }

  /** File I holds what was logged as number I; nothing can be read from an entry whose write failed. */
  ghost predicate Holds(files: map<nat, LogFile>, logged: seq<Option<Entry>>) {
    Numbered(files, |logged|) && forall i: nat :: i < |logged| ==> Decode(files[i]) == logged[i]
  }

  lemma HoldsNext(files: map<nat, LogFile>, logged: seq<Option<Entry>>, f: LogFile, e: Option<Entry>)
    requires Holds(files, logged) && Decode(f) == e
    ensures Holds(files[|logged| := f], logged + [e])
  {
  }

  lemma {:induction false} AtLeast(files: map<nat, LogFile>, n: nat)
    requires forall i: nat :: i < n ==> i in files
    ensures n <= |files|
  {
    if n > 0 {
      var rest := files - {n - 1};
      assert files.Keys == rest.Keys + {n - 1};
      AtLeast(rest, n - 1);
    }
  }

  /** The loop of tpclog_init: the first number without a file. */
  method FirstFree(files: map<nat, LogFile>) returns (nextid: nat)
    ensures nextid !in files && forall i: nat :: i < nextid ==> i in files
  {
    nextid := 0;
    while nextid in files
      invariant forall i: nat :: i < nextid ==> i in files
      decreases |files| - nextid
    {
      AtLeast(files, nextid + 1);
      nextid := nextid + 1;
    }
  }

  /** The bytes of an entry: sizeof (logentry_t) is 8, for the type and the length. */
  function EntrySize(typ: MsgType, key: CString, value: CString): nat {
    8 + (if typ == PutReq || typ == DelReq then |key| + 1 else 0) + (if typ == PutReq then |value| + 1 else 0)
  }

  /** What write () may return for SIZE bytes: the number it wrote, or -1. */
  predicate Returned(written: int, size: nat) { -1 <= written <= size }

  /** The test of tpclog_log: the signed result is converted to the unsigned type of SIZE before they are compared. */
  predicate SeenAsShort(written: int, size: nat) { written % 0x1_0000_0000_0000_0000 < size }

  /** So -1 counts as the largest number there is, and only a short write is seen. */
  lemma ShortSeen(written: int, size: nat)
    requires Returned(written, size) && size < 0x8000_0000
    ensures SeenAsShort(written, size) <==> 0 <= written < size
  {
  }

  /** The file that is left behind. */
  function FileLeft(typ: MsgType, key: CString, value: CString, memory: bool, written: int): LogFile
    requires typ != Other
  {
    if memory && written == EntrySize(typ, key, value) then Encode(Message(typ, key, value)) else Partial
  }

  /** The code that tpclog_log returns once the file is open. */
  function LogErr(memory: bool, written: int, size: nat): int {
    if !memory then ENOMEM else if SeenAsShort(written, size) then ERRFILACCESS else 0
  }

  /** The bytes that tpclog_log copies into the entry. */
  function Copied(typ: MsgType, key: CString, value: CString): seq<Char> {
    (if typ == PutReq || typ == DelReq then Terminated(key) else []) + (if typ == PutReq then Terminated(value) else [])
  }

  lemma MessageEncoded(typ: MsgType, key: CString, value: CString, data: seq<Char>)
    requires typ != Other && data == Copied(typ, key, value)
    ensures EntrySize(typ, key, value) == 8 + |data|
    ensures Whole(typ, |data|, data) == Encode(Message(typ, key, value))
    ensures Decode(Whole(typ, |data|, data)) == Some(Message(typ, key, value))
  {
    var e := Message(typ, key, value);
    assert data == DataOf(e);
    EntryRoundTrip(e);
  }

  /** Success is reported exactly when memory was there and write () was not short; then the entry can be
      read back exactly when write () did not fail. */
  lemma ReportedSuccess(typ: MsgType, key: CString, value: CString, memory: bool, written: int)
    requires typ != Other
    requires |key| + |value| < 0x7fff_ff00 && Returned(written, EntrySize(typ, key, value))
    ensures LogErr(memory, written, EntrySize(typ, key, value)) == 0 <==>
      memory && (written == -1 || written == EntrySize(typ, key, value))
    ensures LogErr(memory, written, EntrySize(typ, key, value)) == 0 ==>
      (Decode(FileLeft(typ, key, value, memory, written)) == Some(Message(typ, key, value)) <==> written != -1)
  {
    hide SeenAsShort;
    ShortSeen(written, EntrySize(typ, key, value));
    EntryRoundTrip(Message(typ, key, value));
  }

  /** A COMMIT whose write fails: tpclog_log returns 0 and nothing can be read back. */
  lemma FailedWriteReported()
    ensures Returned(-1, EntrySize(Commit, [], [])) && LogErr(true, -1, EntrySize(Commit, [], [])) == 0
    ensures Decode(FileLeft(Commit, [], [], true, -1)) == None
  {
  }

  /** The directory, which outlives the process, and the log object over it. */
  class Log {
    var files: map<nat, LogFile>
    var nextid: nat
    var iterpos: nat
    ghost var logged: seq<Option<Entry>>

    ghost predicate Valid()
      reads this
    {
      nextid == |logged| && Holds(files, logged)
    }

    /** tpclog_init in an empty directory. */
    constructor ()
      ensures Valid() && logged == []
    {
      files, nextid, iterpos, logged := map[], 0, 0, [];
    }

    /** tpclog_init after a restart: only the files are left, and they tell NEXTID. */
    constructor Recover(left: map<nat, LogFile>, ghost before: seq<Option<Entry>>)
      requires Holds(left, before)
      ensures Valid() && files == left && logged == before
    {
      ghost var n: nat := |before|;
      assert n !in left;
      var id := FirstFree(left);
      files, nextid, iterpos, logged := left, id, 0, before;
    }

    /** tpclog_log; OPENS and MEMORY say whether those calls succeed, WRITTEN is what write () returns.
        Keys and values are shorter than 2 GB together, because their lengths are ints. */
    method Append(typ: MsgType, key: CString, value: CString, opens: bool, memory: bool, written: int)
      returns (err: int)
      requires Valid() && |key| + |value| < 0x7fff_ff00 && Returned(written, EntrySize(typ, key, value))
      modifies this`files, this`nextid, this`logged
      ensures Valid()
      ensures typ == Other ==> err == ERRINVLDMSG
      ensures typ != Other && !opens ==> err == ERRFILACCESS
      ensures typ == Other || !opens ==> logged == old(logged) && files == old(files)
      ensures typ != Other && opens ==>
        && err == LogErr(memory, written, EntrySize(typ, key, value))
        && files == old(files)[old(nextid) := FileLeft(typ, key, value, memory, written)]
      ensures typ != Other && opens ==>
        && var whole := written == EntrySize(typ, key, value);
        && logged == old(logged) + [if memory && whole then Some(Message(typ, key, value)) else None]
        && (err == 0 <==> memory && (whole || written == -1))
        && (err == ENOMEM <==> !memory)
        && (err == ERRFILACCESS <==> memory && 0 <= written < EntrySize(typ, key, value))
    {
      hide SeenAsShort, Holds, Encode, Message, EntrySize;
      if typ == Other { return ERRINVLDMSG; }
      if !opens { return ERRFILACCESS; }
      var id := nextid;
      nextid := nextid + 1;
      if !memory {
        HoldsNext(files, logged, Partial, None);
        files := files[id := Partial];
        logged := logged + [None];
        return ENOMEM;
      }
      var data: seq<Char> := [];
      if typ == PutReq || typ == DelReq { data := data + Terminated(key); }
      if typ == PutReq { data := data + Terminated(value); }
      var size := 8 + |data|;
      ghost var e := Message(typ, key, value);
      MessageEncoded(typ, key, value, data);
      ShortSeen(written, size);
      var f := if written == size then Whole(typ, |data|, data) else Partial;
      HoldsNext(files, logged, f, if written == size then Some(e) else None);
      files := files[id := f];
      logged := logged + [if written == size then Some(e) else None];
      if SeenAsShort(written, size) { return ERRFILACCESS; }
      return 0;
    }

    /** tpclog_clear_log; the removal of file REMOVED is the first to fail, if it is attempted. The log is in
        order again exactly when no removal failed or the very first did; otherwise nothing that is left can be
        reached any more, since iteration and recovery both look for file 0. */
    method Clear(removed: nat, errno: int) returns (err: int)
      requires Valid() && errno != 0
      modifies this`files, this`nextid, this`logged
      ensures old(nextid) <= removed ==> Valid() && logged == [] && err == 0
      ensures removed < old(nextid) ==> err == errno && nextid == old(nextid) && logged == old(logged)
      ensures forall i: nat :: i in files <==> removed <= i < |old(logged)|
      ensures forall i: nat :: i in files ==> files[i] == old(files)[i]
      ensures Valid() <==> old(nextid) <= removed || removed == 0
      ensures 0 in files <==> removed == 0 < old(nextid)
    {
      var count: nat := 0;
      while count in files
        invariant count <= |logged| && count <= removed && logged == old(logged) && nextid == old(nextid)
        invariant forall i: nat :: i in files <==> count <= i < |logged|
        invariant forall i: nat :: i in files ==> files[i] == old(files)[i]
        decreases |logged| - count
      {
        if count == removed {
          assert 0 < removed ==> 0 !in files;
          return errno;
        }
        files := files - {count};
        count := count + 1;
      }
      nextid := 0;
      logged := [];
      return 0;
    }

    predicate HasNext()
      reads this
    {
      iterpos in files
    }

    /** tpclog_iterate_next: the entry at the iteration position, which moves on. */
    method Next() returns (r: Option<Entry>)
      requires Valid()
      modifies this`iterpos
      ensures Valid()
      ensures old(iterpos) < nextid ==> r == logged[old(iterpos)] && iterpos == old(iterpos) + 1
      ensures old(iterpos) >= nextid ==> r == None && iterpos == old(iterpos)
    {
      if !HasNext() { return None; }
      r := Decode(files[iterpos]);
      iterpos := iterpos + 1;
    }

    /** The iteration idiom: exactly what was logged since the last clear, in order. */
    method Replay() returns (all: seq<Option<Entry>>)
      requires Valid()
      modifies this`iterpos
      ensures Valid() && all == logged
    {
      iterpos := 0;
      all := [];
      while HasNext()
        invariant Valid() && iterpos <= nextid && all == logged[..iterpos]
        decreases nextid - iterpos
      {
        var e := Next();
        all := all + [e];
      }
    }
  }

  function Message(typ: MsgType, key: CString, value: CString): Entry
    requires typ != Other
  {
    match typ
    case PutReq => Put(key, value)
    case DelReq => Del(key)
    case Abort => Aborted
    case Commit => Committed
  }
}
