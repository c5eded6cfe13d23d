/** C strings as sequences of nonzero signed characters, and the two-string record that both the
    key-value store and the commit log write to disk: key, NUL, value, NUL. */
module CStrings {
  type Char = c: int | -128 <= c < 128
  type CString = s: seq<Char> | 0 !in s

  function Terminated(s: CString): (data: seq<Char>) { s + [0] }

  /** strlen: the position of the first NUL (the whole length when there is none). */
  function StrLen(data: seq<Char>): (n: nat)
    ensures n <= |data| && 0 !in data[..n] && (n < |data| ==> data[n] == 0)
  {
    if data == [] || data[0] == 0 then 0
    else
      var n := StrLen(data[1..]);
      assert data[..n + 1] == [data[0]] + data[1..][..n];
      n + 1
  }

  /** The string that starts at the front of DATA. */
  function StringAt(data: seq<Char>): (s: CString) { data[..StrLen(data)] }

  /** What follows the first string and its NUL. */
  function After(data: seq<Char>): (rest: seq<Char>) {
    if StrLen(data) < |data| then data[StrLen(data) + 1..] else []
  }

  lemma StrLenUnique(data: seq<Char>, n: nat)
    requires n < |data| && 0 !in data[..n] && data[n] == 0
    ensures StrLen(data) == n
  {
  }

  /** Decoding a terminated string gives the string and what followed it. */
  lemma StringRoundTrip(s: CString, rest: seq<Char>)
    ensures StringAt(Terminated(s) + rest) == s && After(Terminated(s) + rest) == rest
  {
    var data := Terminated(s) + rest;
    assert data[..|s|] == s;
    StrLenUnique(data, |s|);
  }
}
