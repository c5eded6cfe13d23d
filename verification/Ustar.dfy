/** ustar archive headers (pintos/src/lib/ustar.c), in the ustar Interchange Format of the "pax"
    utility of SUSv3: making a header, parsing one, and the round trip. */
module Ustar {
  import opened Options
  import opened Bytes
  import opened Format

  const HEADER_SIZE: nat := 512
  const REGULAR: Byte := 48      // '0'
  const DIRECTORY: Byte := 53    // '5'
  const SLASH: Byte := 47
  const DOT: Byte := 46
  const ULONG_MAX: nat := 0xFFFF_FFFF
  const INT_MAX: nat := 0x7FFF_FFFF
  const USTAR: seq<Byte> := [117, 115, 116, 97, 114]
  const ROOT: seq<Byte> := [114, 111, 111, 116]
  const MTIME: nat := 1136102400

  // ---------- names

  predicate StartsWith(s: seq<Byte>, p: seq<Byte>) { |p| <= |s| && s[..|p|] == p }

  predicate Antisocial(s: Text) {
    StartsWith(s, [SLASH]) || StartsWith(s, [DOT, SLASH]) || StartsWith(s, [DOT, DOT, SLASH])
  }

  /** S behind its first slash. */
  function BehindSlash(s: Text): (r: Text)
    requires SLASH in s
    ensures |r| < |s|
  {
    if s[0] == SLASH then s[1..] else BehindSlash(s[1..])
  }

  lemma AntisocialHasSlash(s: Text)
    requires Antisocial(s)
    ensures SLASH in s
  {
    if StartsWith(s, [SLASH]) { assert s[0] == SLASH; }
    else if StartsWith(s, [DOT, SLASH]) { assert s[..2][1] == SLASH; }
    else { assert s[..3][2] == SLASH; }
  }

  /** The stripped name: no dangerous prefix, and a name in any case. */
  function Stripped(s: Text): (r: Text)
    decreases |s|
  {
    if Antisocial(s) then AntisocialHasSlash(s); Stripped(BehindSlash(s))
    else if s == [] || s == [DOT, DOT] then [DOT] else s
  }

  lemma {:induction false} StrippedIsSafe(s: Text)
    ensures !Antisocial(Stripped(s)) && Stripped(s) != [] && Stripped(s) != [DOT, DOT]
    ensures |Stripped(s)| <= |s| || Stripped(s) == [DOT]
    decreases |s|
  {
    if Antisocial(s) {
      AntisocialHasSlash(s);
      StrippedIsSafe(BehindSlash(s));
    } else {
      assert [DOT][..1][0] != SLASH;
    }
  }

  /** The prefixes that are dropped: "/", "./" and "../". */
  predicate Dropped(p: seq<Byte>) { p == [SLASH] || p == [DOT, SLASH] || p == [DOT, DOT, SLASH] }

  function Joined(ps: seq<seq<Byte>>): seq<Byte> { if ps == [] then [] else ps[0] + Joined(ps[1..]) }

  lemma BehindPrefix(s: Text, p: seq<Byte>)
    requires Dropped(p) && p <= s
    ensures SLASH in s && Antisocial(s) && BehindSlash(s) == s[|p|..]
  {
    assert s[|p| - 1] == p[|p| - 1] == SLASH;
    assert s[..|p|] == p;
    if |p| == 2 {
      BehindDot(s);
      assert s[1..][1..] == s[2..];
    } else if |p| == 3 {
      var u := s[1..];
      assert u[1] == SLASH && u[0] == p[1];
      BehindDot(s);
      BehindDot(u);
      assert u[1..][1..] == s[3..];
    }
  }

  lemma BehindDot(s: Text)
    requires s != [] && s[0] == DOT && SLASH in s[1..]
    ensures SLASH in s && BehindSlash(s) == BehindSlash(s[1..])
  {
  }

  lemma DangerousPrefix(s: Text) returns (p: seq<Byte>)
    requires Antisocial(s)
    ensures Dropped(p) && p <= s
  {
    p := if StartsWith(s, [SLASH]) then [SLASH] else if StartsWith(s, [DOT, SLASH]) then [DOT, SLASH] else [DOT, DOT, SLASH];
  }

  /** What stripping does: as many of the dangerous prefixes as there are go, and nothing else; what remains is the
      name, or "." if nothing or ".." remains. */
  lemma {:induction false} StrippedIsRest(s: Text) returns (ps: seq<seq<Byte>>, t: Text)
    ensures s == Joined(ps) + t && (forall p :: p in ps ==> Dropped(p)) && (forall p :: Dropped(p) ==> !(p <= t))
    ensures Stripped(s) == if t == [] || t == [DOT, DOT] then [DOT] else t
    decreases |s|
  {
    hide Stripped, Joined, BehindSlash, Antisocial, Dropped;
    if Antisocial(s) {
      var p := DangerousPrefix(s);
      StripOne(s, p);
      var qs, u := StrippedIsRest(s[|p|..]);
      ps, t := [p] + qs, u;
      JoinOne(s, p, qs, t);
    } else {
      ps, t := [], s;
      StripNone(s);
    }
  }

  lemma StripOne(s: Text, p: seq<Byte>)
    requires Dropped(p) && p <= s
    ensures p != [] && Stripped(s) == Stripped(s[|p|..])
  {
    BehindPrefix(s, p);
  }

  lemma JoinOne(s: Text, p: seq<Byte>, qs: seq<seq<Byte>>, t: Text)
    requires p <= s && s[|p|..] == Joined(qs) + t
    ensures s == Joined([p] + qs) + t
  {
    assert ([p] + qs)[1..] == qs && s == p + s[|p|..];
    assert p + (Joined(qs) + t) == (p + Joined(qs)) + t;
  }

  lemma StripNone(s: Text)
    requires !Antisocial(s)
    ensures s == Joined([]) + s && forall p :: Dropped(p) ==> !(p <= s)
    ensures Stripped(s) == if s == [] || s == [DOT, DOT] then [DOT] else s
  {
    forall p | Dropped(p) ensures !(p <= s) { if p <= s { BehindPrefix(s, p); } }
  }

  /** Stripping again changes nothing. */
  lemma StripTwice(s: Text)
    ensures Stripped(Stripped(s)) == Stripped(s)
  {
    StrippedIsSafe(s);
  }

  /** strip_antisocial_prefixes */
  method Strip(name0: Text) returns (name: Text)
    ensures name == Stripped(name0)
  {
    name := name0;
    while Antisocial(name)
      invariant Stripped(name) == Stripped(name0)
      decreases |name|
    {
      AntisocialHasSlash(name);
      name := BehindSlash(name);
    }
    if name == [] || name == [DOT, DOT] { name := [DOT]; }
  }

  // ---------- octal fields

  /** The value of the octal field S from OFS on, with VALUE read so far. */
  function ParseFrom(s: seq<Byte>, ofs: nat, value: nat): Option<nat>
    requires ofs <= |s|
    decreases |s| - ofs
  {
    if ofs == |s| then None
    else if 48 <= s[ofs] <= 55 then
      if value > ULONG_MAX / 8 then None else ParseFrom(s, ofs + 1, s[ofs] - 48 + value * 8)
    else if s[ofs] == SPACE || s[ofs] == 0 then
      if ofs > 0 then Some(value) else None
    else None
  }

  predicate Digits(s: seq<Byte>) { forall i :: 0 <= i < |s| ==> 48 <= s[i] <= 55 }

  /** The number that the octal digits S stand for. */
  function OctalValue(s: seq<Byte>): nat
    requires Digits(s)
  {
    if s == [] then 0 else OctalValue(s[..|s| - 1]) * 8 + (s[|s| - 1] - 48)
  }

  /** S is a field that ends at K: at least one octal digit, then a space or a null byte. */
  predicate EndsAt(s: seq<Byte>, k: nat) {
    0 < k < |s| && Digits(s[..k]) && (s[k] == SPACE || s[k] == 0)
  }

  /** V is the number in the field S, which ends at K, and fits in an unsigned long. */
  predicate FieldHolds(s: seq<Byte>, k: nat, v: nat) {
    EndsAt(s, k) && OctalValue(s[..k]) == v <= ULONG_MAX
  }

  lemma OneMore(s: seq<Byte>, k: nat)
    requires k < |s| && Digits(s[..k + 1])
    ensures Digits(s[..k]) && 48 <= s[k] <= 55 && OctalValue(s[..k + 1]) == OctalValue(s[..k]) * 8 + (s[k] - 48)
  {
    assert s[..k + 1][..k] == s[..k] && s[..k + 1][k] == s[k];
    forall i | 0 <= i < k ensures 48 <= s[..k][i] <= 55 { assert s[..k][i] == s[..k + 1][i]; }
  }

  lemma {:induction false} ValueGrows(s: seq<Byte>, j: nat, k: nat)
    requires j <= k <= |s| && Digits(s[..k])
    ensures Digits(s[..j]) && OctalValue(s[..j]) <= OctalValue(s[..k])
    decreases k
  {
    if j < k {
      OneMore(s, k - 1);
      ValueGrows(s, j, k - 1);
    }
  }

  /** What the rest of the loop finds: the only place where the field can end decides. */
  lemma {:induction false} ParseRest(s: seq<Byte>, ofs: nat, value: nat, k: nat)
    requires ofs <= |s| && Digits(s[..ofs]) && value == OctalValue(s[..ofs]) <= ULONG_MAX
    ensures ParseFrom(s, ofs, value).Some? ==> exists j :: FieldHolds(s, j, ParseFrom(s, ofs, value).value)
    ensures ofs <= k && EndsAt(s, k) && OctalValue(s[..k]) <= ULONG_MAX ==> ParseFrom(s, ofs, value) == Some(OctalValue(s[..k]))
    decreases |s| - ofs
  {
    if ofs < |s| {
      if 48 <= s[ofs] <= 55 {
        assert Digits(s[..ofs + 1]);
        OneMore(s, ofs);
        if ofs < k && EndsAt(s, k) { ValueGrows(s, ofs + 1, k); }
        if value <= ULONG_MAX / 8 { ParseRest(s, ofs + 1, s[ofs] - 48 + value * 8, k); }
      } else {
        assert ofs < k <= |s| ==> s[..k][ofs] == s[ofs];
        if ofs > 0 && (s[ofs] == SPACE || s[ofs] == 0) { assert FieldHolds(s, ofs, value); }
      }
    }
  }

  /** parse_octal_field: a number is returned exactly when it is the one the field holds. */
  lemma ParseIsValue(s: seq<Byte>, v: nat)
    ensures ParseFrom(s, 0, 0) == Some(v) <==> exists k :: FieldHolds(s, k, v)
  {
    hide ParseFrom;
    ParseRest(s, 0, 0, 0);
    if k :| FieldHolds(s, k, v) { ParseRest(s, 0, 0, k); }
    if ParseFrom(s, 0, 0) == Some(v) { assert exists k :: FieldHolds(s, k, v); }
  }

  /** parse_octal_field */
  method ParseOctalField(s: seq<Byte>) returns (r: Option<nat>)
    ensures r == ParseFrom(s, 0, 0)
    ensures forall v: nat :: r == Some(v) <==> exists k :: FieldHolds(s, k, v)
  {
    forall v: nat ensures ParseFrom(s, 0, 0) == Some(v) <==> exists k :: FieldHolds(s, k, v) { ParseIsValue(s, v); }
    hide FieldHolds;
    var value: nat, ofs := 0, 0;
    while ofs < |s|
      invariant ofs <= |s| && value <= ULONG_MAX && ParseFrom(s, 0, 0) == ParseFrom(s, ofs, value)
    {
      var c := s[ofs];
      if 48 <= c <= 55 {
        if value > ULONG_MAX / 8 { return None; }
        value := c - 48 + value * 8;
      } else if c == SPACE || c == 0 {
        return if ofs > 0 then Some(value) else None;
      } else {
        return None;
      }
      ofs := ofs + 1;
    }
    return None;
  }

  lemma ShiftDigit(high: nat, p: nat, n: nat)
    ensures (high * p + n / 8) * 8 + n % 8 == high * (8 * p) + n
  {
    assert high * (8 * p) == 8 * (high * p);
  }

  /** Reading the octal digits of N gives N back. */
  lemma {:induction false} ParseDigits(s: seq<Byte>, ofs: nat, w: nat, n: nat, high: nat, total: nat)
    requires ofs + w < |s| && s[ofs..ofs + w] == Octal(n, w) && n < Pow8(w) && total == high * Pow8(w) + n <= ULONG_MAX
    ensures ParseFrom(s, ofs, high) == ParseFrom(s, ofs + w, total)
    decreases w
  {
    if w > 0 {
      var p, last := Pow8(w - 1), ofs + w - 1;
      ShiftDigit(high, p, n);
      var v := high * p + n / 8;
      assert s[ofs..last] == Octal(n / 8, w - 1) by { assert s[ofs..last] == s[ofs..ofs + w][..w - 1]; }
      assert s[last] == s[ofs..ofs + w][w - 1] == 48 + n % 8;
      assert total == v * 8 + n % 8;
      ParseDigits(s, ofs, w - 1, n / 8, high, v);
    }
  }

  /** A field of W octal digits and a null byte parses to the number printed. */
  lemma OctalRoundTrip(s: seq<Byte>, w: nat, n: nat)
    requires |s| == w + 1 && 0 < w && s == Octal(n, w) + [0] && n < Pow8(w) && n <= ULONG_MAX
    ensures ParseFrom(s, 0, 0) == Some(n)
  {
    hide Octal, Pow8;
    assert s[0..0 + w] == Octal(n, w);
    ParseDigits(s, 0, w, n, 0, n);
    assert s[w] == 0;
  }

  // ---------- the header

  /** The sum of the first N bytes, the checksum field counted as spaces. */
  function SumTo(h: seq<Byte>, n: nat): nat
    requires n <= |h|
  {
    if n == 0 then 0 else SumTo(h, n - 1) + if 148 <= n - 1 < 156 then SPACE else h[n - 1]
  }

  /** calculate_chksum */
  method CalculateChksum(h: array<Byte>) returns (chksum: nat)
    requires h.Length == HEADER_SIZE
    ensures chksum == SumTo(h[..], HEADER_SIZE)
  {
    chksum := 0;
    var i := 0;
    while i < HEADER_SIZE
      invariant 0 <= i <= HEADER_SIZE && chksum == SumTo(h[..], i)
    {
      chksum := chksum + if 148 <= i < 156 then SPACE else h[i];
      i := i + 1;
    }
  }

  /** The checksum does not depend on its own field, and fits in it. */
  lemma {:induction false} SumSame(h: seq<Byte>, g: seq<Byte>, n: nat)
    requires n <= |h| == |g| && forall k :: 0 <= k < n && !(148 <= k < 156) ==> h[k] == g[k]
    ensures SumTo(h, n) == SumTo(g, n) <= 255 * n
  {
    if n > 0 { SumSame(h, g, n - 1); }
  }

  /** Byte J of a field that holds S and then null bytes. */
  function In(s: seq<Byte>, j: int): Byte
    requires 0 <= j
  {
    if j < |s| then s[j] else 0
  }

  function Mode(typ: Byte): nat { if typ == REGULAR then 0x1A4 else 0x1ED }    // 0644, 0755

  /** SIZE as the unsigned conversion sees it. */
  function Unsigned(size: int): nat
    requires -0x8000_0000 <= size <= INT_MAX
  {
    if size < 0 then size + 0x1_0000_0000 else size
  }

  /** Byte K of the header of a file, with CHK in the checksum field. */
  function HeaderByte(name: Text, typ: Byte, size: nat, chk: seq<Byte>, k: nat): Byte
    requires k < HEADER_SIZE
  {
    if k < 100 then In(name, k)
    else if k < 108 then In(Octal(Mode(typ), 7), k - 100)
    else if k < 116 then In(Repeat(ZERO_DIGIT, 7), k - 108)
    else if k < 124 then In(Repeat(ZERO_DIGIT, 7), k - 116)
    else if k < 136 then In(Octal(size, 11), k - 124)
    else if k < 148 then In(Octal(MTIME, 11), k - 136)
    else if k < 156 then In(chk, k - 148)
    else if k == 156 then typ
    else if k < 257 then 0
    else if k < 263 then In(USTAR, k - 257)
    else if k < 265 then ZERO_DIGIT
    else if k < 297 then In(ROOT, k - 265)
    else if k < 329 then In(ROOT, k - 297)
    else 0
  }

  function Unchecked(name: Text, typ: Byte, size: nat, chk: seq<Byte>): (h: seq<Byte>)
    ensures |h| == HEADER_SIZE
  {
    seq(HEADER_SIZE, k requires 0 <= k < HEADER_SIZE => HeaderByte(name, typ, size, chk, k))
  }

  /** The header of a file: its bytes, with their checksum in octal. */
  function Header(name: Text, typ: Byte, size: nat): (h: seq<Byte>)
    ensures |h| == HEADER_SIZE
  {
    Unchecked(name, typ, size, Octal(SumTo(Unchecked(name, typ, size, []), HEADER_SIZE), 7))
  }

  /** strlcpy or snprintf of S into the SIZE bytes of H from AT on. */
  method PutString(h: array<Byte>, at: nat, size: nat, s: seq<Byte>)
    requires 0 < size && at + size <= h.Length
    modifies h
    ensures var n := if |s| < size then |s| else size - 1;
      forall k :: 0 <= k < h.Length ==>
        h[k] == if at <= k < at + n then s[k - at] else if k == at + n then 0 else old(h[k])
  {
    var n := if |s| < size then |s| else size - 1;
    var i := 0;
    while i < n
      invariant 0 <= i <= n
      invariant forall k :: 0 <= k < h.Length ==> h[k] == if at <= k < at + i then s[k - at] else old(h[k])
    {
      h[at + i] := s[i];
      i := i + 1;
    }
    h[at + n] := 0;
  }

  /** snprintf of N with %0Wo into a field of W + 1 bytes. */
  method PutOctal(h: array<Byte>, at: nat, w: nat, n: nat)
    requires 0 < w < 22 && at + w < h.Length && n < Pow8(w) && n < UINTMAX_LIMIT
    modifies h
    ensures forall k :: 0 <= k < h.Length ==> h[k] == if at <= k <= at + w then In(Octal(n, w), k - at) else old(h[k])
  {
    var out := FormatInteger(n, 8, w, -1, false, true);
    PaddedOctal(n, w);
    PutString(h, at, w + 1, out);
  }

  /** The first B bytes of H are those of the header without checksum, the others are null. */
  ghost predicate FilledTo(h: seq<Byte>, name: Text, typ: Byte, size: nat, b: nat) {
    |h| == HEADER_SIZE && forall k :: 0 <= k < HEADER_SIZE ==> h[k] == if k < b then HeaderByte(name, typ, size, [], k) else 0
  }

  lemma FieldWritten(h: seq<Byte>, g: seq<Byte>, name: Text, typ: Byte, size: nat, at: nat, b: nat)
    requires FilledTo(h, name, typ, size, at) && at <= b <= HEADER_SIZE == |g|
    requires forall k :: 0 <= k < HEADER_SIZE && !(at <= k < b) ==> g[k] == h[k]
    requires forall k :: at <= k < b ==> g[k] == HeaderByte(name, typ, size, [], k)
    ensures FilledTo(g, name, typ, size, b)
  {
  }

  method FillFront(h: array<Byte>, name: Text, typ: Byte, size: nat)
    requires h.Length == HEADER_SIZE && |name| <= 99 && size <= ULONG_MAX
    modifies h
    ensures FilledTo(h[..], name, typ, size, 156)
  {
    var i := 0;
    while i < HEADER_SIZE
      invariant 0 <= i <= HEADER_SIZE && forall k :: 0 <= k < i ==> h[k] == 0
    {
      h[i] := 0;
      i := i + 1;
    }
    Pow8Small();
    PutString(h, 0, 100, name);
    assert FilledTo(h[..], name, typ, size, 100);
    ghost var g := h[..];
    PutOctal(h, 100, 7, Mode(typ));
    FieldWritten(g, h[..], name, typ, size, 100, 108);
    g := h[..];
    PutString(h, 108, 8, Repeat(ZERO_DIGIT, 7));
    FieldWritten(g, h[..], name, typ, size, 108, 116);
    g := h[..];
    PutString(h, 116, 8, Repeat(ZERO_DIGIT, 7));
    FieldWritten(g, h[..], name, typ, size, 116, 124);
    g := h[..];
    PutOctal(h, 124, 11, size);
    FieldWritten(g, h[..], name, typ, size, 124, 136);
    g := h[..];
    PutOctal(h, 136, 11, MTIME);
    FieldWritten(g, h[..], name, typ, size, 136, 156);
  }

  lemma Pow8Small()
    ensures Pow8(7) == 0x20_0000 && Pow8(11) == 0x2_0000_0000
  {
    assert Pow8(7) == 0x20_0000;
  }

  method FillBack(h: array<Byte>, name: Text, typ: Byte, size: nat)
    requires h.Length == HEADER_SIZE && FilledTo(h[..], name, typ, size, 156)
    modifies h
    ensures h[..] == Unchecked(name, typ, size, [])
  {
    ghost var g := h[..];
    h[156] := typ;
    FieldWritten(g, h[..], name, typ, size, 156, 257);
    g := h[..];
    PutString(h, 257, 6, USTAR);
    FieldWritten(g, h[..], name, typ, size, 257, 263);
    g := h[..];
    h[263] := ZERO_DIGIT;
    h[264] := ZERO_DIGIT;
    FieldWritten(g, h[..], name, typ, size, 263, 265);
    g := h[..];
    PutString(h, 297, 32, ROOT);
    PutString(h, 265, 32, ROOT);
    FieldWritten(g, h[..], name, typ, size, 265, HEADER_SIZE);
  }

  /** ustar_make_header: fails exactly when the stripped name is too long, and then leaves HEADER alone. */
  method MakeHeader(fileName: Text, typ: Byte, size: int, header: array<Byte>) returns (ok: bool)
    requires header.Length == HEADER_SIZE && (typ == REGULAR || typ == DIRECTORY) && -0x8000_0000 <= size <= INT_MAX
    modifies header
    ensures ok <==> |Stripped(fileName)| <= 99
    ensures header[..] == if ok then Header(Stripped(fileName), typ, Unsigned(size)) else old(header[..])
  {
    var name := Strip(fileName);
    if |name| > 99 { return false; }
    FillFront(header, name, typ, Unsigned(size));
    FillBack(header, name, typ, Unsigned(size));
    ghost var u := Unchecked(name, typ, Unsigned(size), []);
    var chksum := CalculateChksum(header);
    SumSame(u, u, HEADER_SIZE);
    Pow8Small();
    PutOctal(header, 148, 7, chksum);
    assert forall k :: 0 <= k < HEADER_SIZE ==> header[k] == HeaderByte(name, typ, Unsigned(size), Octal(chksum, 7), k);
    return true;
  }

  // ---------- parsing

  datatype Parsed = Eof | Bad(reason: string) | File(name: Text, typ: Byte, size: nat)

  ghost predicate AllZeros(h: seq<Byte>) { forall k :: 0 <= k < |h| ==> h[k] == 0 }

  /** The verdict on the header H, in the order in which it is checked. */
  ghost function Parse(h: seq<Byte>): Parsed
    requires |h| == HEADER_SIZE
  {
    var chksum := ParseFrom(h[148..156], 0, 0);
    var size := ParseFrom(h[124..136], 0, 0);
    if AllZeros(h) then Eof
    else if h[257..263] != USTAR + [0] then Bad("not a ustar archive")
    else if h[263] != ZERO_DIGIT || h[264] != ZERO_DIGIT then Bad("invalid ustar version")
    else if chksum.None? then Bad("corrupt chksum field")
    else if chksum.value != SumTo(h, HEADER_SIZE) then Bad("checksum mismatch")
    else if h[99] != 0 || h[345] != 0 then Bad("file name too long")
    else if h[156] == REGULAR then
      if size.None? then Bad("corrupt file size field")
      else if size.value > INT_MAX then Bad("file too large")
      else File(Stripped(TextOf(h[0..100])), REGULAR, size.value)
    else if h[156] == DIRECTORY then File(Stripped(TextOf(h[0..100])), DIRECTORY, 0)
    else Bad("unimplemented file type")
  }

  method IsAllZeros(h: array<Byte>) returns (r: bool)
    ensures r == AllZeros(h[..])
  {
    var i := 0;
    while i < h.Length
      invariant 0 <= i <= h.Length && forall k :: 0 <= k < i ==> h[k] == 0
    {
      if h[i] != 0 { return false; }
      i := i + 1;
    }
    return true;
  }

  /** What is demanded of a header of a file: the magic and the version, its own checksum in the checksum field, a
      terminated name without a prefix, a type that is known and, for a regular file, a size that is an int. */
  ghost predicate Acceptable(h: seq<Byte>)
    requires |h| == HEADER_SIZE
  {
    && h[257..263] == USTAR + [0] && h[263] == h[264] == ZERO_DIGIT
    && (exists k :: FieldHolds(h[148..156], k, SumTo(h, HEADER_SIZE)))
    && h[99] == 0 && h[345] == 0
    && (h[156] == DIRECTORY || (h[156] == REGULAR && exists k: nat, n: nat :: FieldHolds(h[124..136], k, n) && n <= INT_MAX))
  }

  /** What is known of a file from an archive, whoever made it. */
  ghost predicate Safe(h: seq<Byte>, name: Text, typ: Byte, size: nat)
    requires |h| == HEADER_SIZE
  {
    && !Antisocial(name) && name != [] && name != [DOT, DOT] && |name| <= 99 && name == Stripped(TextOf(h[0..100]))
    && typ == h[156] && size <= INT_MAX
    && if typ == REGULAR then exists k :: FieldHolds(h[124..136], k, size) else typ == DIRECTORY && size == 0
  }

  lemma {:induction false} TextIsShort(raw: seq<Byte>, n: nat)
    requires n < |raw| && raw[n] == 0
    ensures |TextOf(raw)| <= n
  {
    if raw[0] != 0 { TextIsShort(raw[1..], n - 1); }
  }

  lemma AcceptedName(h: seq<Byte>)
    requires |h| == HEADER_SIZE && h[99] == 0
    ensures var name := Stripped(TextOf(h[0..100]));
      !Antisocial(name) && name != [] && name != [DOT, DOT] && |name| <= 99
  {
    hide Antisocial, Stripped;
    TextIsShort(h[0..100], 99);
    StrippedIsSafe(TextOf(h[0..100]));
  }

  /** Of all headers, exactly the acceptable ones are taken for a file, and the file is then safe to extract. */
  lemma ParseSound(h: seq<Byte>)
    requires |h| == HEADER_SIZE
    ensures Parse(h).File? <==> Acceptable(h)
    ensures Parse(h).File? ==> Safe(h, Parse(h).name, Parse(h).typ, Parse(h).size)
    ensures Parse(h).Eof? <==> AllZeros(h)
  {
    hide SumTo, ParseFrom, FieldHolds, Stripped, Antisocial;
    ParseIsValue(h[148..156], SumTo(h, HEADER_SIZE));
    if h[99] == 0 { AcceptedName(h); }
    var size := h[124..136];
    if k: nat, n: nat :| FieldHolds(size, k, n) && n <= INT_MAX { ParseIsValue(size, n); }
    if ParseFrom(size, 0, 0).Some? { ParseIsValue(size, ParseFrom(size, 0, 0).value); }
    assert h[263] == ZERO_DIGIT ==> !AllZeros(h);
  }

  /** ustar_parse_header */
  method ParseHeader(h: array<Byte>) returns (r: Parsed)
    requires h.Length == HEADER_SIZE
    ensures r == Parse(h[..]) && (r.File? <==> Acceptable(h[..])) && (r.Eof? <==> AllZeros(h[..]))
    ensures r.File? ==> Safe(h[..], r.name, r.typ, r.size)
  {
    hide SumTo, ParseFrom, FieldHolds, Stripped, Acceptable, Safe;
    ParseSound(h[..]);
    var eof := IsAllZeros(h);
    if eof { return Eof; }
    if h[257..263] != USTAR + [0] { return Bad("not a ustar archive"); }
    if h[263] != ZERO_DIGIT || h[264] != ZERO_DIGIT { return Bad("invalid ustar version"); }
    assert h[148..156] == h[..][148..156] && h[124..136] == h[..][124..136] && h[0..100] == h[..][0..100];
    var chksum := ParseOctalField(h[148..156]);
    if chksum.None? { return Bad("corrupt chksum field"); }
    var sum := CalculateChksum(h);
    if chksum.value != sum { return Bad("checksum mismatch"); }
    if h[99] != 0 || h[345] != 0 { return Bad("file name too long"); }
    if h[156] != REGULAR && h[156] != DIRECTORY { return Bad("unimplemented file type"); }
    var size := 0;
    if h[156] == REGULAR {
      var field := ParseOctalField(h[124..136]);
      if field.None? { return Bad("corrupt file size field"); }
      if field.value > INT_MAX { return Bad("file too large"); }
      size := field.value;
    }
    var name := Strip(TextOf(h[0..100]));
    return File(name, h[156], size);
  }

  /** Every header made parses, to the stripped name, the type and the size, 0 for a directory; only
      a negative size, printed as a large unsigned number, is refused. */
  lemma RoundTrip(fileName: Text, typ: Byte, size: int)
    requires |Stripped(fileName)| <= 99 && (typ == REGULAR || typ == DIRECTORY) && -0x8000_0000 <= size <= INT_MAX
    ensures Parse(Header(Stripped(fileName), typ, Unsigned(size))) ==
      if typ == DIRECTORY then File(Stripped(fileName), DIRECTORY, 0)
      else if size < 0 then Bad("file too large")
      else File(Stripped(fileName), REGULAR, size)
  {
    var name, n := Stripped(fileName), Unsigned(size);
    var h := Header(name, typ, n);
    StripTwice(fileName);
    HeaderFields(name, typ, n);
    HeaderSum(name, typ, n);
    NameField(name, h);
    Pow8Small();
    OctalRoundTrip(h[124..136], 11, n);
    assert h[263] != 0;
    hide SumTo, Header, Octal, ParseFrom, Pow8;
  }

  lemma HeaderFields(name: Text, typ: Byte, n: nat)
    requires |name| <= 99
    ensures var h := Header(name, typ, n);
      && h[124..136] == Octal(n, 11) + [0] && h[257..263] == USTAR + [0] && h[263] == h[264] == ZERO_DIGIT
      && h[99] == 0 && h[345] == 0 && h[156] == typ
      && (forall k :: 0 <= k < 100 ==> h[k] == In(name, k))
  {
  }

  /** The checksum in the field is the checksum of the header. */
  lemma HeaderSum(name: Text, typ: Byte, n: nat)
    ensures var h := Header(name, typ, n); ParseFrom(h[148..156], 0, 0) == Some(SumTo(h, HEADER_SIZE))
  {
    var h, u := Header(name, typ, n), Unchecked(name, typ, n, []);
    var sum := SumTo(u, HEADER_SIZE);
    SumSame(h, u, HEADER_SIZE);
    Pow8Small();
    assert h[148..156] == Octal(sum, 7) + [0];
    OctalRoundTrip(h[148..156], 7, sum);
  }

  lemma NameField(name: Text, h: seq<Byte>)
    requires |name| <= 99 && |h| == HEADER_SIZE && forall k :: 0 <= k < 100 ==> h[k] == In(name, k)
    ensures TextOf(h[0..100]) == name
  {
    assert h[0..100] == name + [0] + h[|name| + 1..100];
    TextThenNull(name, h[|name| + 1..100]);
  }

  // ---------- the layout, field by field

  function Total(s: seq<Byte>): nat { if s == [] then 0 else Total(s[..|s| - 1]) + s[|s| - 1] }

  lemma {:induction false} SumFront(h: seq<Byte>, n: nat)
    requires n <= |h| && n <= 148
    ensures SumTo(h, n) == Total(h[..n])
  {
    if n > 0 {
      SumFront(h, n - 1);
      assert h[..n][..n - 1] == h[..n - 1];
    }
  }

  lemma {:induction false} SumField(h: seq<Byte>, n: nat)
    requires 148 <= n <= |h| && n <= 156
    ensures SumTo(h, n) == Total(h[..148]) + 32 * (n - 148)
  {
    if n > 148 { SumField(h, n - 1); } else { SumFront(h, 148); }
  }

  lemma {:induction false} SumBack(h: seq<Byte>, n: nat)
    requires 156 <= n <= |h|
    ensures SumTo(h, n) == Total(h[..148]) + 256 + Total(h[156..n])
  {
    if n > 156 {
      SumBack(h, n - 1);
      assert h[156..n][..n - 157] == h[156..n - 1];
    } else {
      SumField(h, 156);
    }
  }

  /** The checksum is that of the header with eight blanks in its own field. */
  lemma ChecksumIs(h: seq<Byte>)
    requires |h| == 512
    ensures SumTo(h, HEADER_SIZE) == Total(h[..148]) + 8 * 32 + Total(h[156..])
  {
    SumBack(h, 512);
    assert h[156..512] == h[156..];
  }

  lemma {:induction false} OctalIsValue(n: nat, w: nat)
    requires n < Pow8(w)
    ensures Digits(Octal(n, w)) && OctalValue(Octal(n, w)) == n
    decreases w
  {
    if w > 0 {
      OctalIsValue(n / 8, w - 1);
      var s := Octal(n, w);
      assert s[..w - 1] == Octal(n / 8, w - 1) && s[w - 1] == 48 + n % 8;
    }
  }

  /** The octal field of W digits and a null byte from AT on holds N. */
  predicate OctalAt(h: seq<Byte>, at: nat, w: nat, n: nat) {
    at + w < |h| && Digits(h[at..at + w]) && OctalValue(h[at..at + w]) == n && h[at + w] == 0
  }

  /** The field of SIZE bytes from AT on holds S and then null bytes. */
  ghost predicate TextAt(h: seq<Byte>, at: nat, size: nat, s: seq<Byte>) {
    at + size <= |h| && |s| <= size && h[at..at + |s|] == s && forall k :: at + |s| <= k < at + size ==> h[k] == 0
  }

  lemma OctalField(h: seq<Byte>, at: nat, w: nat, n: nat)
    requires at + w < |h| && n < Pow8(w) && forall k :: at <= k <= at + w ==> h[k] == In(Octal(n, w), k - at)
    ensures OctalAt(h, at, w, n)
  {
    OctalIsValue(n, w);
    assert h[at..at + w] == Octal(n, w);
  }

  /** The header, field by field: name, mode, owner and group 0, size, a fixed time, type, magic and version, and
      twice "root". */
  lemma HeaderLayout(name: Text, typ: Byte, size: nat)
    requires |name| <= 99 && size <= ULONG_MAX
    ensures var h := Header(name, typ, size);
      && TextAt(h, 0, 100, name) && OctalAt(h, 100, 7, if typ == 48 then 420 else 493)
      && OctalAt(h, 108, 7, 0) && OctalAt(h, 116, 7, 0) && OctalAt(h, 124, 11, size) && OctalAt(h, 136, 11, 1136102400)
      && OctalAt(h, 148, 7, Total(h[..148]) + 8 * 32 + Total(h[156..]))
      && h[156] == typ && TextAt(h, 157, 100, []) && TextAt(h, 257, 6, [117, 115, 116, 97, 114])
      && h[263] == h[264] == 48 && TextAt(h, 265, 32, [114, 111, 111, 116]) && TextAt(h, 297, 32, [114, 111, 111, 116])
      && TextAt(h, 329, 183, [])
  {
    hide OctalAt, TextAt, Octal, Unchecked, SumTo, Total;
    var h := Header(name, typ, size);
    ChecksumField(name, typ, size);
    ChecksumIs(h);
    LayoutFront(name, typ, size, Octal(SumTo(Unchecked(name, typ, size, []), HEADER_SIZE), 7));
  }

  lemma ChecksumField(name: Text, typ: Byte, size: nat)
    ensures OctalAt(Header(name, typ, size), 148, 7, SumTo(Header(name, typ, size), HEADER_SIZE))
  {
    hide OctalAt, Octal;
    var h, u := Header(name, typ, size), Unchecked(name, typ, size, []);
    Pow8Small();
    SumSame(h, u, HEADER_SIZE);
    OctalField(h, 148, 7, SumTo(u, HEADER_SIZE));
  }

  lemma ZerosOctal()
    ensures Octal(0, 7) == Repeat(ZERO_DIGIT, 7)
  {
    assert Octal(0, 3) == [48, 48, 48];
    assert Octal(0, 5) == [48, 48, 48, 48, 48];
    assert Octal(0, 7) == [48, 48, 48, 48, 48, 48, 48];
  }

  lemma LayoutFront(name: Text, typ: Byte, size: nat, chk: seq<Byte>)
    requires |name| <= 99 && size <= ULONG_MAX
    ensures var h := Unchecked(name, typ, size, chk);
      && TextAt(h, 0, 100, name) && OctalAt(h, 100, 7, if typ == 48 then 420 else 493)
      && OctalAt(h, 108, 7, 0) && OctalAt(h, 116, 7, 0) && OctalAt(h, 124, 11, size) && OctalAt(h, 136, 11, 1136102400)
      && h[156] == typ && TextAt(h, 157, 100, []) && TextAt(h, 257, 6, [117, 115, 116, 97, 114])
      && h[263] == h[264] == 48 && TextAt(h, 265, 32, [114, 111, 111, 116]) && TextAt(h, 297, 32, [114, 111, 111, 116])
      && TextAt(h, 329, 183, [])
  {
    hide Octal, OctalAt, Pow8;
    var h := Unchecked(name, typ, size, chk);
    Pow8Small();
    ZerosOctal();
    OctalField(h, 100, 7, Mode(typ));
    OctalField(h, 108, 7, 0);
    OctalField(h, 116, 7, 0);
    OctalField(h, 124, 11, size);
    OctalField(h, 136, 11, MTIME);
  }
}
