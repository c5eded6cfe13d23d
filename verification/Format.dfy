/** Unsigned integer conversion as format_integer of pintos/src/lib/stdio.c does it: digits into a
    64-byte buffer backwards, then padding and the digits in order. */
module Format {
  import opened Bytes
  import Arithmetic

  const ZERO_DIGIT: Byte := 48
  const SPACE: Byte := 32
  const BUF_SIZE: nat := 64
  const UINTMAX_LIMIT: nat := 0x1_0000_0000_0000_0000

  function DigitChar(d: nat): Byte
    requires d < 16
  {
    if d < 10 then 48 + d else 87 + d
  }

  /** The digits of VALUE, most significant first; none for zero. */
  function Digits(value: nat, base: nat): seq<Byte>
    requires 8 <= base <= 16
  {
    if value == 0 then [] else Digits(value / base, base) + [DigitChar(value % base)]
  }

  function Repeat(c: Byte, n: int): (r: seq<Byte>)
    ensures |r| == if n < 0 then 0 else n
    ensures forall k :: 0 <= k < |r| ==> r[k] == c
  {
    if n <= 0 then [] else seq(n, _ => c)
  }

  function Wanted(precision: int): nat { if precision < 0 then 1 else if precision < BUF_SIZE then precision else BUF_SIZE - 1 }

  /** At least PRECISION digits (1 when it is negative), as far as the buffer allows. */
  function Body(value: nat, base: nat, precision: int): seq<Byte>
    requires 8 <= base <= 16
  {
    var digits := Digits(value, base);
    Repeat(ZERO_DIGIT, Wanted(precision) - |digits|) + digits
  }

  /** What the conversion puts out: the body, padded to WIDTH on the left with spaces or zeros or on
      the right with spaces. */
  function Formatted(value: nat, base: nat, width: int, precision: int, minus: bool, zero: bool): seq<Byte>
    requires 8 <= base <= 16
  {
    var body := Body(value, base, precision);
    var pad := width - |body|;
    Repeat(SPACE, if minus || zero then 0 else pad) + Repeat(ZERO_DIGIT, if zero then pad else 0) + body
    + Repeat(SPACE, if minus then pad else 0)
  }

  function Pow8(k: nat): nat { if k == 0 then 1 else 8 * Pow8(k - 1) }

  lemma Pow8Fits()
    ensures UINTMAX_LIMIT <= Pow8(22)
  {
    assert Pow8(7) == 0x20_0000;
    assert Pow8(14) == 0x400_0000_0000;
    assert Pow8(21) == 0x8000_0000_0000_0000;
  }

  lemma {:induction false} DigitCount(value: nat, base: nat, k: nat)
    requires 8 <= base <= 16 && value < Pow8(k)
    ensures |Digits(value, base)| <= k
    decreases k
  {
    hide Digits;
    if k == 0 {
      NoDigits(base);
    } else {
      var q := FirstDigit(value, base, Pow8(k - 1));
      DigitCount(q, base, k - 1);
    }
  }

  lemma NoDigits(base: nat)
    requires 8 <= base <= 16
    ensures Digits(0, base) == []
  {
  }

  lemma FirstDigit(value: nat, base: nat, bound: nat) returns (q: nat)
    requires 8 <= base <= 16 && value < 8 * bound
    ensures q < bound && |Digits(value, base)| <= |Digits(q, base)| + 1
  {
    q := value / base;
    Quotient(value, base, bound);
  }

  lemma Quotient(value: nat, base: nat, bound: nat)
    requires 8 <= base && value < 8 * bound
    ensures value / base < bound
  {
    var q := value / base;
    Arithmetic.QuotientBounds(value, base);
    Arithmetic.MulMonotone(8, base, bound);
    if q >= bound { Arithmetic.MulMonotone(bound, q, base); }
  }

  /** S read backwards. */
  function Backwards(s: seq<Byte>): (r: seq<Byte>)
    ensures |r| == |s|
  {
    seq(|s|, k requires 0 <= k < |s| => s[|s| - 1 - k])
  }

  lemma EmptyDigits(base: nat, digits: seq<Byte>)
    requires 8 <= base <= 16
    ensures Digits(0, base) == [] && digits + [] == digits && Backwards([]) == [] && [] + digits == digits
  {
  }

  lemma MoveDigit(a: seq<Byte>, c: Byte, s: seq<Byte>)
    ensures a + [c] + s == a + ([c] + s) && Backwards([c] + s) == Backwards(s) + [c]
  {
  }

  /** *cp++ = c */
  method Push(buf: array<Byte>, cp: nat, c: Byte)
    requires cp < buf.Length
    modifies buf
    ensures buf[..cp + 1] == old(buf[..cp]) + [c]
  {
    buf[cp] := c;
  }

  method SplitDigit(value: nat, base: nat) returns (c: Byte, rest: nat)
    requires 8 <= base <= 16 && value > 0
    ensures rest < value && Digits(value, base) == Digits(rest, base) + [c]
  {
    Quotient(value, base, value);
    return DigitChar(value % base), value / base;
  }

  /** The digits of VALUE0 into BUF, least significant first. */
  method PutDigits(buf: array<Byte>, value0: nat, base: nat) returns (cp: nat)
    requires buf.Length == BUF_SIZE && value0 < UINTMAX_LIMIT && 8 <= base <= 16
    modifies buf
    ensures cp <= 22 && buf[..cp] == Backwards(Digits(value0, base))
  {
    var value: nat := value0;
    cp := 0;
    ghost var done: seq<Byte> := [];
    ghost var digits := Digits(value0, base);
    Pow8Fits();
    DigitCount(value0, base, 22);
    EmptyDigits(base, digits);
    hide Pow8, Digits, Backwards;
    while value > 0
      invariant cp == |done| && digits == Digits(value, base) + done
      invariant buf[..cp] == Backwards(done)
    {
      var c, rest := SplitDigit(value, base);
      MoveDigit(Digits(rest, base), c, done);
      Push(buf, cp, c);
      done := [c] + done;
      value := rest;
      cp := cp + 1;
    }
    EmptyDigits(base, done);
  }

  /** Zeros behind the first CP0 bytes of BUF, up to PRECISION0 bytes or the end of the buffer. */
  method PutZeros(buf: array<Byte>, cp0: nat, precision0: int) returns (cp: nat)
    requires buf.Length == BUF_SIZE && cp0 <= 22
    modifies buf
    ensures cp0 <= cp < BUF_SIZE && buf[..cp] == old(buf[..cp0]) + Repeat(ZERO_DIGIT, cp - cp0)
    ensures cp - cp0 == |Repeat(ZERO_DIGIT, Wanted(precision0) - cp0)|
  {
    var precision := if precision0 < 0 then 1 else precision0;
    ghost var start := buf[..cp0];
    cp := cp0;
    while cp < precision && cp < BUF_SIZE - 1
      invariant cp0 <= cp < BUF_SIZE && (cp == cp0 || cp <= precision)
      invariant buf[..cp] == start + Repeat(ZERO_DIGIT, cp - cp0)
    {
      Push(buf, cp, ZERO_DIGIT);
      cp := cp + 1;
    }
  }

  lemma BackwardsBody(digits: seq<Byte>, n: nat)
    ensures Backwards(Repeat(ZERO_DIGIT, n) + digits) == Backwards(digits) + Repeat(ZERO_DIGIT, n)
  {
  }

  /** The first CP bytes of BUF in the opposite order. */
  method Emit(buf: array<Byte>, cp0: nat, ghost body: seq<Byte>) returns (out: seq<Byte>)
    requires cp0 <= buf.Length && buf[..cp0] == Backwards(body)
    ensures out == body
  {
    out := [];
    var cp := cp0;
    while cp > 0
      invariant 0 <= cp <= cp0 && out == body[..cp0 - cp]
    {
      cp := cp - 1;
      assert buf[cp] == buf[..cp0][cp] == body[cp0 - 1 - cp];
      out := out + [buf[cp]];
    }
  }

  /** format_integer; a conversion with MINUS has lost its ZERO flag by the time it gets here. */
  method FormatInteger(value: nat, base: nat, width: int, precision: int, minus: bool, zero: bool) returns (out: seq<Byte>)
    requires value < UINTMAX_LIMIT && 8 <= base <= 16
    ensures out == Formatted(value, base, width, precision, minus, zero)
  {
    var buf := new Byte[BUF_SIZE];
    var n := PutDigits(buf, value, base);
    var cp := PutZeros(buf, n, precision);
    ghost var body := Body(value, base, precision);
    BackwardsBody(Digits(value, base), cp - n);
    var digits := Emit(buf, cp, body);
    var padCnt := width - cp;
    if padCnt < 0 { padCnt := 0; }
    out := [];
    if !minus && !zero { out := out + Repeat(SPACE, padCnt); }
    if zero { out := out + Repeat(ZERO_DIGIT, padCnt); }
    out := out + digits;
    if minus { out := out + Repeat(SPACE, padCnt); }
  }

  // ---------- octal

  /** The low W octal digits of N. */
  function Octal(n: nat, w: nat): (r: seq<Byte>)
    ensures |r| == w && forall k :: 0 <= k < w ==> 48 <= r[k] <= 55
  {
    if w == 0 then [] else Octal(n / 8, w - 1) + [48 + n % 8]
  }

  /** A %0Wo conversion that fits prints exactly W octal digits. */
  lemma PaddedOctal(n: nat, w: nat)
    requires 0 < w < BUF_SIZE && n < Pow8(w)
    ensures Formatted(n, 8, w, -1, false, true) == Octal(n, w)
  {
    DigitCount(n, 8, w);
    OctalIsPadded(n, w);
  }

  lemma {:induction false} OctalIsPadded(n: nat, w: nat)
    requires n < Pow8(w)
    ensures |Digits(n, 8)| <= w && Octal(n, w) == Repeat(ZERO_DIGIT, w - |Digits(n, 8)|) + Digits(n, 8)
  {
    if w > 0 {
      OctalIsPadded(n / 8, w - 1);
    }
  }

  // ---------- what is printed

  lemma DigitCharIs(d: nat)
    requires d < 16
    ensures DigitChar(d) == "0123456789abcdef"[d] as int
  {
  }

  function DigitValue(c: Byte): nat { if 48 <= c <= 57 then c - 48 else if 97 <= c <= 102 then c - 87 else 0 }

  /** The number that the digits S stand for, read from the left. */
  function NumberOf(s: seq<Byte>, base: nat): nat {
    if s == [] then 0 else NumberOf(s[..|s| - 1], base) * base + DigitValue(s[|s| - 1])
  }

  lemma LastDigit(value: nat, base: nat) returns (high: nat, low: nat)
    requires 8 <= base <= 16 && value > 0
    ensures low < base && high < value && value == high * base + low && (high == 0 ==> low > 0)
    ensures Digits(value, base) == Digits(high, base) + [DigitChar(low)]
  {
    Quotient(value, base, value);
    Arithmetic.QuotientBounds(value, base);
    high, low := value / base, value % base;
  }

  lemma NumberStep(s: seq<Byte>, high: nat, low: nat, base: nat)
    requires low < base <= 16 && NumberOf(s, base) == high
    ensures NumberOf(s + [DigitChar(low)], base) == high * base + low
  {
    var t := s + [DigitChar(low)];
    assert t[..|t| - 1] == s && t[|t| - 1] == DigitChar(low);
  }

  /** The digits stand for the value, in the base of the conversion, and do not begin with a zero. */
  lemma {:induction false} DigitsNumber(value: nat, base: nat)
    requires 8 <= base <= 16
    ensures NumberOf(Digits(value, base), base) == value
    ensures value > 0 ==> Digits(value, base) != [] && DigitValue(Digits(value, base)[0]) > 0
    decreases value
  {
    if value == 0 {
      assert Digits(value, base) == [];
    } else {
      hide Digits, NumberOf;
      var high, low := LastDigit(value, base);
      DigitsNumber(high, base);
      NumberStep(Digits(high, base), high, low, base);
      if high == 0 { NoDigits(base); }
    }
  }

  lemma {:induction false} LeadingZeros(n: nat, s: seq<Byte>, base: nat)
    ensures NumberOf(Repeat(ZERO_DIGIT, n) + s, base) == NumberOf(s, base)
    decreases n + |s|
  {
    var r := Repeat(ZERO_DIGIT, n) + s;
    if s != [] {
      LeadingZeros(n, s[..|s| - 1], base);
      assert r[..|r| - 1] == Repeat(ZERO_DIGIT, n) + s[..|s| - 1];
    } else if n > 0 {
      LeadingZeros(n - 1, [], base);
      assert r[..|r| - 1] == Repeat(ZERO_DIGIT, n - 1) + [];
    }
  }

  /** The body stands for the value, with as many digits as the precision asks for and no more than needed. */
  lemma BodyNumber(value: nat, base: nat, precision: int)
    requires 8 <= base <= 16
    ensures var body, want := Body(value, base, precision), if precision < 0 then 1 else if precision < 64 then precision else 63;
      && NumberOf(body, base) == value
      && (|body| == want || (|body| > want && DigitValue(body[0]) > 0))
  {
    DigitsNumber(value, base);
    var n := Wanted(precision) - |Digits(value, base)|;
    LeadingZeros(if n < 0 then 0 else n, Digits(value, base), base);
    assert Repeat(ZERO_DIGIT, n) == Repeat(ZERO_DIGIT, if n < 0 then 0 else n);
  }

  /** The body in a field of WIDTH: to the left of blanks with MINUS, otherwise to the right, of zeros with ZERO. */
  lemma FormattedShape(value: nat, base: nat, width: int, precision: int, minus: bool, zero: bool)
    requires 8 <= base <= 16 && !(minus && zero)
    ensures var out, body := Formatted(value, base, width, precision, minus, zero), Body(value, base, precision);
      && |out| == (if width > |body| then width else |body|)
      && (minus ==> out[..|body|] == body && forall k :: |body| <= k < |out| ==> out[k] == 32)
      && (!minus ==> out[|out| - |body|..] == body)
      && (!minus ==> forall k :: 0 <= k < |out| - |body| ==> out[k] == if zero then 48 else 32)
  {
  }
}
