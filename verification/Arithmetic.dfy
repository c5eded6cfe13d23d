/** 64-bit division out of the x86 DIVL instruction (pintos/src/lib/arithmetic.c).

    Machine words are integers in a range.  A C shift, cast or wrapping operation
    is written out as a division, a product or a remainder by a power of two. */
module Arithmetic {

  const TWO_31: int := 0x8000_0000
  const TWO_32: int := 0x1_0000_0000
  const TWO_63: int := 0x8000_0000_0000_0000
  const TWO_64: int := 0x1_0000_0000_0000_0000

  type Word32 = x: int | 0 <= x < TWO_32
  type Word64 = x: int | 0 <= x < TWO_64
  type Int32 = x: int | -TWO_31 <= x < TWO_31
  type Int64 = x: int | -TWO_63 <= x < TWO_63

  function Pow2(k: nat): (p: int)
    ensures p >= 1
  {
    if k == 0 then 1 else 2 * Pow2(k - 1)
  }

  /** The two's complement reading of a 64-bit word, and of a 32-bit one. */
  function ToInt64(x: int): (r: Int64) {
    var w := x % TWO_64;
    if w < TWO_63 then w else w - TWO_64
  }

  function ToInt32(x: int): (r: Int32) {
    var w := x % TWO_32;
    if w < TWO_31 then w else w - TWO_32
  }

  /** DIVL traps unless the divisor is nonzero and the quotient fits in 32 bits;
      its precondition is therefore that no trap happens. */
  function Divl(n: Word64, d: Word32): (q: Word32)
    requires d != 0 && n / d < TWO_32
    ensures q * d <= n < (q + 1) * d
  {
    QuotientBounds(n, d);
    n / d
  }

  lemma QuotientBounds(n: int, d: int)
    requires d > 0
    ensures (n / d) * d <= n < (n / d + 1) * d
    ensures n >= 0 ==> n / d >= 0
  {
    assert n == d * (n / d) + n % d;
  }

  lemma QuotientUnique(n: int, d: int, q: int)
    requires d > 0 && q * d <= n < (q + 1) * d
    ensures q == n / d
  {
    QuotientBounds(n, d);
    var p := n / d;
    if q < p { MulMonotone(q + 1, p, d); }
    if p < q { MulMonotone(p + 1, q, d); }
  }

  lemma MulMonotone(a: int, b: int, c: int)
    requires a <= b && c >= 0
    ensures a * c <= b * c
  {
    assert (b - a) * c >= 0;
  }

  /** Number of leading zero bits of a nonzero 32-bit word. */
  function LeadingZeros(x: Word32): (n: nat)
    requires x != 0
    decreases TWO_32 - x
  {
    if x >= TWO_31 then 0 else 1 + LeadingZeros(2 * x)
  }

  /** Shifting by the leading-zero count brings the top bit to position 31. */
  lemma {:induction false} LeadingZerosNormalise(x: Word32)
    requires x != 0
    ensures LeadingZeros(x) <= 31
    ensures TWO_31 <= x * Pow2(LeadingZeros(x)) < TWO_32
    decreases TWO_32 - x
  {
    if x < TWO_31 {
      LeadingZerosNormalise(2 * x);
      var m := LeadingZeros(2 * x);
      DoubleShift(x, m);
      LeadingZerosSmall(2 * x, m);
    }
  }

  lemma DoubleShift(x: int, m: nat)
    ensures x * Pow2(m + 1) == (2 * x) * Pow2(m)
  {
    assert Pow2(m + 1) == 2 * Pow2(m);
  }

  lemma LeadingZerosSmall(y: int, m: nat)
    requires y >= 2 && y * Pow2(m) < TWO_32
    ensures m <= 30
  {
    if m > 30 {
      Pow2Monotone(31, m);
      Pow2Values();
      MulMonotone(2, y, Pow2(m));
    }
  }

  lemma Pow2Values()
    ensures Pow2(2) == 4 && Pow2(4) == 16 && Pow2(8) == 256 && Pow2(16) == 65536 && Pow2(31) == TWO_31 && Pow2(32) == TWO_32
  {
    Pow2Sum(8, 8);
    Pow2Sum(16, 8);
    Pow2Sum(24, 7);
    Pow2Sum(16, 16);
    assert Pow2(4) == 16;
    Pow2Sum(4, 4);
    assert Pow2(7) == 128 by { Pow2Sum(4, 3); assert Pow2(3) == 8; }
  }

  lemma {:induction false} Pow2Sum(a: nat, b: nat)
    ensures Pow2(a + b) == Pow2(a) * Pow2(b)
  {
    if b != 0 { Pow2Sum(a, b - 1); }
  }

  lemma {:induction false} Pow2Monotone(a: nat, b: nat)
    requires a <= b
    ensures Pow2(a) <= Pow2(b)
    decreases b
  {
    if a < b { Pow2Monotone(a, b - 1); }
  }

  lemma {:induction false} LeadingZerosShift(x: Word32, k: nat)
    requires x != 0 && x * Pow2(k) < TWO_32
    ensures x * Pow2(k) > 0 && LeadingZeros(x) == k + LeadingZeros(x * Pow2(k))
    decreases k
  {
    if k > 0 {
      DoubleShift(x, k - 1);
      DoublingFits(x, k - 1);
      LeadingZerosShift(2 * x, k - 1);
    }
  }

  lemma DoublingFits(x: int, m: nat)
    requires x > 0 && (2 * x) * Pow2(m) < TWO_32
    ensures 2 * x < TWO_32
  {
    MulMonotone(1, Pow2(m), 2 * x);
  }

  lemma NlzStep(x: Word32, k: nat, w: int)
    requires x != 0 && w == Pow2(k) && x * w < TWO_32
    ensures 0 < x * w == (x * w) % TWO_32
    ensures LeadingZeros(x) == k + LeadingZeros(x * w)
  {
    LeadingZerosShift(x, k);
  }

  /** The five tests of the original, each shifting X left when its top bits are clear. */
  method Nlz(word: Word32) returns (n: int)
    requires word != 0
    ensures n == LeadingZeros(word)
  {
    Pow2Values();
    n := 0;
    var x: Word32 := word;
    if x <= 0x0000_FFFF {
      NlzStep(x, 16, 0x1_0000);
      n, x := n + 16, (x * 0x1_0000) % TWO_32;
    }
    if x <= 0x00FF_FFFF {
      NlzStep(x, 8, 0x100);
      n, x := n + 8, (x * 0x100) % TWO_32;
    }
    if x <= 0x0FFF_FFFF {
      NlzStep(x, 4, 0x10);
      n, x := n + 4, (x * 0x10) % TWO_32;
    }
    if x <= 0x3FFF_FFFF {
      NlzStep(x, 2, 4);
      n, x := n + 2, (x * 4) % TWO_32;
    }
    if x <= 0x7FFF_FFFF {
      n := n + 1;
    }
  }

  /** Divisor below 2^32: one DIVL on the remainder of the high half. */
  lemma SmallDivisor(n: Word64, d: Word32)
    requires d != 0
    ensures var t := TWO_32 * (n / TWO_32 % d) + n % TWO_32;
            && 0 <= t < TWO_64
            && t / d < TWO_32
            && n / d == t / d + TWO_32 * (n / TWO_32 / d)
  {
    var n1, n0 := n / TWO_32, n % TWO_32;
    var t := TWO_32 * (n1 % d) + n0;
    QuotientBounds(n1, d);
    QuotientBounds(t, d);
    MulMonotone(n1 % d + 1, d, TWO_32);
    if t / d >= TWO_32 { MulMonotone(TWO_32, t / d, d); }
    assert n == t + TWO_32 * (n1 / d) * d;
    assert (t / d + TWO_32 * (n1 / d)) * d == (t / d) * d + TWO_32 * (n1 / d) * d;
    QuotientUnique(n, d, t / d + TWO_32 * (n1 / d));
  }

  /** The top 32 bits of D after normalisation. */
  function Divisor32(d: Word64): (v: Word32)
    requires d >= TWO_32
  {
    (d * Pow2(LeadingZeros(d / TWO_32))) % TWO_64 / TWO_32
  }

  /** With k = 31 - s, dividing by the normalised top half and shifting back divides
      by M = v * 2^(k+1), which is D with its low k+1 bits cleared. */
  lemma NormalisedDivisor(d: Word64)
    requires d >= TWO_32
    ensures LeadingZeros(d / TWO_32) <= 31
    ensures TWO_31 <= Divisor32(d)
    ensures var k := 31 - LeadingZeros(d / TWO_32); var v := Divisor32(d);
            && 0 <= d - v * Pow2(k + 1) < Pow2(k + 1)
            && v * Pow2(k + 1) >= TWO_32 * Pow2(k)
  {
    var d1 := d / TWO_32;
    LeadingZerosNormalise(d1);
    var s := LeadingZeros(d1);
    var k := 31 - s;
    var p, m := Pow2(s), Pow2(k + 1);
    assert p * m == TWO_32 by { Pow2Sum(s, k + 1); Pow2Values(); }
    NormalisedTop(d, p, m);
    var v := Divisor32(d);
    assert v == d / m;
    QuotientBounds(d, m);
    MulMonotone(TWO_31, v, m);
  }

  lemma NormalisedTop(d: Word64, p: int, m: int)
    requires p > 0 && m > 0 && p * m == TWO_32
    requires TWO_31 <= d / TWO_32 * p < TWO_32
    ensures (d * p) % TWO_64 / TWO_32 == d / m
    ensures TWO_31 <= d / m < TWO_32
  {
    var d1 := d / TWO_32;
    QuotientBounds(d, TWO_32);
    QuotientBounds(d, m);
    NextMultiple(d1, p, m);
    ScaleBounds(d, d1, TWO_32, p);
    ScaleBounds(d, d / m, m, p);
    Reassociate(d1, TWO_32, p, d1 * p);
    Reassociate(d1 + 1, TWO_32, p, (d1 + 1) * p);
    Reassociate(d / m, m, p, d / m);
    Reassociate(d / m + 1, m, p, d / m + 1);
    TopBounds(d * p, d1 * p, (d1 + 1) * p, d / m);
  }

  lemma ScaleBounds(d: int, q: int, m: int, p: int)
    requires q * m <= d < (q + 1) * m && p > 0
    ensures q * m * p <= d * p < (q + 1) * m * p
  {
    MulMonotone(q * m, d, p);
    MulMonotone(d + 1, (q + 1) * m, p);
  }

  lemma Reassociate(a: int, m: int, p: int, b: int)
    requires (m * p == TWO_32 && b == a) || (m == TWO_32 && b == a * p)
    ensures a * m * p == b * TWO_32
  {
    assert a * m * p == a * (m * p) == a * p * m;
  }

  lemma TopBounds(x: int, lo: int, hi: int, q: int)
    requires lo * TWO_32 <= x < hi * TWO_32 && TWO_31 <= lo && hi <= TWO_32
    requires q * TWO_32 <= x < (q + 1) * TWO_32
    ensures x % TWO_64 / TWO_32 == q && TWO_31 <= q < TWO_32
  {
  }

  /** 2^32 is a multiple of p, so a multiple of p below it leaves room for the next one. */
  lemma NextMultiple(a: int, p: int, m: int)
    requires p > 0 && m > 0 && a * p < p * m
    ensures (a + 1) * p <= p * m
  {
    if a >= m { MulMonotone(m, a, p); }
    MulMonotone(a + 1, m, p);
  }

  lemma NoTrap(n: Word64, v: Word32)
    requires v >= TWO_31
    ensures n / 2 / v < TWO_32
  {
    QuotientBounds(n / 2, v);
    if n / 2 / v >= TWO_32 { MulMonotone(TWO_32, n / 2 / v, v); }
  }

  /** The quotient estimate of the large-divisor branch: halve N, one DIVL by the
      normalised top half of D, shift back. */
  function Estimate(n: Word64, d: Word64): (q: Word64)
    requires d >= TWO_32
  {
    NormalisedDivisor(d);
    NoTrap(n, Divisor32(d));
    var q1 := Divl(n / 2, Divisor32(d));
    QuotientBounds(q1, Pow2(31 - LeadingZeros(d / TWO_32)));
    ShrinkingQuotient(q1, Pow2(31 - LeadingZeros(d / TWO_32)));
    q1 / Pow2(31 - LeadingZeros(d / TWO_32))
  }

  lemma ShrinkingQuotient(a: int, p: int)
    requires a >= 0 && p >= 1
    ensures 0 <= a / p <= a
  {
    QuotientBounds(a, p);
    MulMonotone(1, p, a / p);
  }

  /** Halving, dividing by v and then by p is dividing by v * 2p. */
  lemma ThreeDivisions(n: int, v: int, p: int)
    requires n >= 0 && v > 0 && p > 0
    ensures n / 2 / v / p * (v * (2 * p)) <= n < (n / 2 / v / p + 1) * (v * (2 * p))
  {
    var h := n / 2;
    var q1 := h / v;
    var q := q1 / p;
    QuotientBounds(h, v);
    QuotientBounds(q1, p);
    ScaleBounds(q1, q, p, v);
    MulMonotone(q1 + 1, (q + 1) * p, v);
    Regroup(q, v, p);
    Regroup(q + 1, v, p);
  }

  lemma Regroup(q: int, v: int, p: int)
    ensures q * (v * (2 * p)) == 2 * (q * p * v)
  {
    assert v * (2 * p) == 2 * (p * v);
    assert q * (2 * (p * v)) == 2 * (q * (p * v));
    assert q * (p * v) == q * p * v;
  }

  /** Clearing low bits of D costs the quotient at most one. */
  lemma TruncatedDivisor(n: Word64, d: Word64, m: int, p: int, q: int)
    requires p >= 1 && n >= d
    requires m >= TWO_32 * p && 0 <= d - m < 2 * p
    requires q * m <= n < (q + 1) * m
    ensures n / d <= q <= n / d + 1
  {
    var r := n / d;
    QuotientBounds(n, d);
    if r > q {
      MulMonotone(q + 1, r, m);
      MulMonotone(m, d, r);
    }
    RemainderFits(r, d, m, p, n);
    assert (r + 1) * d == (r + 1) * m + (r + 1) * (d - m);
    assert (r + 2) * m == (r + 1) * m + m;
    if q > r + 1 { MulMonotone(r + 2, q, m); }
  }

  lemma RemainderFits(r: int, d: int, m: int, p: int, n: int)
    requires r >= 0 && r * d <= n < TWO_64 && d <= n < (r + 1) * d
    requires p >= 1 && m >= TWO_32 * p && 0 <= d - m < 2 * p
    ensures (r + 1) * (d - m) <= m
  {
    MulMonotone(r + 1, if r < 1 then 1 else r + 1, d);
    MulMonotone(TWO_32 * p, d, r);
    assert TWO_32 * p * r == TWO_32 * (r * p);
    assert r * p < TWO_32;
    MulMonotone(d - m, 2 * p - 1, r + 1);
    assert (2 * p - 1) * (r + 1) == 2 * (r * p) + 2 * p - r - 1;
    if p == 1 {
      assert (r + 1) * (d - m) <= r + 1;
    }
  }

  /** The estimate is the quotient or one more. */
  lemma EstimateOffByAtMostOne(n: Word64, d: Word64)
    requires TWO_32 <= d <= n
    ensures n / d <= Estimate(n, d) <= n / d + 1
  {
    NormalisedDivisor(d);
    var v, k := Divisor32(d), 31 - LeadingZeros(d / TWO_32);
    NoTrap(n, v);
    QuotientUnique(n / 2, v, Divl(n / 2, v));
    ThreeDivisions(n, v, Pow2(k));
    TruncatedDivisor(n, d, v * Pow2(k + 1), Pow2(k), Estimate(n, d));
  }

  /** One conditional decrement turns such an estimate into the quotient. */
  lemma CorrectedEstimate(n: Word64, d: Word64, q: int)
    requires 0 < d <= n && n / d <= q <= n / d + 1
    ensures q >= 1
    ensures n / d == if (n - (q - 1) * d) % TWO_64 < d then q - 1 else q
  {
    var r := n / d;
    QuotientBounds(n, d);
    MulMonotone(r + 1, if r < 1 then 1 else r + 1, d);
    MulMonotone(0, q - 1, d);
    if q == r {
      assert n - (q - 1) * d == n - r * d + d;
    } else {
      assert n - (q - 1) * d == n - r * d;
      assert (r + 1) * d == r * d + d;
    }
  }

  /** DIVL on the remainder of the high half followed by the low half. */
  function DivlHalf(n1: Word32, n0: Word32, d: Word32): (q: Word32)
    requires d != 0
    ensures q == (TWO_32 * (n1 % d) + n0) / d
  {
    SmallDivisor(TWO_32 * n1 + n0, d);
    assert (TWO_32 * n1 + n0) / TWO_32 == n1 && (TWO_32 * n1 + n0) % TWO_32 == n0;
    var t := TWO_32 * (n1 % d) + n0;
    var q := Divl(t, d);
    QuotientUnique(t, d, q);
    q
  }

  function Udiv64Small(n: Word64, d: Word32): (q: Word64)
    requires d != 0
    ensures q == n / d
  {
    SmallDivisor(n, d);
    QuotientBounds(n, d);
    ShrinkingQuotient(n, d);
    var n1, n0 := n / TWO_32, n % TWO_32;
    (DivlHalf(n1, n0, d) + TWO_32 * (n1 / d)) % TWO_64
  }

  function Udiv64Large(n: Word64, d: Word64): (q: Word64)
    requires TWO_32 <= d <= n
    ensures q == n / d
  {
    EstimateOffByAtMostOne(n, d);
    var q := Estimate(n, d);
    CorrectedEstimate(n, d, q);
    if (n - (q - 1) * d) % TWO_64 < d then q - 1 else q
  }

  /** Unsigned 64-bit division: exact for every dividend and every nonzero divisor, and no
      DIVL traps on the way. */
  function Udiv64(n: Word64, d: Word64): (q: Word64)
    requires d != 0
    ensures q == n / d
  {
    if d / TWO_32 == 0 then Udiv64Small(n, d % TWO_32)
    else if n < d then QuotientUnique(n, d, 0); 0
    else Udiv64Large(n, d)
  }

  /** Unsigned remainder.  The original declares a 32-bit result, so the value is truncated. */
  function Umod64(n: Word64, d: Word64): (r: Word32)
    requires d != 0
  {
    (n - d * Udiv64(n, d)) % TWO_64 % TWO_32
  }

  lemma RemainderBounds(n: int, d: int)
    requires n >= 0 && d > 0
    ensures 0 <= n - d * (n / d) == n % d <= n
    ensures n % d < d
  {
    QuotientBounds(n, d);
    MulMonotone(0, n / d, d);
  }

  lemma WordUnchanged(x: Word64)
    ensures x % TWO_64 == x
  {
  }

  lemma Umod64Value(n: Word64, d: Word64)
    requires d != 0
    ensures Umod64(n, d) == n % d % TWO_32
  {
    RemainderBounds(n, d);
    WordUnchanged(n - d * (n / d));
  }

  lemma SmallDivisorRemainder(n: Word64, d: Word64)
    requires 0 != d <= TWO_32
    ensures n % d % TWO_32 == n % d
  {
    RemainderBounds(n, d);
  }

  lemma LargeDivisorRemainder(d: Word64)
    requires d > TWO_32
    ensures TWO_32 % d == TWO_32 && TWO_32 % d % TWO_32 == 0
  {
    QuotientUnique(TWO_32, d, 0);
    RemainderBounds(TWO_32, d);
  }

  /** A divisor gets the right remainder for every dividend exactly when it is at most 2^32. */
  lemma Umod64Exact(d: Word64)
    requires d != 0
    ensures (forall n: Word64 :: Umod64(n, d) == n % d) <==> d <= TWO_32
  {
    if d <= TWO_32 {
      forall n: Word64 ensures Umod64(n, d) == n % d {
        Umod64Value(n, d);
        SmallDivisorRemainder(n, d);
      }
    } else {
      Umod64Value(TWO_32, d);
      LargeDivisorRemainder(d);
    }
  }

  /** C's signed quotient and remainder, which truncate toward zero. */
  function Abs(x: int): (a: nat) { if x >= 0 then x else -x }

  function TruncDiv(n: int, d: int): (q: int)
    requires d != 0
  {
    if (n < 0) == (d < 0) then Abs(n) / Abs(d) else -(Abs(n) / Abs(d))
  }

  function TruncMod(n: int, d: int): (r: int)
    requires d != 0
  {
    n - d * TruncDiv(n, d)
  }

  lemma TruncProduct(n: int, d: int)
    requires d != 0
    ensures d * TruncDiv(n, d) == (if n < 0 then -(Abs(n) / Abs(d) * Abs(d)) else Abs(n) / Abs(d) * Abs(d))
  {
    var q := Abs(n) / Abs(d);
    assert d * q == q * d && d * (-q) == -(q * d) && q * (-d) == -(q * d);
  }

  /** The remainder is smaller than the divisor and takes the sign of the dividend. */
  lemma TruncModBounds(n: int, d: int)
    requires d != 0
    ensures Abs(TruncMod(n, d)) < Abs(d)
    ensures (TruncMod(n, d) > 0 ==> n > 0) && (TruncMod(n, d) < 0 ==> n < 0)
    ensures Abs(n) < Abs(d) ==> TruncMod(n, d) == n
  {
    TruncProduct(n, d);
    var a, b := Abs(n), Abs(d);
    QuotientBounds(a, b);
    assert (a / b + 1) * b == a / b * b + b;
    if a < b { QuotientUnique(a, b, 0); }
  }

  function Negate64(x: int): (w: Word64) { (-x) % TWO_64 }

  function Sdiv64(n: Int64, d: Int64): (q: Int64)
    requires d != 0
  {
    var nAbs: Word64 := if n >= 0 then n else Negate64(n);
    var dAbs: Word64 := if d >= 0 then d else Negate64(d);
    var qAbs := Udiv64(nAbs, dAbs);
    if (n < 0) == (d < 0) then ToInt64(qAbs) else ToInt64(-(ToInt64(qAbs) as int))
  }

  lemma Sdiv64Value(n: Int64, d: Int64)
    requires d != 0
    ensures Sdiv64(n, d) == ToInt64(TruncDiv(n, d))
  {
    var q := Abs(n) / Abs(d);
    ShrinkingQuotient(Abs(n), Abs(d));
    NegateFits(n);
    NegateFits(d);
    NegateWrapped(q);
  }

  lemma NegateFits(x: Int64)
    ensures x < 0 ==> Negate64(x) == Abs(x)
  {
  }

  lemma NegateWrapped(q: int)
    requires 0 <= q <= TWO_63
    ensures ToInt64(-(ToInt64(q) as int)) == ToInt64(-q)
  {
  }

  lemma TruncDivRange(n: Int64, d: Int64)
    requires d != 0
    ensures -TWO_63 <= TruncDiv(n, d) <= TWO_63
    ensures TruncDiv(n, d) == TWO_63 <==> n == -TWO_63 && d == -1
  {
    var a, b := Abs(n), Abs(d);
    ShrinkingQuotient(a, b);
    if a / b == TWO_63 { LargestQuotient(a, b); }
    if n == -TWO_63 && d == -1 { QuotientUnique(a, b, TWO_63); }
  }

  lemma LargestQuotient(a: int, b: int)
    requires 0 <= a <= TWO_63 && b > 0 && a / b == TWO_63
    ensures a == TWO_63 && b == 1
  {
    QuotientBounds(a, b);
    ShrinkingQuotient(a, b);
    if b >= 2 { MulMonotone(2, b, TWO_63); }
  }

  /** Signed division truncates toward zero except for INT64_MIN / -1, whose quotient does not
      fit and wraps back to INT64_MIN. */
  lemma Sdiv64Exact(n: Int64, d: Int64)
    requires d != 0
    ensures Sdiv64(n, d) == TruncDiv(n, d) <==> !(n == -TWO_63 && d == -1)
    ensures n == -TWO_63 && d == -1 ==> Sdiv64(n, d) == n
  {
    Sdiv64Value(n, d);
    TruncDivRange(n, d);
    WrapFits(TruncDiv(n, d));
  }

  lemma WrapFits(x: int)
    requires -TWO_63 <= x <= TWO_63
    ensures ToInt64(x) == if x < TWO_63 then x else -TWO_63
  {
  }

  function Smod64(n: Int64, d: Int64): (r: Int32)
    requires d != 0
  {
    ToInt32(ToInt64(n - d * Sdiv64(n, d)))
  }

  lemma Smod64Value(n: Int64, d: Int64)
    requires d != 0
    ensures Smod64(n, d) == ToInt32(TruncMod(n, d))
  {
    Sdiv64Value(n, d);
    TruncDivRange(n, d);
    WrapFits(TruncDiv(n, d));
    TruncModBounds(n, d);
    if n == -TWO_63 && d == -1 {
      assert n - d * Sdiv64(n, d) == -TWO_64;
    } else {
      WrapFits(TruncMod(n, d));
    }
  }

  lemma RemainderFits32(n: Int64, d: Int64)
    requires d != 0 && -TWO_31 <= d <= TWO_31
    ensures ToInt32(TruncMod(n, d)) == TruncMod(n, d)
  {
    TruncModBounds(n, d);
  }

  lemma RemainderTruncated(d: Int64)
    requires d < -TWO_31 || d > TWO_31
    ensures ToInt32(TruncMod(TWO_31, d)) != TruncMod(TWO_31, d)
  {
    TruncModBounds(TWO_31, d);
  }

  /** A divisor gets the right signed remainder for every dividend exactly when its magnitude
      is at most 2^31. */
  lemma Smod64Exact(d: Int64)
    requires d != 0
    ensures (forall n: Int64 :: Smod64(n, d) == TruncMod(n, d)) <==> -TWO_31 <= d <= TWO_31
  {
    forall n: Int64 ensures Smod64(n, d) == ToInt32(TruncMod(n, d)) { Smod64Value(n, d); }
    if -TWO_31 <= d <= TWO_31 {
      forall n: Int64 ensures ToInt32(TruncMod(n, d)) == TruncMod(n, d) { RemainderFits32(n, d); }
    } else {
      RemainderTruncated(d);
      var n: Int64 := TWO_31;
      assert Smod64(n, d) != TruncMod(n, d);
    }
  }
}
