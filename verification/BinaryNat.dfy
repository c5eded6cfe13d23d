/** Binary arithmetic on naturals: bitwise AND, powers of two, and the two tricks of
    pintos/src/lib/kernel/hash.c that rest on them. */
module BinaryNat {
  import Arithmetic

  /** Bitwise AND, digit by digit. */
  function And(a: nat, b: nat): nat {
    if a == 0 || b == 0 then 0 else (a % 2) * (b % 2) + 2 * And(a / 2, b / 2)
  }

  predicate IsPower(x: nat) { x == 1 || (x > 0 && x % 2 == 0 && IsPower(x / 2)) }

  /** The greatest power of two that is at most X. */
  function Floor(x: nat): (p: nat)
    requires x > 0
    ensures IsPower(p) && p <= x < 2 * p
  {
    if x == 1 then 1 else 2 * Floor(x / 2)
  }

  /** turn_off_least_1bit */
  function TurnOffLeast(x: nat): nat
    requires x > 0
  {
    And(x, x - 1)
  }

  lemma {:induction false} AndSelf(x: nat)
    ensures And(x, x) == x
  {
    if x > 0 { AndSelf(x / 2); }
  }

  lemma AndOddStep(x: nat)
    requires x % 2 == 1
    ensures And(x, x - 1) == x - 1
  {
    AndSelf(x / 2);
    assert (x - 1) / 2 == x / 2;
  }

  lemma AndEvenStep(x: nat)
    requires x > 0 && x % 2 == 0
    ensures And(x, x - 1) == 2 * And(x / 2, x / 2 - 1)
  {
    assert (x - 1) / 2 == x / 2 - 1;
  }

  /** Clearing the lowest 1 bit gives zero exactly for powers of two. */
  lemma {:induction false} PowerTest(x: nat)
    requires x > 0
    ensures TurnOffLeast(x) == 0 <==> IsPower(x)
  {
    if x % 2 == 1 { AndOddStep(x); } else { AndEvenStep(x); PowerTest(x / 2); }
  }

  /** Otherwise it gives a smaller number under the same power of two. */
  lemma {:induction false} TurnOffFloor(x: nat)
    requires x > 0 && !IsPower(x)
    ensures 0 < TurnOffLeast(x) < x && Floor(TurnOffLeast(x)) == Floor(x)
  {
    var y := TurnOffLeast(x);
    if x % 2 == 1 {
      AndOddStep(x);
      assert (x - 1) / 2 == x / 2;
    } else {
      AndEvenStep(x);
      TurnOffFloor(x / 2);
      assert y / 2 == TurnOffLeast(x / 2);
    }
  }

  lemma {:induction false} PowerFloor(x: nat)
    requires IsPower(x)
    ensures Floor(x) == x
  {
    if x > 1 { PowerFloor(x / 2); }
  }

  /** Masking with a power of two less one is taking the remainder. */
  lemma {:induction false} MaskIsRemainder(h: nat, n: nat)
    requires IsPower(n)
    ensures And(h, n - 1) == h % n
  {
    if n == 1 || h == 0 {
      SmallRemainder(h, n);
    } else {
      var m := n / 2;
      assert n == 2 * m && (n - 1) / 2 == m - 1 && (n - 1) % 2 == 1;
      AndOdd(h, n - 1);
      MaskIsRemainder(h / 2, m);
      HalfRemainder(h, m, n);
    }
  }

  lemma SmallRemainder(h: nat, n: nat)
    requires n == 1 || (h == 0 && n > 0)
    ensures And(h, n - 1) == 0 == h % n
  {
  }

  lemma AndOdd(h: nat, b: nat)
    requires b % 2 == 1
    ensures And(h, b) == h % 2 + 2 * And(h / 2, b / 2)
  {
  }

  lemma HalfRemainder(h: nat, m: nat, n: nat)
    requires m > 0 && n == 2 * m
    ensures h % n == h % 2 + 2 * (h / 2 % m)
  {
    var q, r := h / 2 / m, h / 2 % m;
    assert h / 2 == m * q + r;
    assert h == 2 * (h / 2) + h % 2;
    assert h == n * q + (2 * r + h % 2);
    Remainder(h, n, q, 2 * r + h % 2);
  }

  lemma Remainder(h: nat, d: nat, q: nat, r: nat)
    requires h == d * q + r && r < d
    ensures h % d == r
  {
    assert (q + 1) * d == q * d + d;
    Arithmetic.QuotientUnique(h, d, q);
  }
}
