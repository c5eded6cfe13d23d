/** The word-packed bit array of pintos/src/lib/kernel/bitmap.c: 32 bits to an element, set and
    tested through masks, searched first-fit. */
module Bitmap {
  const ELEM_BITS: nat := 32
  const BITMAP_ERROR: int := -1

  /** 1 shifted left by K. */
  function BitMask(k: nat): bv32 { if k == 0 then 1 else BitMask(k - 1) << 1 }

  predicate Has(w: bv32, m: bv32) { w & m != 0 }

  function WithMask(w: bv32, m: bv32): bv32 { w | m }

  function WithoutMask(w: bv32, m: bv32): bv32 { w & !m }

  predicate BitAt(w: bv32, k: nat) { Has(w, BitMask(k)) }

  lemma {:induction false} ZeroStaysZero(k: nat, n: nat)
    requires BitMask(k) == 0 && k <= n
    ensures BitMask(n) == 0
  {
    if k < n { ZeroStaysZero(k, n - 1); }
  }

  lemma MaskNonzero(k: nat)
    requires k < ELEM_BITS
    ensures BitMask(k) != 0
  {
    assert BitMask(8) == 0x100;
    assert BitMask(16) == 0x1_0000;
    assert BitMask(24) == 0x100_0000;
    assert BitMask(31) == 0x8000_0000;
    if BitMask(k) == 0 { ZeroStaysZero(k, 31); }
  }

  lemma ShiftBoth(a: bv32, b: bv32)
    requires !Has(a, b)
    ensures !Has(a << 1, b << 1)
  {
  }

  lemma ShiftedIsEven(a: bv32)
    ensures !Has(1, a << 1)
  {
  }

  lemma Symmetric(a: bv32, b: bv32)
    ensures Has(a, b) == Has(b, a)
  {
  }

  lemma {:induction false} MasksDisjoint(j: nat, k: nat)
    requires j < k < ELEM_BITS
    ensures !Has(BitMask(j), BitMask(k)) && !Has(BitMask(k), BitMask(j))
  {
    hide Has;
    if j == 0 {
      ShiftedIsEven(BitMask(k - 1));
    } else {
      MasksDisjoint(j - 1, k - 1);
      ShiftBoth(BitMask(j - 1), BitMask(k - 1));
    }
    Symmetric(BitMask(j), BitMask(k));
  }

  lemma OtherBitSet(w: bv32, m: bv32, n: bv32)
    requires !Has(m, n) && Has(w, n)
    ensures Has(WithMask(w, m), n)
  {
  }

  lemma OtherBitClear(w: bv32, m: bv32, n: bv32)
    requires !Has(m, n) && !Has(w, n)
    ensures !Has(WithMask(w, m), n)
  {
  }

  lemma OtherBitStays(w: bv32, m: bv32, n: bv32)
    requires !Has(m, n) && Has(w, n)
    ensures Has(WithoutMask(w, m), n)
  {
  }

  lemma OtherBitAbsent(w: bv32, m: bv32, n: bv32)
    requires !Has(m, n) && !Has(w, n)
    ensures !Has(WithoutMask(w, m), n)
  {
  }

  lemma OtherMask(w: bv32, m: bv32, n: bv32)
    requires !Has(m, n)
    ensures Has(WithMask(w, m), n) == Has(w, n) && Has(WithoutMask(w, m), n) == Has(w, n)
  {
    hide Has, WithMask, WithoutMask;
    if Has(w, n) {
      OtherBitSet(w, m, n);
      OtherBitStays(w, m, n);
    } else {
      OtherBitClear(w, m, n);
      OtherBitAbsent(w, m, n);
    }
  }

  lemma OwnMask(w: bv32, m: bv32)
    requires m != 0
    ensures Has(WithMask(w, m), m) && !Has(WithoutMask(w, m), m)
  {
  }

  /** OR with a mask sets one bit, AND with its complement clears one bit, of the element. */
  lemma OneBitChanges(w: bv32, j: nat, k: nat)
    requires j < ELEM_BITS && k < ELEM_BITS
    ensures BitAt(WithMask(w, BitMask(j)), k) == (k == j || BitAt(w, k))
    ensures BitAt(WithoutMask(w, BitMask(j)), k) == (k != j && BitAt(w, k))
  {
    hide BitMask, Has, WithMask, WithoutMask;
    if j == k {
      MaskNonzero(j);
      OwnMask(w, BitMask(j));
    } else {
      if j < k { MasksDisjoint(j, k); } else { MasksDisjoint(k, j); }
      OtherMask(w, BitMask(j), BitMask(k));
    }
  }

  /** CNT consecutive bits from I on, all V. */
  predicate Group(s: seq<bool>, i: int, cnt: nat, v: bool) {
    0 <= i && i + cnt <= |s| && forall k :: i <= k < i + cnt ==> s[k] == v
  }

  /** S with the CNT bits from START on set to V. */
  function Filled(s: seq<bool>, start: nat, cnt: nat, v: bool): (r: seq<bool>)
    requires start + cnt <= |s|
    ensures |r| == |s| && Group(r, start, cnt, v)
    ensures forall k :: 0 <= k < |s| && !(start <= k < start + cnt) ==> r[k] == s[k]
  {
    seq(|s|, k requires 0 <= k < |s| => if start <= k < start + cnt then v else s[k])
  }

  class Bits {
    const bitCnt: nat
    const bits: array<bv32>
    ghost var contents: seq<bool>

    ghost predicate Valid()
      reads this, bits
    {
      && bits.Length == (bitCnt + ELEM_BITS - 1) / ELEM_BITS && |contents| == bitCnt
      && forall i :: 0 <= i < bitCnt ==> contents[i] == BitAt(bits[i / ELEM_BITS], i % ELEM_BITS)
    }

    constructor (n: nat)
      ensures Valid() && fresh(bits) && bitCnt == n && Group(contents, 0, n, false)
    {
      bitCnt := n;
      var a := new bv32[(n + ELEM_BITS - 1) / ELEM_BITS];
      bits := a;
      contents := seq(n, i requires 0 <= i < n reads a => BitAt(a[i / ELEM_BITS], i % ELEM_BITS));
      new;
      SetMultiple(0, bitCnt, false);
    }

    method Set(idx: nat, value: bool)
      requires Valid() && idx < bitCnt
      modifies this`contents, bits
      ensures Valid() && contents == old(contents)[idx := value]
    {
      hide BitAt, BitMask, WithMask, WithoutMask;
      var e, k := idx / ELEM_BITS, idx % ELEM_BITS;
      ghost var w := bits[e];
      bits[e] := if value then WithMask(bits[e], BitMask(k)) else WithoutMask(bits[e], BitMask(k));
      contents := contents[idx := value];
      forall i | 0 <= i < bitCnt && i / ELEM_BITS == e ensures contents[i] == BitAt(bits[e], i % ELEM_BITS) {
        OneBitChanges(w, k, i % ELEM_BITS);
      }
    }

    method Test(idx: nat) returns (r: bool)
      requires Valid() && idx < bitCnt
      ensures r == contents[idx]
    {
      r := BitAt(bits[idx / ELEM_BITS], idx % ELEM_BITS);
    }

    method SetMultiple(start: nat, cnt: nat, value: bool)
      requires Valid() && start + cnt <= bitCnt
      modifies this`contents, bits
      ensures Valid() && contents == Filled(old(contents), start, cnt, value)
    {
      var i := 0;
      while i < cnt
        invariant 0 <= i <= cnt && Valid()
        invariant contents == Filled(old(contents), start, i, value)
      {
        Set(start + i, value);
        i := i + 1;
      }
    }

    method Contains(start: nat, cnt: nat, value: bool) returns (r: bool)
      requires Valid() && start + cnt <= bitCnt
      ensures r == !Group(contents, start, cnt, !value)
    {
      var i := 0;
      while i < cnt
        invariant 0 <= i <= cnt && Group(contents, start, i, !value)
      {
        var b := Test(start + i);
        if b == value { return true; }
        i := i + 1;
      }
      return false;
    }

    /** First fit: the least index from START on where a group begins. */
    method Scan(start: nat, cnt: nat, value: bool) returns (r: int)
      requires Valid() && start <= bitCnt
      ensures r != BITMAP_ERROR ==> start <= r && Group(contents, r, cnt, value)
      ensures forall i :: start <= i && (r == BITMAP_ERROR || i < r) ==> !Group(contents, i, cnt, value)
    {
      if cnt <= bitCnt {
        var last := bitCnt - cnt;
        var i := start;
        while i <= last
          invariant start <= i <= bitCnt + 1
          invariant forall j :: start <= j < i ==> !Group(contents, j, cnt, value)
        {
          var c := Contains(i, cnt, !value);
          if !c { return i; }
          i := i + 1;
        }
      }
      return BITMAP_ERROR;
    }

    method ScanAndFlip(start: nat, cnt: nat, value: bool) returns (r: int)
      requires Valid() && start <= bitCnt
      modifies this`contents, bits
      ensures Valid()
      ensures r != BITMAP_ERROR ==> start <= r && Group(old(contents), r, cnt, value)
      ensures forall i :: start <= i && (r == BITMAP_ERROR || i < r) ==> !Group(old(contents), i, cnt, value)
      ensures contents == if r == BITMAP_ERROR then old(contents) else Filled(old(contents), r, cnt, !value)
    {
      r := Scan(start, cnt, value);
      if r != BITMAP_ERROR { SetMultiple(r, cnt, !value); }
    }
  }
}
