/** Bytes and null-terminated strings of bytes. */
module Bytes {
  type Byte = x: int | 0 <= x < 256

  /** A C string without its terminating null byte. */
  type Text = s: seq<Byte> | 0 !in s

  /** The string at the beginning of RAW. */
  function TextOf(raw: seq<Byte>): (t: Text) {
    if raw == [] || raw[0] == 0 then [] else [raw[0]] + TextOf(raw[1..])
  }

  lemma {:induction false} TextThenNull(t: Text, rest: seq<Byte>)
    ensures TextOf(t + [0] + rest) == t
  {
    var raw := t + [0] + rest;
    if t != [] {
      assert raw[0] in t;
      assert raw[1..] == t[1..] + [0] + rest;
      TextThenNull(t[1..], rest);
    }
  }

  /** The 32-bit number at the beginning of B, least significant byte first. */
  function Word(b: seq<Byte>): (x: nat)
    requires |b| >= 4
    ensures x < 0x1_0000_0000
  {
    var b0: int, b1: int, b2: int, b3: int := b[0], b[1], b[2], b[3];
    b0 + 0x100 * (b1 + 0x100 * (b2 + 0x100 * b3))
  }

  /** The number with the base-256 digits A, B, C, D, least significant first. */
  function LittleEndian(a: int, b: int, c: int, d: int): int { a + 0x100 * b + 0x1_0000 * c + 0x100_0000 * d }

  function WordBytes(x: nat): (b: seq<Byte>)
    requires x < 0x1_0000_0000
    ensures |b| == 4 && Word(b) == x
  {
    var x1 := x / 0x100;
    var x2 := x1 / 0x100;
    [x % 0x100, x1 % 0x100, x2 % 0x100, x2 / 0x100]
  }
}
