/** Machine integers, options and sequence helpers shared by every module. */
module Basics {
  type byte = b: int | 0 <= b < 0x100
  type uint16 = x: int | 0 <= x < 0x1_0000
  type uint32 = x: int | 0 <= x < 0x1_0000_0000
  type int16 = x: int | -0x8000 <= x < 0x8000

  /** Samples, and so A-law bytes, in the twenty milliseconds of one frame. */
  const FRAME_SAMPLES: nat := 160

  datatype Option<+T> = None | Some(value: T)

  /** Conversion to `uint16_t`: keep the low sixteen bits. */
  function ToU16(x: int): uint16 {
    x % 0x1_0000
  }

  /** Conversion to `uint32_t`: keep the low thirty-two bits. */
  function ToU32(x: int): uint32 {
    x % 0x1_0000_0000
  }

  /** Conversion to `int16_t`: the value congruent modulo 2^16 in the signed range. */
  function ToI16(x: int): int16 {
    (x + 0x8000) % 0x1_0000 - 0x8000
  }

  function Min(a: int, b: int): int {
    if a <= b then a else b
  }

  function Abs(x: int): nat {
    if x < 0 then -x else x
  }

  /** Big-endian two-byte field. */
  function Be16(x: uint16): (s: seq<byte>)
    ensures |s| == 2
  {
    [x / 0x100, x % 0x100]
  }

  function FromBe16(hi: byte, lo: byte): uint16 {
    hi * 0x100 + lo
  }

  /** Big-endian four-byte field: two halves. */
  function Be32(x: uint32): (s: seq<byte>)
    ensures |s| == 4
  {
    Be16(x / 0x1_0000) + Be16(x % 0x1_0000)
  }

  function FromBe32(a: byte, b: byte, c: byte, d: byte): uint32 {
    FromBe16(a, b) * 0x1_0000 + FromBe16(c, d)
  }

  lemma Be16RoundTrip(x: uint16, hi: byte, lo: byte)
    ensures FromBe16(Be16(x)[0], Be16(x)[1]) == x
    ensures Be16(FromBe16(hi, lo)) == [hi, lo]
  {
  }

  lemma Be32RoundTrip(x: uint32)
    ensures var s := Be32(x); FromBe32(s[0], s[1], s[2], s[3]) == x
  {
    Be16RoundTrip(x / 0x1_0000, 0, 0);
    Be16RoundTrip(x % 0x1_0000, 0, 0);
  }

  lemma Be32OfBytes(a: byte, b: byte, c: byte, d: byte)
    ensures Be32(FromBe32(a, b, c, d)) == [a, b, c, d]
  {
    Be16RoundTrip(0, a, b);
    Be16RoundTrip(0, c, d);
    Be32OfHalves(FromBe16(a, b), FromBe16(c, d));
  }

  lemma Be32OfHalves(hi: uint16, lo: uint16)
    ensures Be32(hi * 0x1_0000 + lo) == Be16(hi) + Be16(lo)
  {
    hide Be16;
    var x := hi * 0x1_0000 + lo;
    assert x / 0x1_0000 == hi && x % 0x1_0000 == lo;
  }

  /** The four bytes as shifts and masks give them. */
  lemma Be32Shifts(x: uint32)
    ensures Be32(x) == [x / 0x100_0000, x / 0x1_0000 % 0x100, x / 0x100 % 0x100, x % 0x100]
  {
    Halves(x, x / 0x1_0000, x % 0x1_0000);
  }

  lemma Halves(x: nat, hi: nat, lo: nat)
    requires x == hi * 0x1_0000 + lo && lo < 0x1_0000
    ensures x / 0x100_0000 == hi / 0x100
    ensures x / 0x100 % 0x100 == lo / 0x100 && x % 0x100 == lo % 0x100
  {
    assert x / 0x100 == hi * 0x100 + lo / 0x100;
  }

  /** Concatenation of a list of sequences. */
  function Flatten<T>(ss: seq<seq<T>>): seq<T> {
    if ss == [] then [] else ss[0] + Flatten(ss[1..])
  }

  lemma {:induction false} FlattenAppend<T>(a: seq<seq<T>>, b: seq<seq<T>>)
    ensures Flatten(a + b) == Flatten(a) + Flatten(b)
  {
    if a == [] {
      assert a + b == b;
    } else {
      assert (a + b)[1..] == a[1..] + b;
      FlattenAppend(a[1..], b);
    }
  }
}
