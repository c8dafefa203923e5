/** The A-law codec of src/g711.h, bit for bit, with the sign convention it really has. */
module G711 {
  import opened Basics

  function Pow2(n: nat): (r: nat)
    ensures r >= 1
  {
    if n == 0 then 1 else 2 * Pow2(n - 1)
  }

  /** Bitwise exclusive or, one bit at a time. */
  function Xor(a: nat, m: nat): nat
    decreases a + m
  {
    if a == 0 && m == 0 then 0 else 2 * Xor(a / 2, m / 2) + (a % 2 + m % 2) % 2
  }

  lemma {:induction false} XorAssociative(a: nat, b: nat, c: nat)
    ensures Xor(Xor(a, b), c) == Xor(a, Xor(b, c))
    decreases a + b + c
  {
    hide Xor;
    var ab, bc := Xor(a, b), Xor(b, c);
    if a + b + c > 0 {
      XorParts(a, b);
      XorParts(b, c);
      XorAssociative(a / 2, b / 2, c / 2);
      AddBits(a % 2, b % 2, c % 2);
      XorStep(ab, c, a, bc);
    } else {
      XorZeros();
    }
  }

  lemma XorZeros()
    ensures Xor(0, 0) == 0
  {
  }

  lemma AddBits(p: nat, q: nat, r: nat)
    requires p < 2 && q < 2 && r < 2
    ensures ((p + q) % 2 + r) % 2 == (p + (q + r) % 2) % 2
  {
  }

  /** Two exclusive ors agree when their halves and their low bits do. */
  lemma XorStep(a: nat, b: nat, c: nat, d: nat)
    requires Xor(a / 2, b / 2) == Xor(c / 2, d / 2)
    requires (a % 2 + b % 2) % 2 == (c % 2 + d % 2) % 2
    ensures Xor(a, b) == Xor(c, d)
  {
    XorParts(a, b);
    XorParts(c, d);
  }

  lemma XorParts(a: nat, b: nat)
    ensures Xor(a, b) / 2 == Xor(a / 2, b / 2)
    ensures Xor(a, b) % 2 == (a % 2 + b % 2) % 2
  {
  }

  lemma {:induction false} XorCommutes(a: nat, b: nat)
    ensures Xor(a, b) == Xor(b, a)
    decreases a + b
  {
    if a + b > 0 {
      XorCommutes(a / 2, b / 2);
    }
  }

  lemma {:induction false} XorSelf(a: nat)
    ensures Xor(a, a) == 0
  {
    if a > 0 {
      XorSelf(a / 2);
    }
  }

  lemma {:induction false} XorZero(a: nat)
    ensures Xor(a, 0) == a
  {
    if a > 0 {
      XorZero(a / 2);
    }
  }

  lemma {:induction false} XorBelow(a: nat, m: nat, n: nat)
    requires a < Pow2(n) && m < Pow2(n)
    ensures Xor(a, m) < Pow2(n)
  {
    if n > 0 {
      XorBelow(a / 2, m / 2, n - 1);
      XorParts(a, m);
    }
  }

  /** Toggling the highest bit of an (n+1)-bit number adds or subtracts 2^n. */
  lemma {:induction false} XorTopBit(a: nat, n: nat)
    requires a < 2 * Pow2(n)
    ensures Xor(a, Pow2(n)) == if a < Pow2(n) then a + Pow2(n) else a - Pow2(n)
  {
    if n > 0 {
      XorTopBit(a / 2, n - 1);
      XorParts(a, Pow2(n));
    } else {
      assert Xor(0, 1) == 1 && Xor(1, 1) == 0;
    }
  }

  lemma EightBits()
    ensures Pow2(7) == 0x80 && Pow2(8) == 0x100
  {
    assert Pow2(4) == 16;
  }

  function XorByte(a: byte, m: byte): byte {
    EightBits();
    XorBelow(a, m, 8);
    Xor(a, m)
  }

  lemma XorTwice(a: byte, m: byte)
    ensures XorByte(XorByte(a, m), m) == a
  {
    XorAssociative(a, m, m);
    XorSelf(m);
    XorZero(a);
  }

  lemma XorOrder(b: byte)
    ensures XorByte(XorByte(b, 0x80), 0x55) == XorByte(XorByte(b, 0x55), 0x80)
  {
    XorAssociative(b, 0x55, 0x80);
    XorCommutes(0x55, 0x80);
    XorAssociative(b, 0x80, 0x55);
  }

  /** Toggling bit 0x80 of an A-law byte. */
  function ToggleSign(a: byte): byte {
    if a >= 0x80 then a - 0x80 else a + 0x80
  }

  lemma ToggleSignIsXor(a: byte)
    ensures XorByte(a, 0x80) == ToggleSign(a)
  {
    EightBits();
    XorTopBit(a, 7);
  }

  /** `decodeSample`: toggle the even bits, then rebuild the sample. */
  function DecodeSample(alaw: byte): int16 {
    DecodeFields(XorByte(alaw, 0x55))
  }

  /** Sign, segment and mantissa to a sample; bit 0x80 set means POSITIVE here. */
  function DecodeFields(a: byte): int16 {
    var t := Level(a / 16 % 8, a % 16);
    if a >= 0x80 then t else -t
  }

  /** The reconstruction level of a segment and a four-bit mantissa. */
  function Level(seg: nat, mantissa: nat): (t: int16)
    requires seg < 8 && mantissa < 16
    ensures 8 <= t <= 32256
  {
    if seg == 0 then mantissa * 16 + 8
    else if seg == 1 then mantissa * 16 + 0x108
    else (mantissa * 16 + 0x108) * Scale(seg - 1)
  }

  /** 2^n for the shift counts that occur, written out. */
  function Scale(n: nat): (r: nat)
    requires n <= 10
    ensures r == Pow2(n)
  {
    assert Pow2(4) == 16 && Pow2(8) == 256;
    [1, 2, 4, 8, 16, 32, 64, 128, 256, 512, 1024][n]
  }

  /** The sample's magnitude as the encoder sees it: 16-bit negation, then the clip at 32635. */
  function Magnitude(pcm: int16): int16 {
    var m := if pcm < 0 then ToI16(-(pcm as int)) else pcm;
    if m > 32635 then 32635 else m
  }

  /** How often a magnitude must be halved to fit in eight bits. */
  function Segment(m: int): nat
    decreases m
  {
    if m < 256 then 0 else 1 + Segment(m / 2)
  }

  lemma SegmentRange(m: int)
    requires m < 0x8000
    ensures Segment(m) <= 7
    ensures Segment(m) >= 1 ==> 128 * Scale(Segment(m)) <= m < 256 * Scale(Segment(m))
    ensures Segment(m) == 0 <==> m < 256
  {
    if m >= 256 { assert Segment(m / 2) == 0 || m / 2 >= 256; }
    if m >= 512 { assert m / 2 / 2 == m / 4; }
    if m >= 1024 { assert m / 4 / 2 == m / 8; }
    if m >= 2048 { assert m / 8 / 2 == m / 16; }
    if m >= 4096 { assert m / 16 / 2 == m / 32; }
    if m >= 8192 { assert m / 32 / 2 == m / 64; }
    if m >= 16384 { assert m / 64 / 2 == m / 128; }
  }

  /** The three-bit segment number of a magnitude. */
  function SegmentOf(m: int16): (seg: nat)
    ensures seg < 8
  {
    SegmentRange(m);
    Segment(m)
  }

  /** The four mantissa bits of a magnitude in a segment. */
  function Mantissa(m: int16, seg: nat): (r: nat)
    requires seg < 8
    ensures r < 16
  {
    (if seg == 0 then m / 16 else m / Scale(seg + 3)) % 16
  }

  /** `encodeSample` without its loop. */
  function EncodeSample(pcm: int16): byte {
    XorByte(EncodeFields(pcm), 0x55)
  }

  /** Sign, segment and mantissa of a sample; bit 0x80 is set for NEGATIVE samples. */
  function EncodeFields(pcm: int16): byte {
    var m := Magnitude(pcm);
    var seg := SegmentOf(m);
    (if pcm < 0 then 0x80 else 0) + 16 * seg + Mantissa(m, seg)
  }

  /** The encoder with its table and its segment search. */
  method Encode(pcm: int16) returns (alaw: byte)
    ensures alaw == EncodeSample(pcm)
  {
    var sign := if pcm < 0 then 0x80 else 0;
    var x: int16 := pcm;
    if sign != 0 {
      x := ToI16(-(x as int));
    }
    if x > 32635 {
      x := 32635;
    }
    assert x == Magnitude(pcm);
    var seg := 0;
    var low := x;
    if low >= 256 {
      seg := SearchSegment(low);
      low := low / Scale(seg + 3);
    } else {
      SegmentRange(x);
      low := low / 16;
    }
    var a: byte := sign + 16 * seg + low % 16;
    assert a == EncodeFields(pcm);
    alaw := XorByte(a, 0x55);
  }

  /** The table search of the encoder. */
  method SearchSegment(low: int16) returns (seg: nat)
    requires low >= 256
    ensures seg == SegmentOf(low)
  {
    var segEnd := [0xFF, 0x1FF, 0x3FF, 0x7FF, 0xFFF, 0x1FFF, 0x3FFF, 0x7FFF];
    SegmentRange(low);
    seg := 1;
    while seg < 8 && low > segEnd[seg]
      invariant 1 <= seg <= 8
      invariant low >= 128 * Scale(seg)
      decreases 8 - seg
    {
      assert segEnd[seg] == 256 * Scale(seg) - 1;
      seg := seg + 1;
    }
    assert seg < 8;
    assert segEnd[seg] == 256 * Scale(seg) - 1;
    SegmentUnique(low, seg);
  }

  /** One hop through an encoder and a decoder. */
  function Hop(pcm: int16): int16 {
    DecodeSample(EncodeSample(pcm))
  }

  /** Half the width of the quantisation interval of a segment. */
  function HalfStep(seg: nat): nat
    requires seg <= 7
  {
    if seg <= 1 then 8 else Scale(seg + 2)
  }

  /** Magnitude error at most half a step, and the opposite sign. */
  predicate WithinHalfStep(x: int16) {
    var y := Hop(x);
    && (x < 0 <==> y > 0)
    && Abs(Abs(x) - Abs(y)) <= HalfStep(SegmentOf(Magnitude(x)))
  }

  /** What a hop leaves of a sample: the level of its interval, with the sign flipped. */
  function Requantised(x: int16): int16 {
    var m := Magnitude(x);
    var t := Level(SegmentOf(m), Mantissa(m, SegmentOf(m)));
    if x < 0 then t else -t
  }

  lemma HopValue(x: int16)
    ensures Hop(x) == Requantised(x)
  {
    XorTwice(EncodeFields(x), 0x55);
    var m := Magnitude(x);
    FieldsApart(x < 0, SegmentOf(m), Mantissa(m, SegmentOf(m)));
  }

  lemma FieldsApart(negative: bool, seg: nat, mantissa: nat)
    requires seg < 8 && mantissa < 16
    ensures var a := (if negative then 0x80 else 0) + 16 * seg + mantissa;
            a / 16 % 8 == seg && a % 16 == mantissa && (a >= 0x80 <==> negative)
  {
  }

  /** The bound holds for every sample except -32768, whose 16-bit negation wraps to itself. */
  lemma QuantisationBound(x: int16)
    ensures WithinHalfStep(x) <==> x != -32768
  {
    HopValue(x);
    RequantisedBound(x);
  }

  lemma RequantisedBound(x: int16)
    ensures var y := Requantised(x);
            ((x < 0 <==> y > 0) && Abs(Abs(x) - Abs(y)) <= HalfStep(SegmentOf(Magnitude(x)))) <==> x != -32768
  {
    var m := Magnitude(x);
    if x == -32768 {
      assert m == -32768;
    } else {
      MagnitudeClips(x);
      hide Magnitude, SegmentOf, Mantissa, Level, HalfStep;
      LevelClose(m);
      LevelPositive(m);
      if Abs(x) > 32635 {
        ClippedLevel();
      }
    }
  }

  lemma MagnitudeClips(x: int16)
    requires x != -32768
    ensures Magnitude(x) == if Abs(x) > 32635 then 32635 else Abs(x)
  {
  }

  lemma LevelPositive(m: int16)
    ensures Level(SegmentOf(m), Mantissa(m, SegmentOf(m))) > 0
  {
  }

  /** Samples clipped at 32635 are still within half a step of the top level. */
  lemma ClippedLevel()
    ensures SegmentOf(32635) == 7 && Level(7, Mantissa(32635, 7)) == 32256 && HalfStep(7) == 512
  {
    SegmentUnique(32635, 7);
    assert Mantissa(32635, 7) == 15;
  }

  lemma LevelClose(m: int16)
    requires 0 <= m
    ensures Abs(m - Level(SegmentOf(m), Mantissa(m, SegmentOf(m)))) <= HalfStep(SegmentOf(m))
  {
    hide Segment, Level, Mantissa;
    SegmentRange(m);
    if SegmentOf(m) >= 2 {
      ScaleSteps(SegmentOf(m));
      MantissaOfSegment(m, SegmentOf(m));
    } else {
      LevelCloseLow(m, SegmentOf(m));
    }
  }

  lemma LevelCloseLow(m: int16, seg: nat)
    requires 0 <= m && (if m < 256 then seg == 0 else seg == 1 && m < 512)
    ensures Abs(m - Level(seg, Mantissa(m, seg))) <= HalfStep(seg)
  {
    if seg == 1 {
      assert m / 16 % 16 == m / 16 - 16;
    }
  }

  lemma MantissaOfSegment(m: int16, seg: nat)
    requires 2 <= seg <= 7
    requires 128 * Scale(seg) <= m < 256 * Scale(seg)
    ensures 0 <= m - Level(seg, Mantissa(m, seg)) + HalfStep(seg) < Scale(seg + 3)
  {
    var w := Scale(seg + 3);
    ScaleSteps(seg);
    var q := m / w;
    Quotient(m, w);
    assert 16 <= q < 32;
    assert Mantissa(m, seg) == q - 16;
    assert Level(seg, q - 16) == (16 * q + 8) * Scale(seg - 1) == q * w + Scale(seg + 2);
  }

  lemma ScaleSteps(seg: nat)
    requires 2 <= seg <= 7
    ensures Scale(seg + 3) == 8 * Scale(seg) == 16 * Scale(seg - 1) && Scale(seg + 2) == 4 * Scale(seg)
  {
  }

  /** The quotient of a magnitude in its segment lies between 16 and 31. */
  lemma Quotient(m: int, w: int)
    requires w > 0 && 16 * w <= m < 32 * w
    ensures 16 <= m / w < 32
  {
    var q := m / w;
    assert m == q * w + m % w;
    Scaled(q, 15, w);
    Scaled(32, q, w);
  }

  lemma Scaled(a: int, b: int, w: int)
    requires w > 0
    ensures a <= b ==> a * w <= b * w
  {
  }

  // ---------------------------------------------------------------- the code itself

  function Bit(a: nat, k: nat): nat {
    if k == 0 then a % 2 else Bit(a / 2, k - 1)
  }

  /** Exclusive or acts on each bit by itself. */
  lemma {:induction false} XorBits(a: nat, m: nat, k: nat)
    ensures Bit(Xor(a, m), k) == (Bit(a, k) + Bit(m, k)) % 2
  {
    hide Xor;
    XorParts(a, m);
    if k > 0 {
      XorBits(a / 2, m / 2, k - 1);
    }
  }

  /** The widths of the quantisation intervals, segment by segment. */
  function Width(seg: nat): nat
    requires seg < 8
  {
    [16, 16, 32, 64, 128, 256, 512, 1024][seg]
  }

  /** Where a segment begins. */
  function Start(seg: nat): nat
    requires seg < 8
  {
    [0, 256, 512, 1024, 2048, 4096, 8192, 16384][seg]
  }

  /** The code of a sample: the segment and interval that hold its magnitude, clipped at 32635, with
      the even bits toggled; and one hop gives the middle of the interval with the opposite sign. */
  lemma SampleCode(x: int16) returns (seg: nat, mantissa: nat)
    requires x != -32768
    ensures seg < 8 && mantissa < 16
    ensures var low := Start(seg) + mantissa * Width(seg);
            && low <= (if Abs(x) > 32635 then 32635 else Abs(x)) < low + Width(seg)
            && Hop(x) == (if x < 0 then low + Width(seg) / 2 else -(low + Width(seg) / 2))
    ensures EncodeSample(x) == XorByte((if x < 0 then 0x80 else 0) + 16 * seg + mantissa, 0x55)
  {
    hide Hop, Magnitude, SegmentOf, Mantissa, Level, Width, Start, XorByte;
    MagnitudeClips(x);
    HopValue(x);
    var m := Magnitude(x);
    seg := SegmentOf(m);
    mantissa := Mantissa(m, seg);
    IntervalOf(m);
  }

  lemma IntervalOf(m: int16)
    requires 0 <= m
    ensures var seg := SegmentOf(m); var low := Start(seg) + Mantissa(m, seg) * Width(seg);
            low <= m < low + Width(seg) && Level(seg, Mantissa(m, seg)) == low + Width(seg) / 2
  {
    hide Segment;
    SegmentRange(m);
    var seg := SegmentOf(m);
    if seg >= 1 {
      IntervalAt(m, seg);
    }
  }

  lemma IntervalAt(m: int16, seg: nat)
    requires 1 <= seg <= 7 && 128 * Scale(seg) <= m < 256 * Scale(seg)
    ensures var low := Start(seg) + Mantissa(m, seg) * Width(seg);
            low <= m < low + Width(seg) && Level(seg, Mantissa(m, seg)) == low + Width(seg) / 2
  {
    hide Mantissa;
    var mantissa := Mantissa(m, seg);
    MantissaAt(m, seg);
    match seg
    case 1 => case 2 => case 3 => case 4 => case 5 => case 6 => case 7 =>
  }

  lemma MantissaAt(m: int16, seg: nat)
    requires 1 <= seg <= 7 && 128 * Scale(seg) <= m < 256 * Scale(seg)
    ensures Start(seg) == 16 * Width(seg)
    ensures 0 <= m - Start(seg) - Mantissa(m, seg) * Width(seg) < Width(seg)
  {
    var w := Width(seg);
    ScaleWidth(seg);
    hide Width, Start, Scale;
    Quotient(m, w);
    assert Mantissa(m, seg) == m / w - 16;
    Remainder(m, w, m / w - 16);
  }

  lemma ScaleWidth(seg: nat)
    requires 1 <= seg <= 7
    ensures Width(seg) == Scale(seg + 3) == 8 * Scale(seg) && Start(seg) == 16 * Width(seg)
  {
  }

  lemma Remainder(m: int, w: int, n: int)
    requires w > 0 && m / w == n + 16
    ensures 0 <= m - 16 * w - n * w < w
  {
    assert m == (n + 16) * w + m % w;
  }

  /** -32768 wraps to itself when negated and is coded like the smallest negative sample. */
  lemma SmallestCode()
    ensures EncodeSample(-32768) == 0xD5 && Hop(-32768) == 8
  {
    hide Hop, XorByte, EncodeFields, Requantised;
    HopValue(-32768);
    SignToggled();
    SmallestFields();
  }

  lemma SmallestFields()
    ensures EncodeFields(-32768) == 0x80 && Requantised(-32768) == 8
  {
    assert Magnitude(-32768) == -32768 && SegmentOf(-32768) == 0;
  }

  lemma SignToggled()
    ensures XorByte(0x80, 0x55) == 0xD5
  {
    hide Xor;
    XorOrder(0);
    ToggleSignIsXor(0);
    ToggleSignIsXor(0x55);
    XorCommutes(0, 0x55);
    XorZero(0x55);
  }

  /** What comes out for a sample after one hop: the opposite sign, and a magnitude off by at most 8 or
      a thirty-second part, whichever is more; only -32768 comes out as 8. */
  predicate SampleHeard(x: int16, y: int16) {
    if x == -32768 then y == 8
    else
      && (x < 0 <==> y > 0)
      && 32 * Abs(Abs(x) - Abs(y)) <= (if Abs(x) < 256 then 256 else Abs(x))
  }

  lemma HopHeard(x: int16)
    ensures SampleHeard(x, Hop(x))
  {
    hide Hop, Width, Start;
    if x == -32768 {
      SmallestCode();
    } else {
      var low, w := SampleMiddle(x);
      CloseToMiddle(Abs(x), low, w);
    }
  }

  lemma SampleMiddle(x: int16) returns (low: nat, w: nat)
    requires x != -32768
    ensures low <= (if Abs(x) > 32635 then 32635 else Abs(x)) < low + w
    ensures w % 2 == 0 && 0 < w <= 1024 && (w == 16 || 16 * w <= low)
    ensures Hop(x) == if x < 0 then low + w / 2 else -(low + w / 2)
  {
    hide Hop, Width, Start, EncodeSample, XorByte;
    var seg, mantissa := SampleCode(x);
    Widths(seg);
    w := Width(seg);
    Scaled(0, mantissa, w);
    low := Start(seg) + mantissa * w;
  }

  lemma Widths(seg: nat)
    requires seg < 8
    ensures 16 <= Width(seg) <= 1024 && Width(seg) % 2 == 0 && (seg >= 1 ==> Start(seg) == 16 * Width(seg))
    ensures seg == 0 ==> Width(seg) == 16
  {
  }

  lemma CloseToMiddle(a: nat, low: nat, w: nat)
    requires low <= (if a > 32635 then 32635 else a) < low + w && a <= 32767
    requires w % 2 == 0 && w <= 1024 && (w == 16 || 16 * w <= low)
    ensures 32 * Abs(a - (low + w / 2)) <= (if a < 256 then 256 else a)
  {
  }

  lemma SilenceHeard()
    ensures Hop(0) == -8
  {
    hide Hop;
    var seg, mantissa := SampleCode(0);
  }

  /** Encoding a decoded byte toggles its sign bit and nothing else. */
  lemma EncodeDecode(b: byte)
    ensures EncodeSample(DecodeSample(b)) == XorByte(b, 0x80)
  {
    var a := XorByte(b, 0x55);
    RecodeFields(a);
    ToggleSignIsXor(a);
    XorOrder(b);
    XorTwice(XorByte(b, 0x80), 0x55);
  }

  lemma RecodeFields(a: byte)
    ensures EncodeFields(DecodeFields(a)) == ToggleSign(a)
  {
    hide Level, Mantissa, SegmentOf, EncodeFields;
    var seg, mantissa := a / 16 % 8, a % 16;
    LevelDecodes(seg, mantissa);
    EncodeLevel(Level(seg, mantissa), seg, mantissa, a < 0x80);
  }

  lemma EncodeLevel(t: int16, seg: nat, mantissa: nat, negative: bool)
    requires 8 <= t <= 32256 && seg < 8 && SegmentOf(t) == seg && Mantissa(t, seg) == mantissa
    ensures EncodeFields(if negative then -t else t) == (if negative then 0x80 else 0) + 16 * seg + mantissa
  {
    MagnitudeOfLevel(t, negative);
    hide Magnitude, SegmentOf, Mantissa;
  }

  lemma MagnitudeOfLevel(t: int16, negative: bool)
    requires 8 <= t <= 32256
    ensures Magnitude(if negative then -t else t) == t
  {
  }

  lemma LevelDecodes(seg: nat, mantissa: nat)
    requires seg < 8 && mantissa < 16
    ensures SegmentOf(Level(seg, mantissa)) == seg && Mantissa(Level(seg, mantissa), seg) == mantissa
  {
    if seg >= 2 {
      LevelScaled(seg, mantissa);
      SegmentUnique(Level(seg, mantissa), seg);
    } else {
      LevelPlain(seg, mantissa);
    }
  }

  lemma LevelPlain(seg: nat, mantissa: nat)
    requires seg < 2 && mantissa < 16
    ensures SegmentOf(Level(seg, mantissa)) == seg && Mantissa(Level(seg, mantissa), seg) == mantissa
  {
    hide Segment;
    SegmentRange(Level(seg, mantissa));
    if seg == 1 {
      SegmentUnique(Level(seg, mantissa), 1);
    }
  }

  lemma LevelScaled(seg: nat, mantissa: nat)
    requires 2 <= seg < 8 && mantissa < 16
    ensures 128 * Scale(seg) <= Level(seg, mantissa) < 256 * Scale(seg)
    ensures Mantissa(Level(seg, mantissa), seg) == mantissa
  {
    hide Segment;
    var w, s, t := Scale(seg + 3), Scale(seg - 1), Level(seg, mantissa);
    assert w == 16 * s && Scale(seg) == 2 * s;
    assert t == (mantissa + 16) * w + 8 * s;
    assert t / w == mantissa + 16;
  }

  lemma SegmentUnique(m: int, seg: nat)
    requires 1 <= seg <= 7 && 128 * Scale(seg) <= m < 256 * Scale(seg)
    ensures Segment(m) == seg
  {
    SegmentRange(m);
    ScaleMonotone(Segment(m), seg);
    ScaleMonotone(seg, Segment(m));
  }

  lemma ScaleMonotone(i: nat, j: nat)
    requires i <= 7 && j <= 7
    ensures i < j ==> 2 * Scale(i) <= Scale(j)
  {
  }

  lemma ToggleNegates(a: byte)
    ensures DecodeFields(ToggleSign(a)) == -DecodeFields(a)
  {
    assert ToggleSign(a) / 16 % 8 == a / 16 % 8 && ToggleSign(a) % 16 == a % 16;
  }

  lemma DecodeNegates(b: byte)
    ensures DecodeSample(XorByte(b, 0x80)) == -DecodeSample(b)
  {
    XorOrder(b);
    var a := XorByte(b, 0x55);
    ToggleSignIsXor(a);
    ToggleNegates(a);
  }

  /** A second hop only flips the sign, and a third flips it back. */
  lemma HopAgain(x: int16)
    ensures Hop(Hop(x)) == -Hop(x) && Hop(-Hop(x)) == Hop(x)
  {
    var b := EncodeSample(x);
    EncodeDecode(b);
    EncodeDecode(XorByte(b, 0x80));
    DecodeNegates(b);
    DecodeNegates(XorByte(b, 0x80));
  }

  /** `n` applications of `f`. */
  function Iterate(f: int16 -> int16, x: int16, n: nat): int16 {
    if n == 0 then x else f(Iterate(f, x, n - 1))
  }

  lemma {:induction false} IterateAlternates(f: int16 -> int16, x: int16, n: nat)
    requires f(x) != -32768 && f(f(x)) == -f(x) && f(-f(x)) == f(x)
    requires n >= 1
    ensures Iterate(f, x, n) == if n % 2 == 1 then f(x) else -f(x)
  {
    if n == 1 {
      assert Iterate(f, x, 0) == x;
    } else {
      IterateAlternates(f, x, n - 1);
    }
  }

  /** No generational loss: after the first hop, every further hop only flips the sign. */
  lemma NoGenerationalLoss(x: int16, n: nat)
    requires n >= 1
    ensures Iterate(Hop, x, n) == if n % 2 == 1 then Hop(x) else -Hop(x)
  {
    HopAgain(x);
    IterateAlternates(Hop, x, n);
  }

  function DecodeAll(src: seq<byte>): (r: seq<int16>)
    ensures |r| == |src|
  {
    seq(|src|, i requires 0 <= i < |src| => DecodeSample(src[i]))
  }

  function EncodeAll(src: seq<int16>): (r: seq<byte>)
    ensures |r| == |src|
  {
    seq(|src|, i requires 0 <= i < |src| => EncodeSample(src[i]))
  }

  function HopAll(src: seq<int16>): (r: seq<int16>)
    ensures |r| == |src|
  {
    seq(|src|, i requires 0 <= i < |src| => Hop(src[i]))
  }

  method DecodeBuffer(src: array<byte>, dst: array<int16>, count: nat)
    requires count <= src.Length && count <= dst.Length
    modifies dst
    ensures dst[..count] == DecodeAll(src[..count])
    ensures forall k :: 0 <= k < count ==> dst[k] == DecodeSample(src[k])
    ensures dst[count..] == old(dst[count..])
  {
    var i := 0;
    while i < count
      invariant i <= count
      invariant forall k :: 0 <= k < i ==> dst[k] == DecodeSample(src[k])
      invariant forall k :: i <= k < dst.Length ==> dst[k] == old(dst[k])
    {
      dst[i] := DecodeSample(src[i]);
      i := i + 1;
    }
  }

  method EncodeBuffer(src: array<int16>, dst: array<byte>, count: nat)
    requires count <= src.Length && count <= dst.Length
    modifies dst
    ensures dst[..count] == EncodeAll(src[..count])
    ensures forall k :: 0 <= k < count ==> dst[k] == EncodeSample(src[k])
    ensures dst[count..] == old(dst[count..])
  {
    var i := 0;
    while i < count
      invariant i <= count
      invariant forall k :: 0 <= k < i ==> dst[k] == EncodeSample(src[k])
      invariant forall k :: i <= k < dst.Length ==> dst[k] == old(dst[k])
    {
      var b := Encode(src[i]);
      dst[i] := b;
      i := i + 1;
    }
  }

  /** A whole buffer keeps within the sample bound over one hop. */
  lemma BufferHop(src: seq<int16>)
    ensures DecodeAll(EncodeAll(src)) == HopAll(src)
    ensures forall i :: 0 <= i < |src| ==> (WithinHalfStep(src[i]) <==> src[i] != -32768)
  {
    assert DecodeAll(EncodeAll(src)) == HopAll(src);
    forall i | 0 <= i < |src|
      ensures WithinHalfStep(src[i]) <==> src[i] != -32768
    {
      QuantisationBound(src[i]);
    }
  }
}
