/** The CRC-16 of the XModem adapter, and why a burst error never survives it.

    The program computes the checksum a byte at a time with shifts and xors. Here that is compared with long division:
    a message is read as a polynomial over GF(2), most significant bit first, and its checksum is the remainder of
    message * x^16 divided by x^16 + x^12 + x^5 + 1 (ITU-T V.41, section 2). */
module Crc16 {

  type Byte = bv8

  const GENERATOR: bv16 := 0x1021

  /** One iteration of the program's loop: five shift-and-xor assignments on the 16-bit register. */
  function ByteStep(crc: bv16, b: Byte): bv16 {
    var c1 := (crc >> 8) | (crc << 8);
    var c2 := c1 ^ (b as bv16);
    var c3 := c2 ^ ((c2 & 0xff) >> 4);
    var c4 := c3 ^ ((c3 << 8) << 4);
    c4 ^ (((c4 & 0xff) << 4) << 1)
  }

  function Crc(buffer: seq<Byte>): bv16 {
    if buffer == [] then 0 else ByteStep(Crc(buffer[..|buffer| - 1]), buffer[|buffer| - 1])
  }

  method ComputeCrc(buffer: seq<Byte>) returns (crc: bv16)
    ensures crc == Crc(buffer)
  {
    crc := 0;
    var i := 0;
    while i < |buffer|
      invariant 0 <= i <= |buffer|
      invariant crc == Crc(buffer[..i])
    {
      assert buffer[..i + 1][..i] == buffer[..i];
      crc := ByteStep(crc, buffer[i]);
      i := i + 1;
    }
    assert buffer[..i] == buffer;
  }

  // ---------- Long division over GF(2)

  function Xor(a: bv16, b: bv16): bv16 {
    a ^ b
  }

  /** Multiplication by x modulo the generator: shift left and, when the top bit falls out, subtract the generator. The
      top bit is spread over the generator's three low terms without a branch; see TimesXSubtractsGenerator. */
  function TimesX(r: bv16): bv16 {
    (r << 1) ^ (((r >> 15) << 12) ^ ((r >> 15) << 5) ^ (r >> 15))
  }

  function BitValue(bit: bool): bv16 {
    if bit then 1 else 0
  }

  /** The remainder after the bits have been brought down one by one into a division whose remainder so far is r. */
  function Divide(r: bv16, bits: seq<bool>): bv16
    decreases |bits|
  {
    if bits == [] then r else Divide(Xor(TimesX(r), BitValue(bits[0])), bits[1..])
  }

  function Zeros(n: nat): seq<bool> {
    seq(n, _ => false)
  }

  predicate Has(b: Byte, mask: Byte) {
    b & mask != 0
  }

  function Mask(i: nat): Byte
    requires i < 8
  {
    if i == 0 then 0x80 else if i == 1 then 0x40 else if i == 2 then 0x20 else if i == 3 then 0x10
    else if i == 4 then 8 else if i == 5 then 4 else if i == 6 then 2 else 1
  }

  predicate BitAt(b: Byte, i: nat)
    requires i < 8
  {
    Has(b, Mask(i))
  }

  function BitsOf(b: Byte): (bits: seq<bool>)
    ensures |bits| == 8
  {
    seq(8, i requires 0 <= i < 8 => BitAt(b, i))
  }

  /** The bits of a message, most significant bit of the first byte first. */
  function MessageBits(m: seq<Byte>): (bits: seq<bool>)
    ensures |bits| == 8 * |m|
  {
    if m == [] then [] else MessageBits(m[..|m| - 1]) + BitsOf(m[|m| - 1])
  }

  lemma TimesXSubtractsGenerator(r: bv16)
    ensures r & 0x8000 != 0 ==> TimesX(r) == (r << 1) ^ GENERATOR
    ensures r & 0x8000 == 0 ==> TimesX(r) == r << 1
  {
  }

  lemma TimesXLinear(p: bv16, q: bv16)
    ensures TimesX(Xor(p, q)) == Xor(TimesX(p), TimesX(q))
  {
    hide TimesX;
    TimesXLinearBits(p, q);
  }

  lemma TimesXLinearBits(p: bv16, q: bv16)
    ensures TimesX(p ^ q) == TimesX(p) ^ TimesX(q)
  {
  }

  lemma TimesXInjectiveAtZero(r: bv16)
    requires TimesX(r) == 0
    ensures r == 0
  {
  }

  lemma XorExchange(a: bv16, b: bv16, c: bv16, d: bv16)
    ensures Xor(Xor(a, b), Xor(c, d)) == Xor(Xor(a, c), Xor(b, d))
  {
    calc {
      Xor(Xor(a, b), Xor(c, d));
      Xor(a ^ b, c ^ d);
      { XorExchangeBits(a, b, c, d); }
      Xor(a ^ c, b ^ d);
    }
  }

  lemma XorExchangeBits(a: bv16, b: bv16, c: bv16, d: bv16)
    ensures Xor(a ^ b, c ^ d) == Xor(a ^ c, b ^ d)
  {
  }

  lemma XorZero(a: bv16)
    ensures Xor(a, 0) == a && Xor(0, a) == a
  {
  }

  lemma BitValueXor(a: bool, b: bool)
    ensures BitValue(Differ(a, b)) == Xor(BitValue(a), BitValue(b))
  {
  }

  lemma {:induction false} DivideConcat(r: bv16, a: seq<bool>, b: seq<bool>)
    ensures Divide(r, a + b) == Divide(Divide(r, a), b)
    decreases |a|
  {
    hide Xor, TimesX, BitValue;
    if a == [] {
      assert a + b == b;
    } else {
      assert (a + b)[1..] == a[1..] + b;
      DivideConcat(Xor(TimesX(r), BitValue(a[0])), a[1..], b);
    }
  }

  predicate Differ(a: bool, b: bool) {
    a != b
  }

  function XorBits(a: seq<bool>, b: seq<bool>): (r: seq<bool>)
    requires |a| == |b|
    ensures |r| == |a|
  {
    seq(|a|, i requires 0 <= i < |a| => Differ(a[i], b[i]))
  }

  lemma {:induction false} DivideLinear(p: bv16, q: bv16, a: seq<bool>, b: seq<bool>)
    requires |a| == |b|
    ensures Divide(Xor(p, q), XorBits(a, b)) == Xor(Divide(p, a), Divide(q, b))
    decreases |a|
  {
    hide Xor, TimesX, BitValue;
    if a != [] {
      TimesXLinear(p, q);
      BitValueXor(a[0], b[0]);
      XorExchange(TimesX(p), TimesX(q), BitValue(a[0]), BitValue(b[0]));
      assert XorBits(a, b)[1..] == XorBits(a[1..], b[1..]);
      DivideLinear(Xor(TimesX(p), BitValue(a[0])), Xor(TimesX(q), BitValue(b[0])), a[1..], b[1..]);
    }
  }

  lemma DivideZero(r: bv16, n: nat)
    requires n > 0
    ensures Divide(r, Zeros(n)) == Divide(TimesX(r), Zeros(n - 1))
  {
    assert BitValue(false) == 0;
    hide Xor, TimesX, BitValue;
    assert Zeros(n)[1..] == Zeros(n - 1);
    XorZero(TimesX(r));
  }

  // ---------- Eight bits at a time

  function TimesX8(r: bv16): bv16 {
    TimesX(TimesX(TimesX(TimesX(TimesX(TimesX(TimesX(TimesX(r))))))))
  }

  lemma DivideFourZeros(r: bv16)
    ensures Divide(r, Zeros(4)) == TimesX(TimesX(TimesX(TimesX(r))))
  {
    hide Xor, TimesX, BitValue;
    DivideZero(r, 4);
    DivideZero(TimesX(r), 3);
    DivideZero(TimesX(TimesX(r)), 2);
    DivideZero(TimesX(TimesX(TimesX(r))), 1);
  }

  lemma DivideEightZeros(r: bv16)
    ensures Divide(r, Zeros(8)) == TimesX8(r)
  {
    hide Xor, TimesX, BitValue, Divide;
    assert Zeros(8) == Zeros(4) + Zeros(4);
    DivideConcat(r, Zeros(4), Zeros(4));
    DivideFourZeros(r);
    DivideFourZeros(Divide(r, Zeros(4)));
  }

  lemma TimesX8Linear(p: bv16, q: bv16)
    ensures TimesX8(Xor(p, q)) == Xor(TimesX8(p), TimesX8(q))
  {
    hide Xor, TimesX, TimesX8, Divide;
    DivideEightZeros(p);
    DivideEightZeros(q);
    DivideEightZeros(Xor(p, q));
    assert XorBits(Zeros(8), Zeros(8)) == Zeros(8);
    DivideLinear(p, q, Zeros(8), Zeros(8));
  }

  function HighByte(w: bv16): bv16 {
    (w >> 8) << 8
  }

  function LowByte(w: bv16): bv16 {
    w & 0xff
  }

  function Raised(w: bv16): bv16 {
    w << 8
  }

  lemma SplitBytes(w: bv16)
    ensures w == Xor(HighByte(w), LowByte(w)) && Raised(LowByte(w)) == Raised(w)
  {
  }

  lemma LowByteTimesX8(w: bv16)
    ensures TimesX8(LowByte(w)) == Raised(LowByte(w))
  {
  }

  lemma HighByteTimesX8(w: bv16)
    ensures TimesX8(HighByte(w)) == ByteStep(HighByte(w), 0)
  {
  }

  lemma EqualNibbles(a: bv16, b: bv16)
    requires a & 0xf == b & 0xf && a & 0xf0 == b & 0xf0 && a & 0xf00 == b & 0xf00 && a & 0xf000 == b & 0xf000
    ensures a == b
  {
  }

  lemma LowByteStep0(w: bv16)
    ensures ByteStep(w, 0) & 0xf == Xor(ByteStep(HighByte(w), 0), Raised(w)) & 0xf
  {
  }

  lemma LowByteStep1(w: bv16)
    ensures ByteStep(w, 0) & 0xf0 == Xor(ByteStep(HighByte(w), 0), Raised(w)) & 0xf0
  {
  }

  lemma LowByteStep2(w: bv16)
    ensures ByteStep(w, 0) & 0xf00 == Xor(ByteStep(HighByte(w), 0), Raised(w)) & 0xf00
  {
  }

  lemma LowByteStep3(w: bv16)
    ensures ByteStep(w, 0) & 0xf000 == Xor(ByteStep(HighByte(w), 0), Raised(w)) & 0xf000
  {
  }

  /** The low byte of the register only moves up; checked a nibble at a time. */
  lemma LowByteStep(w: bv16)
    ensures ByteStep(w, 0) == Xor(ByteStep(HighByte(w), 0), Raised(w))
  {
    hide ByteStep, Xor, HighByte, Raised;
    LowByteStep0(w);
    LowByteStep1(w);
    LowByteStep2(w);
    LowByteStep3(w);
    EqualNibbles(ByteStep(w, 0), Xor(ByteStep(HighByte(w), 0), Raised(w)));
  }

  lemma AbsorbByte(crc: bv16, b: Byte)
    ensures ByteStep(crc, b) == ByteStep(Xor(crc, Raised(b as bv16)), 0)
  {
    hide ByteStep;
    AbsorbByteBits(crc, b);
  }

  lemma AbsorbByteBits(crc: bv16, b: Byte)
    ensures ByteStep(crc, b) == ByteStep(crc ^ ((b as bv16) << 8), 0)
  {
  }

  /** The program's five assignments divide by the generator, eight bits at once. */
  lemma ByteStepIsDivision(crc: bv16, b: Byte)
    ensures ByteStep(crc, b) == TimesX8(Xor(crc, Raised(b as bv16)))
  {
    hide ByteStep, TimesX8, Xor, HighByte, LowByte, Raised;
    var w := Xor(crc, Raised(b as bv16));
    AbsorbByte(crc, b);
    calc {
      TimesX8(w);
      { SplitBytes(w); }
      TimesX8(Xor(HighByte(w), LowByte(w)));
      { TimesX8Linear(HighByte(w), LowByte(w)); }
      Xor(TimesX8(HighByte(w)), TimesX8(LowByte(w)));
      { LowByteTimesX8(w); HighByteTimesX8(w); SplitBytes(w); }
      Xor(ByteStep(HighByte(w), 0), Raised(w));
      { LowByteStep(w); }
      ByteStep(w, 0);
    }
  }

  // ---------- The checksum is a remainder

  lemma {:induction false} DivideZeroRegister(n: nat)
    ensures Divide(0, Zeros(n)) == 0
  {
    assert TimesX(0) == 0;
    hide Xor, TimesX, BitValue;
    if n > 0 {
      DivideZero(0, n);
      DivideZeroRegister(n - 1);
    }
  }

  function Word(b: Byte): bv16 {
    b as bv16
  }

  lemma WordOfByte(b: Byte)
    ensures Word(b) == b as bv16
  {
  }

  lemma TimesX8Word(b: Byte)
    ensures TimesX8(Word(b)) == Raised(Word(b))
  {
  }

  function AfterBit(r: bv16, bit: bool): bv16 {
    Xor(TimesX(r), BitValue(bit))
  }

  lemma AfterBitOfByte(b: Byte)
    ensures var bits := BitsOf(b);
            var half := AfterBit(AfterBit(AfterBit(AfterBit(0, bits[0]), bits[1]), bits[2]), bits[3]);
            AfterBit(AfterBit(AfterBit(AfterBit(half, bits[4]), bits[5]), bits[6]), bits[7]) == Word(b)
  {
  }

  lemma DivideBit(r: bv16, bit: bool, rest: seq<bool>)
    ensures Divide(r, [bit] + rest) == Divide(AfterBit(r, bit), rest)
  {
    hide Xor, TimesX, BitValue;
    assert ([bit] + rest)[1..] == rest;
  }

  lemma DivideFourBits(r: bv16, b0: bool, b1: bool, b2: bool, b3: bool)
    ensures Divide(r, [b0, b1, b2, b3]) == AfterBit(AfterBit(AfterBit(AfterBit(r, b0), b1), b2), b3)
  {
    hide AfterBit, Xor, TimesX, BitValue;
    assert [b0, b1, b2, b3] == [b0] + [b1, b2, b3];
    DivideBit(r, b0, [b1, b2, b3]);
    assert [b1, b2, b3] == [b1] + [b2, b3];
    DivideBit(AfterBit(r, b0), b1, [b2, b3]);
    assert [b2, b3] == [b2] + [b3];
    DivideBit(AfterBit(AfterBit(r, b0), b1), b2, [b3]);
    assert [b3] == [b3] + [];
    DivideBit(AfterBit(AfterBit(AfterBit(r, b0), b1), b2), b3, []);
  }

  /** A byte brought down into an empty remainder is that byte: nothing has fallen out at the top yet. */
  lemma DivideByteFromZero(b: Byte)
    ensures Divide(0, BitsOf(b)) == Word(b)
  {
    hide AfterBit, Xor, TimesX, BitValue, BitsOf, Divide;
    var bits := BitsOf(b);
    AfterBitOfByte(b);
    assert bits == [bits[0], bits[1], bits[2], bits[3]] + [bits[4], bits[5], bits[6], bits[7]];
    DivideConcat(0, [bits[0], bits[1], bits[2], bits[3]], [bits[4], bits[5], bits[6], bits[7]]);
    DivideFourBits(0, bits[0], bits[1], bits[2], bits[3]);
    DivideFourBits(Divide(0, [bits[0], bits[1], bits[2], bits[3]]), bits[4], bits[5], bits[6], bits[7]);
  }

  lemma DivideByte(r: bv16, b: Byte)
    ensures Divide(r, BitsOf(b)) == Xor(TimesX8(r), Word(b))
  {
    hide Xor, TimesX, TimesX8, BitValue, BitsOf, Divide, Word;
    XorZero(r);
    assert XorBits(Zeros(8), BitsOf(b)) == BitsOf(b);
    DivideLinear(r, 0, Zeros(8), BitsOf(b));
    DivideEightZeros(r);
    DivideByteFromZero(b);
  }

  /** The checksum of every message is the remainder of message * x^16 by the generator. */
  lemma {:induction false} CrcIsRemainder(m: seq<Byte>)
    ensures Crc(m) == Divide(0, MessageBits(m) + Zeros(16))
  {
    hide Xor, TimesX, TimesX8, BitValue, BitsOf, Divide, ByteStep, Word, Raised;
    DivideConcat(0, MessageBits(m), Zeros(16));
    if m == [] {
      assert MessageBits(m) + Zeros(16) == Zeros(16);
      DivideZeroRegister(16);
    } else {
      var front, b := m[..|m| - 1], m[|m| - 1];
      var r := Divide(0, MessageBits(front));
      CrcIsRemainder(front);
      DivideConcat(0, MessageBits(front), Zeros(16));
      DivideConcat(0, MessageBits(front), BitsOf(b));
      calc {
        Divide(Divide(r, BitsOf(b)), Zeros(16));
        { DivideByte(r, b); }
        Divide(Xor(TimesX8(r), Word(b)), Zeros(16));
        { assert XorBits(Zeros(16), Zeros(16)) == Zeros(16); DivideLinear(TimesX8(r), Word(b), Zeros(16), Zeros(16)); }
        Xor(Divide(TimesX8(r), Zeros(16)), Divide(Word(b), Zeros(16)));
        { SixteenZeros(r); SixteenZeros(Word(b)); TimesX8Word(b); DivideEightZeros(Word(b)); }
        Xor(TimesX8(Divide(r, Zeros(16))), TimesX8(Raised(Word(b))));
        { TimesX8Linear(Divide(r, Zeros(16)), Raised(Word(b))); }
        TimesX8(Xor(Crc(front), Raised(Word(b))));
        { ByteStepIsDivision(Crc(front), b); WordOfByte(b); }
        Crc(m);
      }
    }
  }

  lemma SixteenZeros(r: bv16)
    ensures Divide(TimesX8(r), Zeros(16)) == TimesX8(Divide(r, Zeros(16)))
    ensures Divide(r, Zeros(16)) == TimesX8(TimesX8(r))
  {
    hide Xor, TimesX, TimesX8, BitValue, Divide;
    var s := Divide(r, Zeros(16));
    DivideEightZeros(r);
    DivideEightZeros(s);
    DivideEightZeros(TimesX8(r));
    assert Zeros(8) + Zeros(16) == Zeros(16) + Zeros(8);
    assert Zeros(8) + Zeros(8) == Zeros(16);
    DivideConcat(r, Zeros(8), Zeros(16));
    DivideConcat(r, Zeros(16), Zeros(8));
    DivideConcat(r, Zeros(8), Zeros(8));
  }

  // ---------- Linearity and burst errors

  function XorByte(a: Byte, b: Byte): Byte {
    a ^ b
  }

  function XorBytes(a: seq<Byte>, b: seq<Byte>): (r: seq<Byte>)
    requires |a| == |b|
    ensures |r| == |a|
  {
    seq(|a|, i requires 0 <= i < |a| => XorByte(a[i], b[i]))
  }

  lemma HighBitsXor(a: Byte, b: Byte)
    ensures Has(XorByte(a, b), 0x80) == Differ(Has(a, 0x80), Has(b, 0x80))
    ensures Has(XorByte(a, b), 0x40) == Differ(Has(a, 0x40), Has(b, 0x40))
    ensures Has(XorByte(a, b), 0x20) == Differ(Has(a, 0x20), Has(b, 0x20))
    ensures Has(XorByte(a, b), 0x10) == Differ(Has(a, 0x10), Has(b, 0x10))
  {
  }

  lemma LowBitsXor(a: Byte, b: Byte)
    ensures Has(XorByte(a, b), 8) == Differ(Has(a, 8), Has(b, 8))
    ensures Has(XorByte(a, b), 4) == Differ(Has(a, 4), Has(b, 4))
    ensures Has(XorByte(a, b), 2) == Differ(Has(a, 2), Has(b, 2))
    ensures Has(XorByte(a, b), 1) == Differ(Has(a, 1), Has(b, 1))
  {
  }

  lemma MaskXor(a: Byte, b: Byte, m: Byte)
    requires m == 0x80 || m == 0x40 || m == 0x20 || m == 0x10 || m == 8 || m == 4 || m == 2 || m == 1
    ensures Has(XorByte(a, b), m) == Differ(Has(a, m), Has(b, m))
  {
    hide XorByte, Differ, Has;
    if m == 0x80 || m == 0x40 || m == 0x20 || m == 0x10 {
      HighBitsXor(a, b);
    } else {
      LowBitsXor(a, b);
    }
  }

  lemma MaskIsOneBit(i: nat)
    requires i < 8
    ensures Mask(i) == 0x80 || Mask(i) == 0x40 || Mask(i) == 0x20 || Mask(i) == 0x10
         || Mask(i) == 8 || Mask(i) == 4 || Mask(i) == 2 || Mask(i) == 1
  {
  }

  lemma BitAtXor(a: Byte, b: Byte, i: nat)
    requires i < 8
    ensures BitAt(XorByte(a, b), i) == Differ(BitAt(a, i), BitAt(b, i))
  {
    hide XorByte, Differ, Has, Mask;
    MaskIsOneBit(i);
    MaskXor(a, b, Mask(i));
  }

  lemma BitsOfXor(a: Byte, b: Byte)
    ensures BitsOf(XorByte(a, b)) == XorBits(BitsOf(a), BitsOf(b))
  {
    hide BitAt, XorByte, Differ;
    forall i | 0 <= i < 8
      ensures BitsOf(XorByte(a, b))[i] == XorBits(BitsOf(a), BitsOf(b))[i]
    {
      BitAtXor(a, b, i);
    }
  }

  lemma {:induction false} MessageBitsXor(a: seq<Byte>, b: seq<Byte>)
    requires |a| == |b|
    ensures MessageBits(XorBytes(a, b)) == XorBits(MessageBits(a), MessageBits(b))
  {
    hide BitsOf, XorByte;
    if a != [] {
      var n := |a| - 1;
      MessageBitsXor(a[..n], b[..n]);
      BitsOfXor(a[n], b[n]);
      assert XorBytes(a, b)[..n] == XorBytes(a[..n], b[..n]);
    }
  }

  lemma CrcLinear(a: seq<Byte>, b: seq<Byte>)
    requires |a| == |b|
    ensures Crc(XorBytes(a, b)) == Xor(Crc(a), Crc(b))
  {
    hide Xor, TimesX, BitValue, BitsOf, Divide, Crc, MessageBits;
    CrcIsRemainder(a);
    CrcIsRemainder(b);
    CrcIsRemainder(XorBytes(a, b));
    MessageBitsXor(a, b);
    var x, y := MessageBits(a) + Zeros(16), MessageBits(b) + Zeros(16);
    assert MessageBits(XorBytes(a, b)) + Zeros(16) == XorBits(x, y);
    XorZero(0);
    DivideLinear(0, 0, x, y);
  }

  /** The error pattern flips at least one bit, and all the bits it flips lie in the 16 positions from p on. */
  ghost predicate BurstAt(e: seq<Byte>, p: nat) {
    && (exists k :: 0 <= k < 8 * |e| && MessageBits(e)[k])
    && (forall k :: 0 <= k < 8 * |e| && MessageBits(e)[k] ==> p <= k < p + 16)
  }

  ghost predicate Burst(e: seq<Byte>) {
    exists p: nat :: BurstAt(e, p)
  }

  function ByteOf(bits: seq<bool>): Byte
    requires |bits| == 8
  {
      (if bits[0] then 0x80 else 0) | (if bits[1] then 0x40 else 0) | (if bits[2] then 0x20 else 0)
    | (if bits[3] then 0x10 else 0) | (if bits[4] then 8 else 0) | (if bits[5] then 4 else 0)
    | (if bits[6] then 2 else 0) | (if bits[7] then 1 else 0)
  }

  lemma BitsOfByteOf(bits: seq<bool>)
    requires |bits| == 8
    ensures BitsOf(ByteOf(bits)) == bits
  {
  }

  lemma WordNotZero(x: Byte, y: Byte)
    requires x != 0 || y != 0
    ensures Xor(Raised(Word(x)), Word(y)) != 0
  {
  }

  lemma BitsOfZero()
    ensures BitsOf(0) == Zeros(8)
  {
  }

  /** Sixteen bits brought down into an empty remainder are still all there. */
  lemma SixteenBitsSurvive(w: seq<bool>)
    requires |w| == 16 && true in w
    ensures Divide(0, w) != 0
  {
    hide Xor, TimesX, TimesX8, BitValue, BitsOf, Divide, Word, Raised, ByteOf;
    var x, y := ByteOf(w[..8]), ByteOf(w[8..]);
    BitsOfByteOf(w[..8]);
    BitsOfByteOf(w[8..]);
    assert w == BitsOf(x) + BitsOf(y);
    var k :| 0 <= k < 16 && w[k];
    assert if k < 8 then BitsOf(x)[k] else BitsOf(y)[k - 8];
    BitsOfZero();
    DivideConcat(0, BitsOf(x), BitsOf(y));
    DivideByteFromZero(x);
    DivideByte(Word(x), y);
    TimesX8Word(x);
    WordNotZero(x, y);
  }

  lemma {:induction false} ZerosKeepNonZero(r: bv16, n: nat)
    requires r != 0
    ensures Divide(r, Zeros(n)) != 0
    decreases n
  {
    hide Xor, TimesX, BitValue;
    if n > 0 {
      DivideZero(r, n);
      if TimesX(r) == 0 {
        TimesXInjectiveAtZero(r);
      }
      ZerosKeepNonZero(TimesX(r), n - 1);
    }
  }

  /** Every non-zero error within 16 consecutive bits changes the remainder. */
  lemma BurstHasRemainder(bits: seq<bool>, p: nat)
    requires true in bits
    requires forall k :: 0 <= k < |bits| && bits[k] ==> p <= k < p + 16
    ensures Divide(0, bits + Zeros(16)) != 0
  {
    hide Xor, TimesX, BitValue, Divide;
    var padded := Zeros(16) + (bits + Zeros(16));
    DivideConcat(0, Zeros(16), bits + Zeros(16));
    DivideZeroRegister(16);
    var q := if p <= |bits| then p else |bits|;
    var w := padded[16 + q..32 + q];
    assert padded == Zeros(16 + q) + w + Zeros(|bits| - q);
    var k :| 0 <= k < |bits| && bits[k];
    assert q == p && padded[16 + k] == bits[k];
    assert w[k - q] == padded[16 + q + (k - q)];
    DivideConcat(0, Zeros(16 + q), w);
    DivideConcat(0, Zeros(16 + q) + w, Zeros(|bits| - q));
    DivideZeroRegister(16 + q);
    SixteenBitsSurvive(w);
    ZerosKeepNonZero(Divide(0, w), |bits| - q);
  }

  lemma XorChanges(a: bv16, b: bv16)
    requires b != 0
    ensures Xor(a, b) != a
  {
  }

  /** A buffer of any length hit by a burst of at most 16 bits no longer has the checksum it had. */
  lemma CrcDetectsBurst(a: seq<Byte>, e: seq<Byte>)
    requires |a| == |e|
    requires Burst(e)
    ensures Crc(XorBytes(a, e)) != Crc(a)
  {
    hide Xor, TimesX, BitValue, BitsOf, Divide, Crc, MessageBits;
    var p: nat :| BurstAt(e, p);
    BurstHasRemainder(MessageBits(e), p);
    CrcIsRemainder(e);
    CrcLinear(a, e);
    XorChanges(Crc(a), Crc(e));
  }
}
