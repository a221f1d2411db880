/** The two bit-serial checksums: CRC-16 of the saved configuration, CRC-8 of the SHT3x frames. */
module Crc {
  import opened Gf2

  type Byte = bv8

  /** The mask of the i-th bit from the top. */
  function Mask16(i: nat): (m: bv16)
    requires i < 16
    ensures m != 0 && m & (m - 1) == 0
    ensures i == 0 ==> m == 0x8000
    ensures m == 1 <==> i == 15
  {
    [0x8000, 0x4000, 0x2000, 0x1000, 0x0800, 0x0400, 0x0200, 0x0100,
     0x0080, 0x0040, 0x0020, 0x0010, 0x0008, 0x0004, 0x0002, 0x0001][i]
  }

  predicate Bit16(c: bv16, mask: bv16) { c & mask != 0 }

  /** A register as bits, high bit first. */
  function Bits16(c: bv16): (r: Bits)
    ensures |r| == 16
    ensures forall i :: 0 <= i < 16 ==> r[i] == Bit16(c, Mask16(i))
  {
    seq(16, i requires 0 <= i < 16 => Bit16(c, Mask16(i)))
  }

  lemma XorBit16(a: bv16, b: bv16, m: bv16)
    requires m & (m - 1) == 0
    ensures Bit16(a ^ b, m) == (Bit16(a, m) != Bit16(b, m))
  {
  }

  lemma XorBits16(a: bv16, b: bv16)
    ensures Bits16(a ^ b) == Xor(Bits16(a), Bits16(b))
  {
    hide Bit16, Mask16;
    forall i | 0 <= i < 16 ensures Bits16(a ^ b)[i] == Xor(Bits16(a), Bits16(b))[i] {
      XorBit16(a, b, Mask16(i));
    }
  }

  lemma ShiftBit16(c: bv16, m: bv16)
    ensures m << 1 != 0 && m & (m - 1) == 0 ==> Bit16(c << 1, m << 1) == Bit16(c, m)
    ensures !Bit16(c << 1, 1)
  {
  }

  lemma NextMask16(i: nat)
    requires 1 <= i < 16
    ensures Mask16(i - 1) == Mask16(i) << 1
  {
  }

  lemma ShiftBits16(c: bv16)
    ensures Bits16(c << 1) == Bits16(c)[1..] + [false]
  {
    hide Bit16, Mask16;
    forall i | 0 <= i < 16 ensures Bits16(c << 1)[i] == (Bits16(c)[1..] + [false])[i] {
      if i < 15 {
        NextMask16(i + 1);
        ShiftBit16(c, Mask16(i + 1));
      } else {
        ShiftBit16(c, 1);
      }
    }
  }

  /** The mask of the i-th bit from the top. */
  function Mask8(i: nat): (m: bv8)
    requires i < 8
    ensures m != 0 && m & (m - 1) == 0
    ensures i == 0 ==> m == 0x80
    ensures m == 1 <==> i == 7
  {
    [0x80, 0x40, 0x20, 0x10, 0x08, 0x04, 0x02, 0x01][i]
  }

  predicate Bit8(c: bv8, mask: bv8) { c & mask != 0 }

  /** A byte as bits, high bit first. */
  function Bits8(c: bv8): (r: Bits)
    ensures |r| == 8
    ensures forall i :: 0 <= i < 8 ==> r[i] == Bit8(c, Mask8(i))
  {
    seq(8, i requires 0 <= i < 8 => Bit8(c, Mask8(i)))
  }

  lemma XorBit8(a: bv8, b: bv8, m: bv8)
    requires m & (m - 1) == 0
    ensures Bit8(a ^ b, m) == (Bit8(a, m) != Bit8(b, m))
  {
  }

  lemma XorBits8(a: bv8, b: bv8)
    ensures Bits8(a ^ b) == Xor(Bits8(a), Bits8(b))
  {
    hide Bit8, Mask8;
    forall i | 0 <= i < 8 ensures Bits8(a ^ b)[i] == Xor(Bits8(a), Bits8(b))[i] {
      XorBit8(a, b, Mask8(i));
    }
  }

  lemma ShiftBit8(c: bv8, m: bv8)
    ensures m << 1 != 0 && m & (m - 1) == 0 ==> Bit8(c << 1, m << 1) == Bit8(c, m)
    ensures !Bit8(c << 1, 1)
  {
  }

  lemma NextMask8(i: nat)
    requires 1 <= i < 8
    ensures Mask8(i - 1) == Mask8(i) << 1
  {
  }

  lemma ShiftBits8(c: bv8)
    ensures Bits8(c << 1) == Bits8(c)[1..] + [false]
  {
    hide Bit8, Mask8;
    forall i | 0 <= i < 8 ensures Bits8(c << 1)[i] == (Bits8(c)[1..] + [false])[i] {
      if i < 7 {
        NextMask8(i + 1);
        ShiftBit8(c, Mask8(i + 1));
      } else {
        ShiftBit8(c, 1);
      }
    }
  }

  lemma TopMasks(d: bv8, i: nat)
    requires i < 16
    ensures Bit16((d as bv16) << 8, Mask16(i)) == (i < 8 && Bit8(d, Mask8(i)))
  {
  }

  /** A byte moved to the top of a register. */
  lemma TopBits(d: bv8)
    ensures Bits16((d as bv16) << 8) == Pad(Bits8(d), 16)
  {
    hide Bit16, Bit8, Mask16, Mask8;
    forall i | 0 <= i < 16 ensures Bits16((d as bv16) << 8)[i] == Pad(Bits8(d), 16)[i] {
      TopMasks(d, i);
    }
  }

  /** A buffer as one bit string, high bit of each byte first. */
  function BitString(data: seq<Byte>): (m: Bits)
    ensures |m| == 8 * |data|
  {
    if data == [] then [] else BitString(data[..|data| - 1]) + Bits8(data[|data| - 1])
  }

  lemma Masks8()
    ensures Mask8(0) == 0x80 && Mask8(1) == 0x40 && Mask8(2) == 0x20 && Mask8(3) == 0x10
    ensures Mask8(4) == 0x08 && Mask8(5) == 0x04 && Mask8(6) == 0x02 && Mask8(7) == 0x01
  {
  }

  /** A byte none of whose masked bits is set is zero. */
  lemma NoBitSet8(x: bv8)
    requires forall i: nat :: i < 8 ==> !Bit8(x, Mask8(i))
    ensures x == 0
  {
    assert !Bit8(x, Mask8(0)) && !Bit8(x, Mask8(1)) && !Bit8(x, Mask8(2)) && !Bit8(x, Mask8(3));
    assert !Bit8(x, Mask8(4)) && !Bit8(x, Mask8(5)) && !Bit8(x, Mask8(6)) && !Bit8(x, Mask8(7));
    Masks8();
  }

  lemma Bits8Injective(a: bv8, b: bv8)
    ensures Bits8(a) == Bits8(b) <==> a == b
  {
    hide Bit8, Mask8;
    if Bits8(a) == Bits8(b) {
      forall i: nat | i < 8 ensures !Bit8(a ^ b, Mask8(i)) {
        assert Bits8(a)[i] == Bits8(b)[i];
        XorBit8(a, b, Mask8(i));
      }
      NoBitSet8(a ^ b);
      EqualIfXorZero8(a, b);
    }
  }

  lemma EqualIfXorZero8(a: bv8, b: bv8)
    requires a ^ b == 0
    ensures a == b
  {
  }

  lemma {:induction false} BitStringInjective(data: seq<Byte>, data': seq<Byte>)
    requires |data| == |data'|
    ensures BitString(data) == BitString(data') <==> data == data'
    decreases |data|
  {
    hide Bits8;
    if data != [] {
      var n := |data| - 1;
      var m, m' := BitString(data), BitString(data');
      BitStringInjective(data[..n], data'[..n]);
      Bits8Injective(data[n], data'[n]);
      assert m[..8 * n] == BitString(data[..n]) && m'[..8 * n] == BitString(data'[..n]);
      assert m[8 * n..] == Bits8(data[n]) && m'[8 * n..] == Bits8(data'[n]);
      assert data == data[..n] + [data[n]] && data' == data'[..n] + [data'[n]];
    }
  }

  const POLY16: Bits := Bits16(0x1021)
  const POLY8: Bits := Bits8(0x31)

  function Step16(c: bv16): bv16 { if c & 0x8000 != 0 then (c << 1) ^ 0x1021 else c << 1 }
  function Step8(c: bv8): bv8 { if c & 0x80 != 0 then (c << 1) ^ 0x31 else c << 1 }

  lemma Step16IsShift(c: bv16)
    ensures Bits16(Step16(c)) == Shift(POLY16, Bits16(c))
  {
    assert Bits16(c)[0] <==> c & 0x8000 != 0;
    hide Bit16, Mask16, Bits16;
    ShiftBits16(c);
    XorBits16(c << 1, 0x1021);
  }

  lemma Step8IsShift(c: bv8)
    ensures Bits8(Step8(c)) == Shift(POLY8, Bits8(c))
  {
    assert Bits8(c)[0] <==> c & 0x80 != 0;
    hide Bit8, Mask8, Bits8;
    ShiftBits8(c);
    XorBits8(c << 1, 0x31);
  }

  function Steps16(c: bv16, k: nat): bv16
    decreases k
  {
    if k == 0 then c else Steps16(Step16(c), k - 1)
  }

  /** A data byte is added to the top of the register, then eight bits are shifted out. */
  function Update16(c: bv16, d: Byte): bv16 { Steps16(c ^ ((d as bv16) << 8), 8) }

  /** The register after a buffer. */
  function Register16(data: seq<Byte>): bv16 {
    if data == [] then 0xFFFF else Update16(Register16(data[..|data| - 1]), data[|data| - 1])
  }

  lemma {:induction false} Steps16IsShifts(c: bv16, k: nat)
    ensures Bits16(Steps16(c, k)) == Shifts(POLY16, Bits16(c), k)
    decreases k
  {
    if k > 0 {
      Step16IsShift(c);
      Steps16IsShifts(Step16(c), k - 1);
    }
  }

  lemma Update16IsFeed(c: bv16, d: Byte)
    ensures Bits16(Update16(c, d)) == Feed(POLY16, Bits16(c), Bits8(d))
  {
    Poly16HasConstantTerm();
    hide Bits16, Bits8, Feed, Shifts, Steps16, Step16, Xor, Pad, POLY16;
    XorBits16(c, ((d as bv16) << 8));
    TopBits(d);
    Steps16IsShifts(c ^ ((d as bv16) << 8), 8);
    FeedIsXorThenShifts(POLY16, Bits16(c), Bits8(d));
  }

  lemma {:induction false} Register16IsFeed(data: seq<Byte>)
    ensures Bits16(Register16(data)) == Feed(POLY16, Bits16(0xFFFF), BitString(data))
    decreases |data|
  {
    hide Bits16, Bits8, Update16;
    if data != [] {
      var front, last := data[..|data| - 1], data[|data| - 1];
      Register16IsFeed(front);
      Update16IsFeed(Register16(front), last);
      FeedConcat(POLY16, Bits16(0xFFFF), BitString(front), Bits8(last));
    }
  }

  /** The register is the remainder, by x^16 + 0x1021, of the message with 0xFFFF added to its first 16 bits. */
  lemma {:induction false} Register16IsRemainder(data: seq<Byte>)
    ensures Bits16(Register16(data)) == Remainder(POLY16, Dividend(Bits16(0xFFFF), BitString(data)))
  {
    hide Bits16, BitString, Feed, Remainder;
    Register16IsFeed(data);
    FeedIsRemainder(POLY16, Bits16(0xFFFF), BitString(data));
  }

  lemma Poly16HasConstantTerm()
    ensures |POLY16| == 16 && POLY16[15]
  {
    assert Bit16(0x1021, 1);
  }

  /** Buffers of equal length that differ only inside a window of 16 bits have different registers. */
  lemma {:induction false} Register16DetectsBurst(data: seq<Byte>, data': seq<Byte>, k: nat, n: nat)
    requires |data| == |data'| && n <= 16
    requires DifferWithin(BitString(data), BitString(data'), k, n)
    ensures Register16(data) == Register16(data') <==> data == data'
  {
    hide Bits16, BitString, Feed, Register16, POLY16;
    Register16IsFeed(data);
    Register16IsFeed(data');
    Poly16HasConstantTerm();
    BurstDetected(POLY16, Bits16(0xFFFF), BitString(data), BitString(data'), k, n);
    BitStringInjective(data, data');
  }

  /** crc16 of the configuration manager: an empty buffer is checked first and gives 0. */
  function Crc16(data: seq<Byte>): bv16 { if |data| == 0 then 0 else Register16(data) }

  lemma UnrollRegister16(data: seq<Byte>)
    ensures Register16(data[..0]) == 0xFFFF
    ensures forall i :: 0 <= i < |data| ==> Register16(data[..i + 1]) == Update16(Register16(data[..i]), data[i])
  {
    hide Update16;
    forall i | 0 <= i < |data| ensures Register16(data[..i + 1]) == Update16(Register16(data[..i]), data[i]) {
      assert data[..i + 1][..i] == data[..i];
    }
  }

  lemma UnrollSteps16(c: bv16, k: nat)
    ensures k > 0 ==> Steps16(c, k) == Steps16(Step16(c), k - 1)
    ensures Steps16(c, 0) == c
  {
  }

  method ComputeCrc16(data: seq<Byte>) returns (crc: bv16)
    requires |data| < 0x1_0000
    ensures crc == Crc16(data)
    ensures data == [] ==> crc == 0
    ensures data != [] ==>
              Bits16(crc) == Remainder(POLY16, Dividend(Bits16(0xFFFF), BitString(data)))
  {
    hide Steps16, Register16, Bits16, BitString, Remainder, Dividend;
    UnrollRegister16(data);
    crc := 0xFFFF;
    if |data| == 0 {
      return 0;
    }
    for i := 0 to |data|
      invariant crc == Register16(data[..i])
    {
      ghost var before := crc;
      crc := crc ^ ((data[i] as bv16) << 8);
      for j := 0 to 8
        invariant Steps16(crc, 8 - j) == Update16(before, data[i])
      {
        UnrollSteps16(crc, 8 - j);
        var mix := crc & 0x8000;
        crc := crc << 1;
        if mix != 0 {
          crc := crc ^ 0x1021;
        }
      }
      UnrollSteps16(crc, 0);
    }
    assert data[..|data|] == data;
    Register16IsRemainder(data);
  }

  function Steps8(c: bv8, k: nat): bv8
    decreases k
  {
    if k == 0 then c else Steps8(Step8(c), k - 1)
  }

  /** A data byte is added to the top of the register, then eight bits are shifted out. */
  function Update8(c: bv8, d: Byte): bv8 { Steps8(c ^ d, 8) }

  /** The register after a buffer. */
  function Register8(data: seq<Byte>): bv8 {
    if data == [] then 0xFF else Update8(Register8(data[..|data| - 1]), data[|data| - 1])
  }

  lemma {:induction false} Steps8IsShifts(c: bv8, k: nat)
    ensures Bits8(Steps8(c, k)) == Shifts(POLY8, Bits8(c), k)
    decreases k
  {
    if k > 0 {
      Step8IsShift(c);
      Steps8IsShifts(Step8(c), k - 1);
    }
  }

  lemma Update8IsFeed(c: bv8, d: Byte)
    ensures Bits8(Update8(c, d)) == Feed(POLY8, Bits8(c), Bits8(d))
  {
    Poly8HasConstantTerm();
    hide Bits8, Feed, Shifts, Steps8, Step8, Xor, POLY8;
    XorBits8(c, d);
    assert Pad(Bits8(d), 8) == Bits8(d);
    Steps8IsShifts(c ^ d, 8);
    FeedIsXorThenShifts(POLY8, Bits8(c), Bits8(d));
  }

  lemma {:induction false} Register8IsFeed(data: seq<Byte>)
    ensures Bits8(Register8(data)) == Feed(POLY8, Bits8(0xFF), BitString(data))
    decreases |data|
  {
    hide Bits8, Bits8, Update8;
    if data != [] {
      var front, last := data[..|data| - 1], data[|data| - 1];
      Register8IsFeed(front);
      Update8IsFeed(Register8(front), last);
      FeedConcat(POLY8, Bits8(0xFF), BitString(front), Bits8(last));
    }
  }

  /** The register is the remainder, by x^8 + 0x31, of the message with 0xFF added to its first 8 bits. */
  lemma {:induction false} Register8IsRemainder(data: seq<Byte>)
    ensures Bits8(Register8(data)) == Remainder(POLY8, Dividend(Bits8(0xFF), BitString(data)))
  {
    hide Bits8, BitString, Feed, Remainder;
    Register8IsFeed(data);
    FeedIsRemainder(POLY8, Bits8(0xFF), BitString(data));
  }

  lemma Poly8HasConstantTerm()
    ensures |POLY8| == 8 && POLY8[7]
  {
    assert Bit8(0x31, 1);
  }

  method ComputeCrc8(data: seq<Byte>) returns (crc: bv8)
    ensures crc == Register8(data)
    ensures Bits8(crc) == Remainder(POLY8, Dividend(Bits8(0xFF), BitString(data)))
  {
    crc := 0xFF;
    for i := 0 to |data|
      invariant crc == Register8(data[..i])
    {
      ghost var before := crc;
      crc := crc ^ data[i];
      for j := 0 to 8
        invariant Steps8(crc, 8 - j) == Update8(before, data[i])
      {
        var xor := crc & 0x80 != 0;
        crc := crc << 1;
        crc := if xor then crc ^ 0x31 else crc;
      }
      assert data[..i + 1][..i] == data[..i];
    }
    assert data[..|data|] == data;
    Register8IsRemainder(data);
  }

  /**
   * A word of a frame is its data followed by its CRC-8. Two valid words of equal length that differ only
   * inside a window of 8 bits, which may reach into the checksum, are equal.
   */
  lemma {:induction false} WordDetectsBurst(data: seq<Byte>, crc: Byte, data': seq<Byte>, crc': Byte, k: nat, n: nat)
    requires |data| == |data'| && n <= 8
    requires DifferWithin(BitString(data + [crc]), BitString(data' + [crc']), k, n)
    requires crc == Register8(data)
    ensures crc' == Register8(data') <==> data == data' && crc == crc'
  {
    hide Bits8, Feed, Register8, POLY8;
    Poly8HasConstantTerm();
    WordIsCodeword(data, crc);
    WordIsCodeword(data', crc');
    BurstDetected(POLY8, Bits8(0xFF), BitString(data + [crc]), BitString(data' + [crc']), k, n);
    BitStringInjective(data + [crc], data' + [crc']);
    if data + [crc] == data' + [crc'] {
      assert data == (data + [crc])[..|data|] && crc == (data + [crc])[|data|];
    }
  }

  lemma {:induction false} WordIsCodeword(data: seq<Byte>, crc: Byte)
    ensures Feed(POLY8, Bits8(0xFF), BitString(data + [crc])) == Zeros(8) <==> crc == Register8(data)
  {
    hide Bits8, Feed, Register8, POLY8;
    Poly8HasConstantTerm();
    assert (data + [crc])[..|data|] == data;
    Register8IsFeed(data);
    CodewordIffZero(POLY8, Bits8(0xFF), BitString(data), Bits8(crc));
    Bits8Injective(crc, Register8(data));
  }
}
