/** QMP6988 pressure sensor: calibration block, temperature and pressure compensation. */
module Qmp6988 {
  import opened FixedWidth
  import opened Wrappers

  const CALIBRATION_LENGTH := 25
  const SUBTRACTOR := 8388608

  /** The calibration coefficients as the sensor stores them. */
  datatype Calibration = Calibration(
    a0: int, a1: int, a2: int, b00: int,
    bt1: int, bt2: int, bp1: int, b11: int, bp2: int, b12: int, b21: int, bp3: int)

  ghost predicate Signed20(x: int) { -0x8_0000 <= x < 0x8_0000 }
  ghost predicate Signed16(x: int) { -0x8000 <= x < 0x8000 }
  /** A raw 24-bit reading after the subtrahend 2^23. */
  predicate Reading24(x: int) { -SUBTRACTOR <= x < SUBTRACTOR }

  ghost predicate ValidCalibration(c: Calibration) {
    && Signed20(c.a0) && Signed20(c.b00)
    && Signed16(c.a1) && Signed16(c.a2) && Signed16(c.bt1) && Signed16(c.bt2) && Signed16(c.bp1)
    && Signed16(c.b11) && Signed16(c.bp2) && Signed16(c.b12) && Signed16(c.b21) && Signed16(c.bp3)
  }

  /** Two bytes read as int16_t, high byte first. The fields of `|` are disjoint, so it is written `+`. */
  function Word(hi: byte, lo: byte): int {
    Wrap16(hi * 256 + lo)
  }

  /** 20 bits shifted to the top of an int32_t and arithmetically back down. */
  function SignExtend20(hi: byte, mid: byte, nibble: int): int {
    Wrap32((hi * 4096 + mid * 16 + nibble) * 4096) / 4096
  }

  function Unpack(d: seq<byte>): (c: Calibration)
    requires |d| == CALIBRATION_LENGTH
  {
    Calibration(
      SignExtend20(d[18], d[19], d[24] % 16), Word(d[20], d[21]), Word(d[22], d[23]),
      SignExtend20(d[0], d[1], d[24] / 16),
      Word(d[2], d[3]), Word(d[4], d[5]), Word(d[6], d[7]), Word(d[8], d[9]),
      Word(d[10], d[11]), Word(d[12], d[13]), Word(d[14], d[15]), Word(d[16], d[17]))
  }

  function HighByte(x: int): byte { (x % 0x1_0000) / 256 }
  function LowByte(x: int): byte { x % 256 }

  /** The block a sensor with these coefficients holds: a0 and b00 share byte 24. */
  function Pack(c: Calibration): (d: seq<byte>)
  {
    var a := c.a0 % 0x10_0000;
    var b := c.b00 % 0x10_0000;
    [b / 4096, b / 16 % 256,
     HighByte(c.bt1), LowByte(c.bt1), HighByte(c.bt2), LowByte(c.bt2), HighByte(c.bp1), LowByte(c.bp1),
     HighByte(c.b11), LowByte(c.b11), HighByte(c.bp2), LowByte(c.bp2), HighByte(c.b12), LowByte(c.b12),
     HighByte(c.b21), LowByte(c.b21), HighByte(c.bp3), LowByte(c.bp3),
     a / 4096, a / 16 % 256,
     HighByte(c.a1), LowByte(c.a1), HighByte(c.a2), LowByte(c.a2),
     b % 16 * 16 + a % 16]
  }

  lemma WordOfBytes(hi: byte, lo: byte)
    ensures var w := Word(hi, lo);
            Signed16(w) && HighByte(w) == hi && LowByte(w) == lo
  {
    var u := hi * 256 + lo;
    var w := Word(hi, lo);
    assert w == if u < 0x8000 then u else u - 0x1_0000;
    assert w % 0x1_0000 == u;
  }

  lemma BytesOfWord(x: int)
    requires Signed16(x)
    ensures Word(HighByte(x), LowByte(x)) == x
  {
    var u := x % 0x1_0000;
    assert u == if x >= 0 then x else x + 0x1_0000;
    assert x % 256 == u % 256;
    assert HighByte(x) * 256 + LowByte(x) == u;
  }

  lemma SignExtend20Value(hi: byte, mid: byte, nibble: int)
    requires 0 <= nibble < 16
    ensures var raw := hi * 4096 + mid * 16 + nibble;
            SignExtend20(hi, mid, nibble) == if raw < 0x8_0000 then raw else raw - 0x10_0000
  {
    var raw := hi * 4096 + mid * 16 + nibble;
    assert Wrap32(raw * 4096) == if raw < 0x8_0000 then raw * 4096 else raw * 4096 - 0x1_0000_0000;
  }

  lemma PartsOf20(m: int)
    requires 0 <= m < 0x10_0000
    ensures 0 <= m / 4096 < 256 && 0 <= m / 16 % 256 < 256 && 0 <= m % 16 < 16
    ensures m / 4096 * 4096 + m / 16 % 256 * 16 + m % 16 == m
  {
    assert m / 16 / 256 == m / 4096;
  }

  lemma LowBits20(x: int)
    requires Signed20(x)
    ensures x % 0x10_0000 == if x >= 0 then x else x + 0x10_0000
  {
  }

  lemma SignExtendOfParts(x: int)
    requires Signed20(x)
    ensures var m := x % 0x10_0000; SignExtend20(m / 4096, m / 16 % 256, m % 16) == x
  {
    hide SignExtend20;
    var m := x % 0x10_0000;
    LowBits20(x);
    PartsOf20(m);
    var hi, mid, nibble := m / 4096, m / 16 % 256, m % 16;
    assert hi * 4096 + mid * 16 + nibble == m;
    SignExtend20Value(hi, mid, nibble);
  }

  lemma PartsOfSignExtend(hi: byte, mid: byte, nibble: int)
    requires 0 <= nibble < 16
    ensures var v := SignExtend20(hi, mid, nibble); var m := v % 0x10_0000;
            Signed20(v) && m / 4096 == hi && m / 16 % 256 == mid && m % 16 == nibble
  {
    SignExtend20Value(hi, mid, nibble);
    var raw := hi * 4096 + mid * 16 + nibble;
    assert SignExtend20(hi, mid, nibble) % 0x10_0000 == raw;
    assert raw / 16 == hi * 256 + mid;
  }

  /** Every block unpacks to a valid record, and packing that record gives the block back. */
  lemma UnpackThenPack(d: seq<byte>)
    requires |d| == CALIBRATION_LENGTH
    ensures ValidCalibration(Unpack(d)) && Pack(Unpack(d)) == d
  {
    hide Word, HighByte, LowByte, SignExtend20;
    PartsOfSignExtend(d[18], d[19], d[24] % 16);
    PartsOfSignExtend(d[0], d[1], d[24] / 16);
    WordOfBytes(d[2], d[3]);
    WordOfBytes(d[4], d[5]);
    WordOfBytes(d[6], d[7]);
    WordOfBytes(d[8], d[9]);
    WordOfBytes(d[10], d[11]);
    WordOfBytes(d[12], d[13]);
    WordOfBytes(d[14], d[15]);
    WordOfBytes(d[16], d[17]);
    WordOfBytes(d[20], d[21]);
    WordOfBytes(d[22], d[23]);
  }

  /** Every valid record is the unpacking of its packed block. */
  lemma PackThenUnpack(c: Calibration)
    requires ValidCalibration(c)
    ensures Unpack(Pack(c)) == c
  {
    hide Word, HighByte, LowByte, SignExtend20;
    SignExtendOfParts(c.a0);
    SignExtendOfParts(c.b00);
    SharedByte(c.a0 % 0x10_0000 % 16, c.b00 % 0x10_0000 % 16);
    BytesOfWord(c.a1);
    BytesOfWord(c.a2);
    BytesOfWord(c.bt1);
    BytesOfWord(c.bt2);
    BytesOfWord(c.bp1);
    BytesOfWord(c.b11);
    BytesOfWord(c.bp2);
    BytesOfWord(c.b12);
    BytesOfWord(c.b21);
    BytesOfWord(c.bp3);
  }

  /** The signed number of the given modulus whose low bits are u. */
  ghost predicate ReadsAs(x: int, modulus: int, u: int)
    requires modulus > 0
  {
    -modulus <= 2 * x < modulus && x % modulus == u
  }

  /** Two bytes as an unsigned number, and three parts of 8, 8 and 4 bits. */
  function Pair(hi: byte, lo: byte): int { hi * 0x100 + lo }
  function Triple(hi: byte, mid: byte, nibble: int): int { hi * 0x1000 + mid * 0x10 + nibble }

  /** Which bytes each coefficient is read from: a0 and b00 have the low and the high half of the last byte. */
  lemma UnpackedFields(d: seq<byte>)
    requires |d| == CALIBRATION_LENGTH
    ensures var c := Unpack(d);
            && ReadsAs(c.b00, 0x10_0000, Triple(d[0], d[1], d[24] / 0x10))
            && ReadsAs(c.a0, 0x10_0000, Triple(d[18], d[19], d[24] % 0x10))
            && ReadsAs(c.bt1, 0x1_0000, Pair(d[2], d[3])) && ReadsAs(c.bt2, 0x1_0000, Pair(d[4], d[5]))
            && ReadsAs(c.bp1, 0x1_0000, Pair(d[6], d[7])) && ReadsAs(c.b11, 0x1_0000, Pair(d[8], d[9]))
            && ReadsAs(c.bp2, 0x1_0000, Pair(d[10], d[11])) && ReadsAs(c.b12, 0x1_0000, Pair(d[12], d[13]))
            && ReadsAs(c.b21, 0x1_0000, Pair(d[14], d[15])) && ReadsAs(c.bp3, 0x1_0000, Pair(d[16], d[17]))
            && ReadsAs(c.a1, 0x1_0000, Pair(d[20], d[21])) && ReadsAs(c.a2, 0x1_0000, Pair(d[22], d[23]))
  {
    hide Word, SignExtend20, ReadsAs, Pair, Triple;
    ReadsTwenty(d[18], d[19], d[24] % 16);
    ReadsTwenty(d[0], d[1], d[24] / 16);
    ReadsWord(d[2], d[3]);
    ReadsWord(d[4], d[5]);
    ReadsWord(d[6], d[7]);
    ReadsWord(d[8], d[9]);
    ReadsWord(d[10], d[11]);
    ReadsWord(d[12], d[13]);
    ReadsWord(d[14], d[15]);
    ReadsWord(d[16], d[17]);
    ReadsWord(d[20], d[21]);
    ReadsWord(d[22], d[23]);
  }

  lemma ReadsWord(hi: byte, lo: byte)
    ensures ReadsAs(Word(hi, lo), 0x1_0000, Pair(hi, lo))
  {
    assert Word(hi, lo) == if hi * 256 + lo < 0x8000 then hi * 256 + lo else hi * 256 + lo - 0x1_0000;
  }

  lemma ReadsTwenty(hi: byte, mid: byte, nibble: int)
    requires 0 <= nibble < 16
    ensures ReadsAs(SignExtend20(hi, mid, nibble), 0x10_0000, Triple(hi, mid, nibble))
  {
    SignExtend20Value(hi, mid, nibble);
  }

  lemma SharedByte(a: int, b: int)
    requires 0 <= a < 16 && 0 <= b < 16
    ensures (b * 16 + a) % 16 == a && (b * 16 + a) / 16 == b
  {
  }

  /** The scaled coefficients that the compensation routines use. */
  datatype Coefficients = Coefficients(
    a0: int32, b00: int32, a1: int32, a2: int32,
    bt1: int64, bt2: int64, bp1: int64, b11: int64, bp2: int64, b12: int64, b21: int64, bp3: int64)

  /** The ranges that scaling gives, whatever the calibration block. */
  ghost predicate InRange(k: Coefficients) {
    && Signed20(k.a0 as int) && Signed20(k.b00 as int)
    && -1849904909 <= k.a1 <= -1613454629
    && -641038112 <= k.a2 <= 465782503
    && 9656730 <= k.bt1 <= 205082100
    && -10700572779 <= k.bt2 <= 10916409111
    && 480999900 <= k.bp1 <= 1786653705
    && 39376075 <= k.b11 <= 197053285
    && -282472267 <= k.bp2 <= -80690002
    && -138739447 <= k.b12 <= 309913163
    && -374044404 <= k.b21 <= 532697856
    && 61636841 <= k.bp3 <= 252671366
  }

  function Scale(c: Calibration): (k: Coefficients)
    requires ValidCalibration(c)
    ensures InRange(k)
  {
    Coefficients(
      c.a0 as int32, c.b00 as int32,
      3608 * (c.a1 as int32) - 1731677965,
      16889 * (c.a2 as int32) - 87619360,
      2982 * (c.bt1 as int64) + 107370906,
      329854 * (c.bt2 as int64) + 108083093,
      19923 * (c.bp1 as int64) + 1133836764,
      2406 * (c.b11 as int64) + 118215883,
      3079 * (c.bp2 as int64) - 181579595,
      6846 * (c.b12 as int64) + 85590281,
      13836 * (c.b21 as int64) + 79333644,
      2915 * (c.bp3 as int64) + 157155561)
  }

  // ----- temperature -----

  /** The sum in Q23 before scaling down: a1*dt plus the quadratic term, floored twice. */
  function TemperatureQ23(k: Coefficients, dt: int): int {
    (k.a1 as int) * dt + ((k.a2 as int) * dt / 0x4000) * dt / 0x400
  }

  /** The compensated temperature in units of 1/256 degree, before the conversion to int16_t. */
  function TemperatureWide(k: Coefficients, dt: int): int {
    ((k.a0 as int) + TruncDiv(TemperatureQ23(k, dt), 32767) / 0x8_0000) / 16
  }

  /** 32767 * 2^43, the common denominator of the exact temperature polynomial. */
  const TEMPERATURE_SCALE: int := 32767 * 0x800_0000_0000

  /** TEMPERATURE_SCALE times the exact temperature in Q4: a0 + 16 * (a1*dt/2^23 + a2*dt^2/2^47) / 32767. */
  ghost function ExactTemperature(k: Coefficients, dt: int): int {
    (k.a0 as int) * TEMPERATURE_SCALE + (k.a1 as int) * dt * 0x100_0000 + (k.a2 as int) * dt * dt
  }

  lemma TemperatureTerms(k: Coefficients, dt: int)
    requires InRange(k) && Reading24(dt)
    ensures var p := (k.a1 as int) * dt; var q := (k.a2 as int) * dt;
            && -0x40_0000_0000_0000 <= p <= 0x40_0000_0000_0000
            && -0x40_0000_0000_0000 <= q <= 0x40_0000_0000_0000
            && -0x4000 * SUBTRACTOR <= q * dt - 0x100_0000 * (q / 0x4000 * dt / 0x400)
                                    <= 0x100_0000 + 0x4000 * SUBTRACTOR
  {
    var q := (k.a2 as int) * dt;
    MulBound(k.a1 as int, dt, 0x8000_0000, SUBTRACTOR);
    MulBound(k.a2 as int, dt, 0x8000_0000, SUBTRACTOR);
    TwoShifts(q, dt, SUBTRACTOR, 0x4000, 0x400);
  }

  /** The integer temperature is the exact one rounded down, up to 1/1024 of a sixteenth of a unit. */
  lemma TemperatureAccuracy(k: Coefficients, dt: int)
    requires InRange(k) && Reading24(dt)
    ensures var gap := ExactTemperature(k, dt) - 16 * TEMPERATURE_SCALE * TemperatureWide(k, dt);
            1024 * gap > -TEMPERATURE_SCALE && 1024 * gap < 16 * 1024 * TEMPERATURE_SCALE + TEMPERATURE_SCALE
  {
    TemperatureTerms(k, dt);
    TruncDivBounds(TemperatureQ23(k, dt), 32767);
  }

  /**
   * The same in terms of the raw coefficients: a1 stands for (3608 * a1 - 1731677965) / (2^23 * 32767), and a2 for
   * (16889 * a2 - 87619360) / (2^47 * 32767).
   */
  ghost function RawTemperature(c: Calibration, dt: int): int {
    c.a0 * TEMPERATURE_SCALE + (3608 * c.a1 - 1731677965) * dt * 0x100_0000 + (16889 * c.a2 - 87619360) * dt * dt
  }

  /** The exact temperature rounded down to 1/256 degree, up to 1/1024 of a sixteenth of that unit. */
  ghost predicate NearTemperature(c: Calibration, dt: int, wide: int) {
    var gap := RawTemperature(c, dt) - 16 * TEMPERATURE_SCALE * wide;
    1024 * gap > -TEMPERATURE_SCALE && 1024 * gap < 16 * 1024 * TEMPERATURE_SCALE + TEMPERATURE_SCALE
  }

  /** From the calibration block to the temperature: the accuracy with respect to the raw coefficients. */
  lemma RawTemperatureAccuracy(c: Calibration, dt: int)
    requires ValidCalibration(c) && Reading24(dt)
    ensures NearTemperature(c, dt, TemperatureWide(Scale(c), dt))
  {
    assert RawTemperature(c, dt) == ExactTemperature(Scale(c), dt);
    hide TemperatureWide, RawTemperature, ExactTemperature;
    TemperatureAccuracy(Scale(c), dt);
  }

  lemma TemperatureQ23Step(k: Coefficients, dt: int)
    requires InRange(k) && Reading24(dt) && Reading24(dt + 1)
    ensures TemperatureQ23(k, dt + 1) < TemperatureQ23(k, dt)
  {
    var f, g := (k.a2 as int) * dt / 0x4000, (k.a2 as int) * (dt + 1) / 0x4000;
    assert (k.a2 as int) * (dt + 1) == (k.a2 as int) * dt + k.a2 as int;
    assert -39127 <= g - f <= 39127;
    MulBound(k.a2 as int, dt + 1, 641038112, SUBTRACTOR);
    MulBound(g - f, dt, 39127, SUBTRACTOR);
    assert g * (dt + 1) == f * dt + (g - f) * dt + g;
  }

  /** The compensated temperature never rises with the raw reading, for any calibration. */
  lemma {:induction false} TemperatureMonotone(k: Coefficients, dt: int, dt': int)
    requires InRange(k) && Reading24(dt) && Reading24(dt') && dt <= dt'
    ensures TemperatureQ23(k, dt') <= TemperatureQ23(k, dt)
    ensures TemperatureWide(k, dt') <= TemperatureWide(k, dt)
    decreases dt' - dt
  {
    hide TemperatureQ23, TruncDiv, TemperatureWide;
    if dt < dt' {
      TemperatureQ23Step(k, dt);
      TemperatureMonotone(k, dt + 1, dt');
    }
    ScaleDownMonotone(k, dt, dt');
  }

  lemma ScaleDownMonotone(k: Coefficients, dt: int, dt': int)
    requires TemperatureQ23(k, dt') <= TemperatureQ23(k, dt)
    ensures TemperatureWide(k, dt') <= TemperatureWide(k, dt)
  {
    hide TemperatureQ23;
  }

  /** The first reading, from dt upward, whose temperature is at most limit. */
  ghost function FirstAtMost(k: Coefficients, limit: int, dt: int): (r: int)
    requires InRange(k) && -SUBTRACTOR <= dt <= SUBTRACTOR
    ensures dt <= r <= SUBTRACTOR
    ensures forall x :: dt <= x < r ==> TemperatureWide(k, x) > limit
    ensures forall x :: r <= x < SUBTRACTOR ==> TemperatureWide(k, x) <= limit
    decreases SUBTRACTOR - dt
  {
    if dt == SUBTRACTOR then dt
    else if TemperatureWide(k, dt) <= limit then
      assert forall x :: dt <= x < SUBTRACTOR ==> TemperatureWide(k, x) <= limit by {
        forall x | dt <= x < SUBTRACTOR
          ensures TemperatureWide(k, x) <= limit
        {
          TemperatureMonotone(k, dt, x);
        }
      }
      dt
    else FirstAtMost(k, limit, dt + 1)
  }

  /**
   * The conversion to int16_t keeps the temperature exactly for the readings between two thresholds,
   * which depend on the calibration alone.
   */
  lemma {:induction false} NarrowingExactBetweenThresholds(k: Coefficients, dt: int)
    requires InRange(k) && Reading24(dt)
    ensures Wrap16(TemperatureWide(k, dt)) == TemperatureWide(k, dt) <==>
            FirstAtMost(k, 32767, -SUBTRACTOR) <= dt < FirstAtMost(k, -32769, -SUBTRACTOR)
  {
    var hot := FirstAtMost(k, 32767, -SUBTRACTOR);
    var cold := FirstAtMost(k, -32769, -SUBTRACTOR);
    assert dt < hot <==> TemperatureWide(k, dt) > 32767;
    assert dt < cold <==> TemperatureWide(k, dt) > -32769;
  }

  lemma ColderAbove(k: Coefficients, limit: int, dt: int)
    requires InRange(k) && Reading24(dt) && TemperatureWide(k, dt) <= limit
    ensures forall x :: dt <= x < SUBTRACTOR ==> TemperatureWide(k, x) <= limit
  {
    hide TemperatureWide;
    forall x | dt <= x < SUBTRACTOR ensures TemperatureWide(k, x) <= limit {
      TemperatureMonotone(k, dt, x);
    }
  }

  lemma WarmerBelow(k: Coefficients, limit: int, dt: int)
    requires InRange(k) && Reading24(dt) && TemperatureWide(k, dt) > limit
    ensures forall x :: -SUBTRACTOR <= x <= dt ==> TemperatureWide(k, x) > limit
  {
    hide TemperatureWide;
    forall x | -SUBTRACTOR <= x <= dt ensures TemperatureWide(k, x) > limit {
      TemperatureMonotone(k, x, dt);
    }
  }

  /** A threshold can be found once for each calibration: monotonicity justifies a binary search for it. */
  method FindThreshold(k: Coefficients, limit: int) returns (r: int)
    requires InRange(k)
    ensures r == FirstAtMost(k, limit, -SUBTRACTOR)
  {
    hide TemperatureWide;
    var high := SUBTRACTOR;
    r := -SUBTRACTOR;
    while r < high
      invariant -SUBTRACTOR <= r <= high <= SUBTRACTOR
      invariant forall x :: -SUBTRACTOR <= x < r ==> TemperatureWide(k, x) > limit
      invariant forall x :: high <= x < SUBTRACTOR ==> TemperatureWide(k, x) <= limit
    {
      var middle := (r + high) / 2;
      if TemperatureWide(k, middle) <= limit {
        ColderAbove(k, limit, middle);
        high := middle;
      } else {
        WarmerBelow(k, limit, middle);
        r := middle + 1;
      }
    }
    ghost var first := FirstAtMost(k, limit, -SUBTRACTOR);
    assert first < SUBTRACTOR ==> TemperatureWide(k, first) <= limit;
    assert r < SUBTRACTOR ==> TemperatureWide(k, r) <= limit;
  }

  /** No calibration makes the conversion lossless over the whole range of the converter. */
  lemma NarrowingAlwaysLosesSomeReading(k: Coefficients)
    requires InRange(k)
    ensures exists dt :: Reading24(dt) && Wrap16(TemperatureWide(k, dt)) != TemperatureWide(k, dt)
  {
    TemperatureAccuracy(k, -SUBTRACTOR);
    TemperatureAccuracy(k, SUBTRACTOR - 1);
    assert TemperatureWide(k, -SUBTRACTOR) - TemperatureWide(k, SUBTRACTOR - 1) > 0x1_0000;
    assert Reading24(-SUBTRACTOR) && Reading24(SUBTRACTOR - 1);
  }

  /** qmp6988_conv_Tx_02e: every product and sum is checked to fit int64_t. */
  method ConvTx(k: Coefficients, dt: int32) returns (ret: int16)
    requires InRange(k) && Reading24(dt as int)
    ensures ret == Wrap16(TemperatureWide(k, dt as int))
  {
    hide TruncDiv;
    var wk1 := Times(k.a1 as int64, dt as int64, 0x8000_0000, SUBTRACTOR);
    var wk2 := Times(k.a2 as int64, dt as int64, 0x4000_0000, SUBTRACTOR) / 0x4000;
    wk2 := Times(wk2, dt as int64, 0x80_0000_0000, SUBTRACTOR) / 0x400;
    assert (wk1 + wk2) as int == TemperatureQ23(k, dt as int);
    wk2 := DivideBy32767(wk1 + wk2) / 0x8_0000;
    ret := Wrap16(((k.a0 as int64 + wk2) / 16) as int);
  }

  // ----- pressure -----

  /** 32767 * 2^61, the common denominator of the exact pressure polynomial. */
  const PRESSURE_SCALE: int := 32767 * 0x2000_0000_0000_0000

  /** PRESSURE_SCALE times the exact pressure, less b00, in units of 1/16 Pa. */
  ghost function ExactPressure(k: Coefficients, dp: int, tx: int): int {
    (k.bt1 as int) * tx * 0x4_0000_0000_0000
    + (k.bp1 as int) * dp * 0x2000_0000_0000
    + (k.bt2 as int) * tx * tx * 0x800_0000
    + (k.b11 as int) * tx * dp * 0x8000_0000
    + (k.bp2 as int) * dp * dp * 0x40_0000
    + (k.b12 as int) * tx * tx * dp * 0x1000
    + (k.b21 as int) * tx * dp * dp * 0x20
    + (k.bp3 as int) * dp * dp * dp
  }

  /**
   * The same, b00 included, in terms of the raw coefficients: each scaled one is a linear function of its own raw
   * one, over 32767 and over the power of two of its binary format.
   */
  ghost function RawPressure(c: Calibration, dp: int, tx: int): int {
    c.b00 * PRESSURE_SCALE
    + (2982 * c.bt1 + 107370906) * tx * 0x4_0000_0000_0000
    + (19923 * c.bp1 + 1133836764) * dp * 0x2000_0000_0000
    + (329854 * c.bt2 + 108083093) * tx * tx * 0x800_0000
    + (2406 * c.b11 + 118215883) * tx * dp * 0x8000_0000
    + (3079 * c.bp2 - 181579595) * dp * dp * 0x40_0000
    + (6846 * c.b12 + 85590281) * tx * tx * dp * 0x1000
    + (13836 * c.b21 + 79333644) * tx * dp * dp * 0x20
    + (2915 * c.bp3 + 157155561) * dp * dp * dp
  }

  lemma RawPressureIsExact(c: Calibration, dp: int, tx: int)
    requires ValidCalibration(c)
    ensures RawPressure(c, dp, tx) == ExactPressure(Scale(c), dp, tx) + PRESSURE_SCALE * c.b00
  {
    var k := Scale(c);
    assert k.bt1 as int == 2982 * c.bt1 + 107370906 && k.bt2 as int == 329854 * c.bt2 + 108083093;
    assert k.bp1 as int == 19923 * c.bp1 + 1133836764 && k.b11 as int == 2406 * c.b11 + 118215883;
    assert k.bp2 as int == 3079 * c.bp2 - 181579595 && k.b12 as int == 6846 * c.b12 + 85590281;
    assert k.b21 as int == 13836 * c.b21 + 79333644 && k.bp3 as int == 2915 * c.bp3 + 157155561;
    hide Scale, InRange;
  }

  /** A further multiplication by y keeps the error of v, scaled by |y| <= Y. */
  lemma ThirdFactor(p: int, v: int, y: int, Y: int, d: int, e: int)
    requires -e <= p - d * v <= e && -Y <= y <= Y && d > 0 && e >= 0
    ensures -(e * Y) <= p * y - d * (v * y) <= e * Y
  {
    MulBound(p - d * v, y, e, Y);
    assert (p - d * v) * y == p * y - d * v * y;
    assert d * v * y == d * (v * y);
  }

  /** Adds up the eight terms: x1..x8 are the exact products, the others their shifted integer values. */
  lemma PressureSum(x1: int, x2: int, x3: int, x4: int, x5: int, x6: int, x7: int, x8: int,
                    p: int, q: int, r: int, s: int, u: int, v: int, w: int)
    requires 0 <= x2 - 0x20 * p < 0x20
    requires -0x1_0000 <= x3 - 0x200 * q <= 0x200 + 0x1_0000
    requires -0x800_0000 <= x4 - 0x20 * r <= 0x20 + 0x800_0000
    requires -0x10_0000_0000 <= x5 - 0x4000 * s <= 0x4000 + 0x10_0000_0000
    requires -0x2000_0000_0000 <= x6 - 0x80_0000 * u <= 0x80_0000 + 0x2000_0000_0000
    requires -0x20_0000_0000_0000 <= x7 - 0x4000_0000 * v <= 0x4000_0000 + 0x20_0000_0000_0000
    requires -0x800_0000_0000_0000 <= x8 - 0x8_0000_0000 * w <= 0x800_0000_0000_0000
    ensures var wk := x1 + p + (q + r + s) / 0x4000 + (u + v + w) / 0x8000;
            var exact := x1 * 0x4_0000_0000_0000 + x2 * 0x2000_0000_0000 + x3 * 0x800_0000 + x4 * 0x8000_0000
                         + x5 * 0x40_0000 + x6 * 0x1000 + x7 * 0x20 + x8;
            -2000 * 0x4_0000_0000_0000 < exact - 0x4_0000_0000_0000 * wk < 2000 * 0x4_0000_0000_0000
  {
  }

  /** Dividing by 32767 and 2^11 brings the error below 1/1024 of a unit, apart from the last rounding down. */
  lemma PressureScaleDown(wk: int, exact: int)
    requires -2000 * 0x4_0000_0000_0000 < exact - 0x4_0000_0000_0000 * wk < 2000 * 0x4_0000_0000_0000
    ensures var gap := exact - PRESSURE_SCALE * (TruncDiv(wk, 32767) / 0x800);
            -PRESSURE_SCALE < 1024 * gap < 1024 * PRESSURE_SCALE + PRESSURE_SCALE
  {
    TruncDivBounds(wk, 32767);
  }

  /** The second-order terms: bt2*tx*tx, b11*tx*dp and bp2*dp*dp in Q29. */
  method SecondOrder(k: Coefficients, dp: int32, tx: int16)
    returns (wk3: int64, ghost q: int, ghost r: int, ghost s: int)
    requires InRange(k) && Reading24(dp as int)
    ensures wk3 as int == q + r + s
    ensures -0x6000_0000_0000_0000 <= wk3 <= 0x6000_0000_0000_0000
    ensures -0x1_0000 <= (k.bt2 as int) * tx * tx - 0x200 * q <= 0x200 + 0x1_0000
    ensures -0x800_0000 <= (k.b11 as int) * tx * (dp as int) - 0x20 * r <= 0x20 + 0x800_0000
    ensures -0x10_0000_0000 <= (k.bp2 as int) * (dp as int) * (dp as int) - 0x4000 * s <= 0x4000 + 0x10_0000_0000
  {
    var t, d := tx as int64, dp as int64;
    var wk2 := Times(k.bt2, t, 11000000000, 0x8000);
    TwoShifts(wk2 as int, tx, 0x8000, 2, 0x100);
    wk2 := wk2 / 2;
    wk2 := Times(wk2, t, 5500000000 * 0x8000, 0x8000) / 0x100;
    q := wk2 as int;
    wk3 := wk2;
    wk2 := Times(k.b11, t, 0x1000_0000, 0x8000);
    TwoShifts(wk2 as int, dp as int, SUBTRACTOR, 0x10, 2);
    wk2 := wk2 / 0x10;
    wk2 := Times(wk2, d, 0x80_0000_0000, SUBTRACTOR) / 2;
    r := wk2 as int;
    wk3 := wk3 + wk2;
    wk2 := Times(k.bp2, d, 0x2000_0000, SUBTRACTOR);
    TwoShifts(wk2 as int, dp as int, SUBTRACTOR, 0x2000, 2);
    wk2 := wk2 / 0x2000;
    wk2 := Times(wk2, d, 0x80_0000_0000, SUBTRACTOR) / 2;
    s := wk2 as int;
    wk3 := wk3 + wk2;
  }

  /** The third-order terms: b12*tx*tx*dp, b21*tx*dp*dp and bp3*dp*dp*dp in Q30. */
  method ThirdOrder(k: Coefficients, dp: int32, tx: int16)
    returns (wk3: int64, ghost u: int, ghost v: int, ghost w: int)
    requires InRange(k) && Reading24(dp as int)
    ensures wk3 as int == u + v + w
    ensures -0x6800_0000_0000_0000 <= wk3 <= 0x6800_0000_0000_0000
    ensures -0x2000_0000_0000 <= (k.b12 as int) * tx * tx * (dp as int) - 0x80_0000 * u <= 0x80_0000 + 0x2000_0000_0000
    ensures -0x20_0000_0000_0000 <= (k.b21 as int) * tx * (dp as int) * (dp as int) - 0x4000_0000 * v
                                 <= 0x4000_0000 + 0x20_0000_0000_0000
    ensures -0x800_0000_0000_0000 <= (k.bp3 as int) * (dp as int) * (dp as int) * (dp as int) - 0x8_0000_0000 * w
                                  <= 0x800_0000_0000_0000
  {
    var t, d := tx as int64, dp as int64;
    var wk2 := Times(k.b12, t, 0x2000_0000, 0x8000);
    wk2 := Times(wk2, t, 0x1000_0000_0000, 0x8000);
    TwoShifts(wk2 as int, dp as int, SUBTRACTOR, 0x40_0000, 2);
    wk2 := wk2 / 0x40_0000;
    wk2 := Times(wk2, d, 0x20_0000_0000, SUBTRACTOR) / 2;
    u := wk2 as int;
    wk3 := wk2;
    wk2 := Times(k.b21, t, 0x2000_0000, 0x8000);
    ghost var y := wk2 as int;
    TwoShifts(y, dp as int, SUBTRACTOR, 0x40, 0x80_0000);
    wk2 := wk2 / 0x40;
    wk2 := Times(wk2, d, 0x80_0000_0000, SUBTRACTOR) / 0x80_0000;
    ThirdFactor(y * dp as int, wk2 as int, dp as int, SUBTRACTOR, 0x2000_0000, 0x4000_0000);
    wk2 := Times(wk2, d, 0x80_0000_0000, SUBTRACTOR) / 2;
    v := wk2 as int;
    wk3 := wk3 + wk2;
    wk2 := Times(k.bp3, d, 0x1000_0000, SUBTRACTOR);
    y := wk2 as int;
    TwoShifts(y, dp as int, SUBTRACTOR, 0x1000, 0x80_0000);
    wk2 := wk2 / 0x1000;
    wk2 := Times(wk2, d, 0x80_0000_0000, SUBTRACTOR) / 0x80_0000;
    ThirdFactor(y * dp as int, wk2 as int, dp as int, SUBTRACTOR, 0x8_0000_0000, 0x10_0000_0000);
    wk2 := Times(wk2, d, 0x80_0000_0000, SUBTRACTOR);
    w := wk2 as int;
    wk3 := wk3 + wk2;
  }

  /**
   * qmp6988_get_pressure_02e: every product, shift and sum is checked to fit int64_t and the last
   * cast to fit int32_t. The result is the exact cubic rounded down, up to 1/1024 of a unit.
   */
  method GetPressure(k: Coefficients, dp: int32, tx: int16) returns (ret: int32)
    requires InRange(k) && Reading24(dp as int)
    ensures var gap := ExactPressure(k, dp as int, tx) - PRESSURE_SCALE * (ret as int - k.b00 as int);
            -PRESSURE_SCALE < 1024 * gap < 1024 * PRESSURE_SCALE + PRESSURE_SCALE
  {
    hide TruncDiv;
    var wk1 := Times(k.bt1, tx as int64, 0x1000_0000, 0x8000);
    ghost var x1 := wk1 as int;
    var wk2 := Times(k.bp1, dp as int64, 0x8000_0000, SUBTRACTOR);
    ghost var x2 := wk2 as int;
    wk2 := wk2 / 0x20;
    ghost var p := wk2 as int;
    wk1 := wk1 + wk2;
    ghost var q, r, s, u, v, w;
    var wk3;
    wk3, q, r, s := SecondOrder(k, dp, tx);
    wk1 := wk1 + wk3 / 0x4000;
    wk3, u, v, w := ThirdOrder(k, dp, tx);
    wk1 := wk1 + wk3 / 0x8000;
    PressureTotal(k, dp as int, tx, x1, x2, p, q, r, s, u, v, w);
    PressureScaleDown(wk1 as int, ExactPressure(k, dp as int, tx));
    hide ExactPressure;
    wk1 := DivideBy32767(wk1);
    wk1 := wk1 / 0x800;
    wk1 := wk1 + k.b00 as int64;
    ret := wk1 as int32;
  }

  lemma PressureTotal(k: Coefficients, dp: int, tx: int, x1: int, x2: int,
                      p: int, q: int, r: int, s: int, u: int, v: int, w: int)
    requires x1 == (k.bt1 as int) * tx && x2 == (k.bp1 as int) * dp && p == x2 / 0x20
    requires -0x1_0000 <= (k.bt2 as int) * tx * tx - 0x200 * q <= 0x200 + 0x1_0000
    requires -0x800_0000 <= (k.b11 as int) * tx * dp - 0x20 * r <= 0x20 + 0x800_0000
    requires -0x10_0000_0000 <= (k.bp2 as int) * dp * dp - 0x4000 * s <= 0x4000 + 0x10_0000_0000
    requires -0x2000_0000_0000 <= (k.b12 as int) * tx * tx * dp - 0x80_0000 * u <= 0x80_0000 + 0x2000_0000_0000
    requires -0x20_0000_0000_0000 <= (k.b21 as int) * tx * dp * dp - 0x4000_0000 * v
                                  <= 0x4000_0000 + 0x20_0000_0000_0000
    requires -0x800_0000_0000_0000 <= (k.bp3 as int) * dp * dp * dp - 0x8_0000_0000 * w <= 0x800_0000_0000_0000
    ensures var wk := x1 + p + (q + r + s) / 0x4000 + (u + v + w) / 0x8000;
            -2000 * 0x4_0000_0000_0000 < ExactPressure(k, dp, tx) - 0x4_0000_0000_0000 * wk < 2000 * 0x4_0000_0000_0000
  {
    PressureSum(x1, x2, (k.bt2 as int) * tx * tx, (k.b11 as int) * tx * dp, (k.bp2 as int) * dp * dp,
                (k.b12 as int) * tx * tx * dp, (k.b21 as int) * tx * dp * dp, (k.bp3 as int) * dp * dp * dp,
                p, q, r, s, u, v, w);
  }

  // ----- the device -----

  /** Three data bytes, high byte first, less 2^23: uint32_t arithmetic converted to int32_t. */
  function RawReading(b0: byte, b1: byte, b2: byte): (r: int32)
    ensures Reading24(r as int)
    ensures r as int == b0 * 0x1_0000 + b1 * 0x100 + b2 - SUBTRACTOR
  {
    Wrap32((b0 * 0x1_0000 + b1 * 0x100 + b2 - SUBTRACTOR) % 0x1_0000_0000) as int32
  }

  /** The stored temperature is one within the accuracy of the exact one, in its low 16 bits. */
  ghost predicate TemperatureNear(c: Calibration, dt: int, temperature: int16) {
    exists wide :: NearTemperature(c, dt, wide) && temperature == Wrap16(wide)
  }

  /** The exact pressure rounded down to 1/16 Pa, up to 1/1024 of that unit. */
  ghost predicate PressureNear(c: Calibration, dp: int, tx: int, pressure: int) {
    var gap := RawPressure(c, dp, tx) - PRESSURE_SCALE * pressure;
    -PRESSURE_SCALE < 1024 * gap < 1024 * PRESSURE_SCALE + PRESSURE_SCALE
  }

  ghost predicate AllRead(replies: seq<Option<byte>>) {
    forall i :: 0 <= i < |replies| ==> replies[i].Some?
  }

  ghost function Values(replies: seq<Option<byte>>): (d: seq<byte>)
    requires AllRead(replies)
    ensures |d| == |replies|
  {
    seq(|replies|, i requires 0 <= i < |replies| => replies[i].value)
  }

  /** A device descriptor. Readings are kept as integers: 1/256 degree and 1/16 Pa. */
  class Sensor {
    var ik: Coefficients
    var temperature: int16
    var pressure: int32

    constructor (ik: Coefficients)
      ensures this.ik == ik && temperature == 0 && pressure == 0
    {
      this.ik, temperature, pressure := ik, 0, 0;
    }

    /** replies[i] is the outcome of the i-th register read, None when the bus transaction fails. */
    method ReadRegisters(replies: seq<Option<byte>>, data: array<byte>) returns (ok: bool)
      requires data.Length == |replies|
      modifies data
      ensures ok <==> AllRead(replies)
      ensures ok ==> data[..] == Values(replies)
    {
      for i := 0 to |replies|
        invariant forall j :: 0 <= j < i ==> replies[j].Some? && data[j] == replies[j].value
      {
        match replies[i]
        case None => return false;
        case Some(b) => data[i] := b;
      }
      return true;
    }

    /** qmp6988_get_calibration_data: any failed read leaves the coefficients as they were. */
    method GetCalibrationData(replies: seq<Option<byte>>) returns (ok: bool)
      requires |replies| == CALIBRATION_LENGTH
      modifies this`ik
      ensures ok <==> AllRead(replies)
      ensures ok ==> ValidCalibration(Unpack(Values(replies))) && ik == Scale(Unpack(Values(replies)))
      ensures ok ==> InRange(ik)
      ensures !ok ==> ik == old(ik)
    {
      var data: array<byte> := new byte[CALIBRATION_LENGTH](_ => 0);
      ok := ReadRegisters(replies, data);
      if ok {
        UnpackThenPack(data[..]);
        ik := Scale(Unpack(data[..]));
      }
    }

    /**
     * qmp6988_calc_pressure: three pressure registers, then three temperature registers. With the scaled
     * coefficients of some calibration, the result is accurate with respect to its raw coefficients.
     */
    method CalcPressure(replies: seq<Option<byte>>) returns (ok: bool)
      requires |replies| == 6 && InRange(ik)
      modifies this`temperature, this`pressure
      ensures ok <==> AllRead(replies)
      ensures !ok ==> temperature == old(temperature) && pressure == old(pressure)
      ensures ok ==>
                var d := Values(replies);
                && temperature == Wrap16(TemperatureWide(ik, RawReading(d[3], d[4], d[5]) as int))
                && var gap := ExactPressure(ik, RawReading(d[0], d[1], d[2]) as int, temperature)
                              - PRESSURE_SCALE * (pressure as int - ik.b00 as int);
                   -PRESSURE_SCALE < 1024 * gap < 1024 * PRESSURE_SCALE + PRESSURE_SCALE
      ensures ok ==>
                var d := Values(replies);
                var dp, dt := d[0] * 0x1_0000 + d[1] * 0x100 + d[2] - SUBTRACTOR,
                              d[3] * 0x1_0000 + d[4] * 0x100 + d[5] - SUBTRACTOR;
                forall c :: ValidCalibration(c) && Scale(c) == ik ==>
                  TemperatureNear(c, dt, temperature) && PressureNear(c, dp, temperature, pressure as int)
    {
      hide InRange, Scale, TemperatureWide, ExactPressure, TemperatureNear, PressureNear, ValidCalibration;
      var data: array<byte> := new byte[6](_ => 0);
      ok := ReadRegisters(replies, data);
      if ok {
        var rawPressure := RawReading(data[0], data[1], data[2]);
        var rawTemperature := RawReading(data[3], data[4], data[5]);
        assert data[..] == Values(replies);
        temperature := ConvTx(ik, rawTemperature);
        pressure := GetPressure(ik, rawPressure, temperature);
        CalculatedNear(ik, rawPressure as int, rawTemperature as int, temperature, pressure as int);
      }
    }
  }

  /** What the two compensation routines compute is near the exact values of the raw coefficients. */
  lemma CalculatedNear(k: Coefficients, dp: int, dt: int, temperature: int16, pressure: int)
    requires Reading24(dt) && temperature == Wrap16(TemperatureWide(k, dt))
    requires var gap := ExactPressure(k, dp, temperature) - PRESSURE_SCALE * (pressure - k.b00 as int);
             -PRESSURE_SCALE < 1024 * gap < 1024 * PRESSURE_SCALE + PRESSURE_SCALE
    ensures forall c :: ValidCalibration(c) && Scale(c) == k ==>
              TemperatureNear(c, dt, temperature) && PressureNear(c, dp, temperature, pressure)
  {
    hide Scale, TemperatureWide, ExactPressure, RawPressure, NearTemperature, InRange;
    forall c | ValidCalibration(c) && Scale(c) == k
      ensures TemperatureNear(c, dt, temperature) && PressureNear(c, dp, temperature, pressure)
    {
      RawTemperatureAccuracy(c, dt);
      RawPressureIsExact(c, dp, temperature);
      ScaleKeepsOffset(c);
    }
  }

  lemma ScaleKeepsOffset(c: Calibration)
    requires ValidCalibration(c)
    ensures Scale(c).b00 as int == c.b00
  {
  }
}
