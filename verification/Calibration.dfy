/** The sensor's trimming values, and the byte layouts in which the sensor delivers its data. */
module Calibration {
  import opened Machine

  /** The trimming values of one sensor (`struct bmp280_calib_param_t` without `t_fine`). */
  datatype Calib = Calib(
    T1: u16, T2: s16, T3: s16,
    P1: u16, P2: s16, P3: s16, P4: s16, P5: s16, P6: s16, P7: s16, P8: s16, P9: s16)

  /** The 24 bytes from register 0x88 on. */
  type CalibBytes = b: seq<u8> | |b| == 24 witness seq(24, _ => 0)

  /** The six bytes from register 0xF7 on: pressure, then temperature. */
  type Frame = f: seq<u8> | |f| == 6 witness seq(6, _ => 0)

  // ---- words

  /** `(msb << 8) | lsb`; the operands of the `|` share no bit, so it is a sum. */
  function Word(lsb: u8, msb: u8): u16 {
    msb * 0x100 + lsb
  }

  function Signed(w: u16): s16 {
    if w < 0x8000 then w else w - 0x1_0000
  }

  function Lsb(v: int): u8 {
    v % 0x100
  }

  function Msb(v: int): u8 {
    v / 0x100 % 0x100
  }

  lemma WordBits(lsb: bv8, msb: bv8)
    ensures ((msb as bv16 << 8) | lsb as bv16) as int == Word(lsb as int, msb as int)
  {
  }

  // ---- trimming values

  function DecodeCalib(b: CalibBytes): Calib {
    Calib(
      Word(b[0], b[1]), Signed(Word(b[2], b[3])), Signed(Word(b[4], b[5])),
      Word(b[6], b[7]), Signed(Word(b[8], b[9])), Signed(Word(b[10], b[11])),
      Signed(Word(b[12], b[13])), Signed(Word(b[14], b[15])), Signed(Word(b[16], b[17])),
      Signed(Word(b[18], b[19])), Signed(Word(b[20], b[21])), Signed(Word(b[22], b[23])))
  }

  /** The layout the sensor stores: twelve little-endian two's-complement words. */
  function EncodeCalib(c: Calib): CalibBytes {
    [Lsb(c.T1), Msb(c.T1), Lsb(c.T2), Msb(c.T2), Lsb(c.T3), Msb(c.T3),
     Lsb(c.P1), Msb(c.P1), Lsb(c.P2), Msb(c.P2), Lsb(c.P3), Msb(c.P3),
     Lsb(c.P4), Msb(c.P4), Lsb(c.P5), Msb(c.P5), Lsb(c.P6), Msb(c.P6),
     Lsb(c.P7), Msb(c.P7), Lsb(c.P8), Msb(c.P8), Lsb(c.P9), Msb(c.P9)]
  }

  lemma WordOfBytes(v: u16)
    ensures Word(Lsb(v), Msb(v)) == v
  {
    assert v == v / 0x100 * 0x100 + v % 0x100;
  }

  lemma SignedOfBytes(v: s16)
    ensures Signed(Word(Lsb(v), Msb(v))) == v
  {
    var w := if v >= 0 then v else v + 0x1_0000;
    assert Lsb(w) == Lsb(v) && Msb(w) == Msb(v);
    WordOfBytes(w);
  }

  lemma BytesOfWord(lsb: u8, msb: u8)
    ensures Lsb(Word(lsb, msb)) == lsb && Msb(Word(lsb, msb)) == msb
    ensures Lsb(Signed(Word(lsb, msb))) == lsb && Msb(Signed(Word(lsb, msb))) == msb
  {
  }

  lemma DecodeInvertsEncode(c: Calib)
    ensures DecodeCalib(EncodeCalib(c)) == c
  {
    hide Word, Signed, Lsb, Msb;
    WordOfBytes(c.T1);
    WordOfBytes(c.P1);
    forall v: s16 ensures Signed(Word(Lsb(v), Msb(v))) == v { SignedOfBytes(v); }
  }

  lemma EncodeInvertsDecode(b: CalibBytes)
    ensures EncodeCalib(DecodeCalib(b)) == b
  {
    hide Word, Signed, Lsb, Msb;
    forall lsb: u8, msb: u8
      ensures Lsb(Word(lsb, msb)) == lsb && Msb(Word(lsb, msb)) == msb
      ensures Lsb(Signed(Word(lsb, msb))) == lsb && Msb(Signed(Word(lsb, msb))) == msb
    {
      BytesOfWord(lsb, msb);
    }
  }

  /** Which byte goes where: low byte first, signs in the high byte, `T1` and `P1` without a sign. */
  lemma CountingBytes(b: CalibBytes)
    requires b == [1, 0xF0, 2, 0xF0, 3, 0xF0, 4, 0xF0, 5, 0xF0, 6, 0xF0,
                   7, 0xF0, 8, 0xF0, 9, 0xF0, 10, 0xF0, 11, 0xF0, 12, 0xF0]
    ensures DecodeCalib(b) ==
      Calib(0xF001, -0xFFE, -0xFFD, 0xF004, -0xFFB, -0xFFA, -0xFF9, -0xFF8, -0xFF7, -0xFF6, -0xFF5, -0xFF4)
  {
  }

  // ---- raw readings

  /** `(msb << 12) | (lsb << 4) | (xlsb >> 4)`, again over disjoint bits. */
  function RawReading(msb: u8, lsb: u8, xlsb: u8): u20 {
    msb * 0x1000 + lsb * 0x10 + xlsb / 0x10
  }

  lemma RawReadingBits(msb: bv8, lsb: bv8, xlsb: bv8)
    ensures ((msb as bv32 << 12) | (lsb as bv32 << 4) | (xlsb as bv32 >> 4)) as int
      == RawReading(msb as int, lsb as int, xlsb as int)
  {
  }

  function RawPressure(f: Frame): u20 {
    RawReading(f[0], f[1], f[2])
  }

  function RawTemperature(f: Frame): u20 {
    RawReading(f[3], f[4], f[5])
  }

  /** The sensor's packing of one 20-bit value; the low nibble of the last byte is unused. */
  function Pack(raw: u20, unused: u8): seq<u8>
    requires unused < 16
  {
    [raw / 0x1000, raw / 0x10 % 0x100, raw % 0x10 * 0x10 + unused]
  }

  lemma UnpackInvertsPack(rawP: u20, rawT: u20, n: u8, m: u8)
    requires n < 16 && m < 16
    ensures var f: Frame := Pack(rawP, n) + Pack(rawT, m);
      RawPressure(f) == rawP && RawTemperature(f) == rawT
  {
    PackReads(rawP, n);
    PackReads(rawT, m);
    hide RawReading;
  }

  lemma PackReads(raw: u20, n: u8)
    requires n < 16
    ensures var b := Pack(raw, n); |b| == 3 && RawReading(b[0], b[1], b[2]) == raw
  {
    assert raw == raw / 0x10 * 0x10 + raw % 0x10;
    assert raw / 0x10 == raw / 0x1000 * 0x100 + raw / 0x10 % 0x100;
  }

  /** Two frames read alike exactly when they differ in nothing but the unused nibbles. */
  lemma SameReadings(f: Frame, g: Frame)
    ensures RawPressure(f) == RawPressure(g) && RawTemperature(f) == RawTemperature(g) <==>
      f[..2] == g[..2] && f[2] / 0x10 == g[2] / 0x10 && f[3..5] == g[3..5] && f[5] / 0x10 == g[5] / 0x10
  {
    hide RawReading;
    SameReading(f[0], f[1], f[2], g[0], g[1], g[2]);
    SameReading(f[3], f[4], f[5], g[3], g[4], g[5]);
    assert f[..2] == [f[0], f[1]] && g[..2] == [g[0], g[1]];
    assert f[3..5] == [f[3], f[4]] && g[3..5] == [g[3], g[4]];
  }

  lemma SameReading(m: u8, l: u8, x: u8, m': u8, l': u8, x': u8)
    ensures RawReading(m, l, x) == RawReading(m', l', x') <==> m == m' && l == l' && x / 0x10 == x' / 0x10
  {
    ReadingParts(m, l, x);
    ReadingParts(m', l', x');
  }

  /** The three parts of a raw reading come back out of it. */
  lemma ReadingParts(m: u8, l: u8, x: u8)
    ensures var raw := RawReading(m, l, x);
      raw / 0x1000 == m && raw / 0x10 == m * 0x100 + l && raw % 0x10 == x / 0x10
  {
    assert x / 0x10 < 0x10;
  }
}
