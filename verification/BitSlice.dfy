/**
 The fields of the control register (temperature and pressure oversampling, power mode) and of
 the config register (standby time, filter, three-wire SPI), read and replaced by the
 `BMP280_GET_BITSLICE` and `BMP280_SET_BITSLICE` macros.
 */
module BitSlice {
  import opened ByteBits
  import opened Machine

  function OsrsT(r: u8): u8 { ((r as bv8 & 0xE0) >> 5) as int }
  function OsrsP(r: u8): u8 { ((r as bv8 & 0x1C) >> 2) as int }
  function Mode(r: u8): u8 { (r as bv8 & 0x03) as int }
  function Standby(r: u8): u8 { ((r as bv8 & 0xE0) >> 5) as int }
  function Filter(r: u8): u8 { ((r as bv8 & 0x1C) >> 2) as int }
  function Spi3(r: u8): u8 { (r as bv8 & 0x01) as int }

  /** Bit 1 of the config register, which no field covers. */
  function Unused(r: u8): u8 { (r as bv8 & 0x02) as int }

  function SetOsrsT(r: u8, v: u8): u8 { ((r as bv8 & !0xE0) | ((v as bv8 << 5) & 0xE0)) as int }
  function SetOsrsP(r: u8, v: u8): u8 { ((r as bv8 & !0x1C) | ((v as bv8 << 2) & 0x1C)) as int }
  function SetStandby(r: u8, v: u8): u8 { ((r as bv8 & !0xE0) | ((v as bv8 << 5) & 0xE0)) as int }
  function SetFilter(r: u8, v: u8): u8 { ((r as bv8 & !0x1C) | ((v as bv8 << 2) & 0x1C)) as int }
  function SetSpi3(r: u8, v: u8): u8 { ((r as bv8 & !0x01) | (v as bv8 & 0x01)) as int }

  /** The control byte built from two codes and a mode, truncated to a byte. */
  function ControlByte(t: u8, p: u8, mode: u8): u8 {
    ((t as bv8 << 5) + (p as bv8 << 2) + mode as bv8) as int
  }

  // ---- what the masks and shifts do to eight bits

  lemma FieldBits(r: bv8, v: bv8)
    ensures var r' := (r & !0xE0) | ((v << 5) & 0xE0);
      (r' & 0xE0) >> 5 == v & 7 && r' & 0x1C == r & 0x1C && r' & 3 == r & 3 && r' & 2 == r & 2 && r' & 1 == r & 1
    ensures var r' := (r & !0x1C) | ((v << 2) & 0x1C);
      r' & 0xE0 == r & 0xE0 && (r' & 0x1C) >> 2 == v & 7 && r' & 3 == r & 3 && r' & 2 == r & 2 && r' & 1 == r & 1
    ensures var r' := (r & !0x01) | (v & 0x01);
      r' & 0xE0 == r & 0xE0 && r' & 0x1C == r & 0x1C && r' & 2 == r & 2 && r' & 1 == v & 1
  {
  }

  lemma ControlBits(t: bv8, p: bv8, m: bv8)
    ensures var r := (t << 5) + (p << 2) + m;
      (t & 7 == t && p & 7 == p && m & 3 == m ==> (r & 0xE0) >> 5 == t && (r & 0x1C) >> 2 == p && r & 3 == m)
      && (m & 3 == m ==> r & 3 == m)
  {
  }

  // ---- what each operation does to the fields

  lemma OsrsTSet(r: u8, v: u8)
    ensures var r' := SetOsrsT(r, v); OsrsT(r') == v % 8 && OsrsP(r') == OsrsP(r) && Mode(r') == Mode(r)
  {
    FieldBits(r as bv8, v as bv8);
    IntOfByte((r as bv8 & !0xE0) | ((v as bv8 << 5) & 0xE0));
    LowThreeBits(v as bv8);
    ByteOfInt(v);
  }

  lemma OsrsPSet(r: u8, v: u8)
    ensures var r' := SetOsrsP(r, v); OsrsT(r') == OsrsT(r) && OsrsP(r') == v % 8 && Mode(r') == Mode(r)
  {
    FieldBits(r as bv8, v as bv8);
    IntOfByte((r as bv8 & !0x1C) | ((v as bv8 << 2) & 0x1C));
    LowThreeBits(v as bv8);
    ByteOfInt(v);
  }

  lemma StandbySet(r: u8, v: u8)
    ensures var r' := SetStandby(r, v);
      Standby(r') == v % 8 && Filter(r') == Filter(r) && Spi3(r') == Spi3(r) && Unused(r') == Unused(r)
  {
    FieldBits(r as bv8, v as bv8);
    IntOfByte((r as bv8 & !0xE0) | ((v as bv8 << 5) & 0xE0));
    LowThreeBits(v as bv8);
    ByteOfInt(v);
  }

  lemma FilterSet(r: u8, v: u8)
    ensures var r' := SetFilter(r, v);
      Standby(r') == Standby(r) && Filter(r') == v % 8 && Spi3(r') == Spi3(r) && Unused(r') == Unused(r)
  {
    FieldBits(r as bv8, v as bv8);
    IntOfByte((r as bv8 & !0x1C) | ((v as bv8 << 2) & 0x1C));
    LowThreeBits(v as bv8);
    ByteOfInt(v);
  }

  lemma Spi3Set(r: u8, v: u8)
    ensures var r' := SetSpi3(r, v);
      Standby(r') == Standby(r) && Filter(r') == Filter(r) && Spi3(r') == v % 2 && Unused(r') == Unused(r)
  {
    FieldBits(r as bv8, v as bv8);
    IntOfByte((r as bv8 & !0x01) | (v as bv8 & 0x01));
    LowBit(v as bv8);
    ByteOfInt(v);
  }

  /** Codes of three bits and a mode of two come back out of the byte; the mode does for all codes. */
  lemma ControlByteFields(t: u8, p: u8, mode: u8)
    requires mode < 4
    ensures Mode(ControlByte(t, p, mode)) == mode
    ensures t < 8 && p < 8 ==> OsrsT(ControlByte(t, p, mode)) == t && OsrsP(ControlByte(t, p, mode)) == p
  {
    ControlBits(t as bv8, p as bv8, mode as bv8);
    IntOfByte((t as bv8 << 5) + (p as bv8 << 2) + mode as bv8);
    SmallByte(t);
    SmallByte(p);
    SmallByte(mode);
    ByteOfInt(t);
    ByteOfInt(p);
    ByteOfInt(mode);
  }

  lemma SmallByte(x: u8)
    ensures x < 8 ==> x as bv8 & 7 == x as bv8
    ensures x < 4 ==> x as bv8 & 3 == x as bv8
  {
  }

  /** Three fields and one unused bit make up the config register. */
  lemma FieldsDetermine(r: u8, r': u8)
    requires Standby(r) == Standby(r') && Filter(r) == Filter(r') && Spi3(r) == Spi3(r') && Unused(r) == Unused(r')
    ensures r == r'
  {
    ByteOfInt(r);
    ByteOfInt(r');
    SameInt((r as bv8 & 0xE0) >> 5, (r' as bv8 & 0xE0) >> 5);
    SameInt((r as bv8 & 0x1C) >> 2, (r' as bv8 & 0x1C) >> 2);
    SameInt(r as bv8 & 1, r' as bv8 & 1);
    SameInt(r as bv8 & 2, r' as bv8 & 2);
    FieldsDetermineBits(r as bv8, r' as bv8);
  }

  lemma FieldsDetermineBits(r: bv8, r': bv8)
    requires (r & 0xE0) >> 5 == (r' & 0xE0) >> 5 && (r & 0x1C) >> 2 == (r' & 0x1C) >> 2
    requires r & 1 == r' & 1 && r & 2 == r' & 2
    ensures r == r'
  {
  }

  /** Replacing different fields of the config register commutes. */
  lemma SetsCommute(r: u8, v: u8, w: u8)
    ensures SetSpi3(SetFilter(r, v), w) == SetFilter(SetSpi3(r, w), v)
    ensures SetSpi3(SetStandby(r, v), w) == SetStandby(SetSpi3(r, w), v)
    ensures SetFilter(SetStandby(r, v), w) == SetStandby(SetFilter(r, w), v)
  {
    hide Standby, Filter, Spi3, Unused, SetStandby, SetFilter, SetSpi3;
    Spi3Set(r, w);
    FilterSet(r, v);
    FilterSet(r, w);
    StandbySet(r, v);
    Spi3Set(SetFilter(r, v), w);
    FilterSet(SetSpi3(r, w), v);
    FieldsDetermine(SetSpi3(SetFilter(r, v), w), SetFilter(SetSpi3(r, w), v));
    Spi3Set(SetStandby(r, v), w);
    StandbySet(SetSpi3(r, w), v);
    FieldsDetermine(SetSpi3(SetStandby(r, v), w), SetStandby(SetSpi3(r, w), v));
    FilterSet(SetStandby(r, v), w);
    StandbySet(SetFilter(r, w), v);
    FieldsDetermine(SetFilter(SetStandby(r, v), w), SetStandby(SetFilter(r, w), v));
  }

  /** A pressure code of 8 spills into the temperature code. */
  lemma WideCode()
    ensures OsrsT(ControlByte(0, 8, 3)) == 1 && OsrsP(ControlByte(0, 8, 3)) == 0
  {
    IntOfByte(35);
  }

  lemma ControlFields(r: u8)
    ensures OsrsT(r) == 2 && OsrsP(r) == 5 && Mode(r) == 3 <==> r == 0x57
  {
    ByteOfInt(r);
    ControlFieldBits(r as bv8);
    SameInt((r as bv8 & 0xE0) >> 5, 2);
    SameInt((r as bv8 & 0x1C) >> 2, 5);
    SameInt(r as bv8 & 0x03, 3);
    SameInt(r as bv8, 0x57);
  }

  lemma ControlFieldBits(r: bv8)
    ensures (r & 0xE0) >> 5 == 2 && (r & 0x1C) >> 2 == 5 && r & 0x03 == 3 <==> r == 0x57
  {
  }

  lemma OfZero()
    ensures OsrsT(0) == 0 && OsrsP(0) == 0
  {
  }

  lemma FieldRanges(r: u8)
    ensures OsrsT(r) < 8 && OsrsP(r) < 8 && Mode(r) < 4
  {
    FieldRangeBits(r as bv8);
    LessAsInt((r as bv8 & 0xE0) >> 5);
    LessAsInt((r as bv8 & 0x1C) >> 2);
    LessAsInt(r as bv8 & 3);
  }

  lemma FieldRangeBits(r: bv8)
    ensures (r & 0xE0) >> 5 < 8 && (r & 0x1C) >> 2 < 8 && r & 3 < 4
  {
  }

  // ---- where the fields lie, in plain numbers

  lemma ControlFieldsAt(r: u8)
    ensures OsrsT(r) == r / 32 && OsrsP(r) == r / 4 % 8 && Mode(r) == r % 4
  {
    ByteOfInt(r);
    TopThreeBits(r as bv8);
    MiddleThreeBits(r as bv8);
    LowTwoBits(r as bv8);
  }

  lemma ConfigFieldsAt(r: u8)
    ensures Standby(r) == r / 32 && Filter(r) == r / 4 % 8 && Unused(r) == r / 2 % 2 * 2 && Spi3(r) == r % 2
  {
    ByteOfInt(r);
    TopThreeBits(r as bv8);
    MiddleThreeBits(r as bv8);
    SecondBit(r as bv8);
    LowBit(r as bv8);
  }

  lemma Parts(r: u8)
    ensures r == r / 32 * 32 + r / 4 % 8 * 4 + r % 4
    ensures r % 4 == r / 2 % 2 * 2 + r % 2 && r % 32 == r / 4 % 8 * 4 + r % 4
  {
    UpperParts(r);
    LowerParts(r);
  }

  lemma UpperParts(r: u8)
    ensures r == r / 32 * 32 + r / 4 % 8 * 4 + r % 4 && r % 32 == r / 4 % 8 * 4 + r % 4
  {
    assert r / 4 / 8 == r / 32;
  }

  lemma LowerParts(r: u8)
    ensures r % 4 == r / 2 % 2 * 2 + r % 2
  {
  }

  lemma OsrsTSetTo(r: u8, v: u8)
    ensures SetOsrsT(r, v) == r % 32 + v % 8 * 32
  {
    hide OsrsT, OsrsP, Mode, SetOsrsT;
    var r' := SetOsrsT(r, v);
    OsrsTSet(r, v);
    ControlFieldsAt(r);
    ControlFieldsAt(r');
    Parts(r);
    Parts(r');
  }

  lemma OsrsPSetTo(r: u8, v: u8)
    ensures SetOsrsP(r, v) == r - r / 4 % 8 * 4 + v % 8 * 4
  {
    hide OsrsT, OsrsP, Mode, SetOsrsP;
    var r' := SetOsrsP(r, v);
    OsrsPSet(r, v);
    ControlFieldsAt(r);
    ControlFieldsAt(r');
    Parts(r);
    Parts(r');
  }

  lemma BothSetTo(r: u8, t: u8, p: u8)
    requires t < 8 && p < 8
    ensures SetOsrsP(SetOsrsT(r, t), p) == r % 4 + 4 * p + 32 * t
  {
    hide OsrsT, OsrsP, Mode, SetOsrsP, SetOsrsT;
    var r' := SetOsrsP(SetOsrsT(r, t), p);
    OsrsTSet(r, t);
    OsrsPSet(SetOsrsT(r, t), p);
    ControlFieldsAt(r);
    ControlFieldsAt(r');
    Parts(r');
  }

  lemma ControlByteIs(t: u8, p: u8, mode: u8)
    ensures ControlByte(t, p, mode) == (32 * t + 4 * p + mode) % 0x100
  {
    hide ControlByte;
    var a, b, sum, last := ControlByteParts(t, p, mode);
    WrapThree(t, p, last, a, b, sum, ControlByte(t, p, mode));
  }

  lemma ControlByteParts(t: u8, p: u8, mode: u8) returns (a: int, b: int, sum: int, last: int)
    ensures a == t * 32 % 0x100 && b == p * 4 % 0x100 && last == mode
    ensures sum == (a + b) % 0x100 && ControlByte(t, p, mode) == (sum + last) % 0x100
  {
    var x, y, m := t as bv8 << 5, p as bv8 << 2, mode as bv8;
    ShiftedInts(t, p, mode);
    SumOfBytes(x, y);
    SumOfBytes(x + y, m);
    a, b, sum, last := x as int, y as int, (x + y) as int, m as int;
  }

  lemma ShiftedInts(t: u8, p: u8, mode: u8)
    ensures (t as bv8 << 5) as int == t * 32 % 0x100 && (p as bv8 << 2) as int == p * 4 % 0x100
    ensures (mode as bv8) as int == mode
  {
    ByteOfInt(t);
    ByteOfInt(p);
    ByteOfInt(mode);
    ShiftedByFive(t as bv8);
    ShiftedByTwo(p as bv8);
  }

  lemma WrapThree(t: int, p: int, mode: int, a: int, b: int, sum: int, total: int)
    requires a == t * 32 % 0x100 && b == p * 4 % 0x100 && sum == (a + b) % 0x100 && total == (sum + mode) % 0x100
    ensures total == (32 * t + 4 * p + mode) % 0x100
  {
  }

  lemma StandbySetTo(r: u8, v: u8)
    ensures SetStandby(r, v) == r % 32 + v % 8 * 32
  {
    hide Standby, Filter, Spi3, Unused, SetStandby;
    var r' := SetStandby(r, v);
    StandbySet(r, v);
    ConfigFieldsAt(r);
    ConfigFieldsAt(r');
    Parts(r);
    Parts(r');
  }

  lemma FilterSetTo(r: u8, v: u8)
    ensures SetFilter(r, v) == r - r / 4 % 8 * 4 + v % 8 * 4
  {
    hide Standby, Filter, Spi3, Unused, SetFilter;
    var r' := SetFilter(r, v);
    FilterSet(r, v);
    ConfigFieldsAt(r);
    ConfigFieldsAt(r');
    Parts(r);
    Parts(r');
  }

  lemma Spi3SetTo(r: u8, v: u8)
    ensures SetSpi3(r, v) == r - r % 2 + v % 2
  {
    hide Standby, Filter, Spi3, Unused, SetSpi3;
    var r' := SetSpi3(r, v);
    Spi3Set(r, v);
    ConfigFieldsAt(r);
    ConfigFieldsAt(r');
    Parts(r);
    Parts(r');
  }
}
