/**
 `bmp280_compensate_pressure_int64`: its result is Q24.8, the pressure in Pa times 256. When it
 overflows, how far it is from the exact formula, and that it falls as the raw count rises.
 */
module PressureInt64 {
  import opened Machine
  import opened Calibration
  import opened Bounds
  import opened PressureExact

  function Offset64(c: Calib, tFine: s32): Checked<s64> {
    var x1 :- Int64(tFine - 128000);
    var square :- Int64(x1 * x1);
    var a :- Int64(square * c.P6);
    var b :- Int64(x1 * c.P5);
    var b' :- Int64(b * 0x2_0000);
    var x2 :- Int64(a + b');
    var p4 :- Int64(c.P4 * 0x8_0000_0000);
    Int64(x2 + p4)
  }

  function Scale64(c: Calib, tFine: s32): Checked<s64> {
    var x1 :- Int64(tFine - 128000);
    var square :- Int64(x1 * x1);
    var a :- Int64(square * c.P3);
    var b :- Int64(x1 * c.P2);
    var b' :- Int64(b * 0x1000);
    var y :- Int64(a / 0x100 + b');
    var s :- Int64(0x8000_0000_0000 + y);
    var p :- Int64(s * c.P1);
    Defined(p / 0x2_0000_0000)
  }

  function Quotient64(raw: s32, x1: s64, x2: s64): Checked<s64>
    requires x1 != 0
  {
    var pressure :- Int32(0x10_0000 - raw);
    var shifted :- Int64(pressure * 0x8000_0000);
    var bracket :- Int64(shifted - x2);
    var scaled :- Int64(bracket * 3125);
    Int64(TruncDiv(scaled, x1))
  }

  function Corrected64(c: Calib, pressure: s64): Checked<u32> {
    var m := pressure / 0x2000;
    var a :- Int64(c.P9 * m);
    var b :- Int64(a * m);
    var x1 := b / 0x200_0000;
    var e :- Int64(c.P8 * pressure);
    var x2 := e / 0x8_0000;
    var s :- Int64(pressure + x1);
    var s' :- Int64(s + x2);
    var p7 :- Int64(c.P7 * 0x10);
    var r :- Int64(s' / 0x100 + p7);
    Defined(U32(r))
  }

  function Pressure64(c: Calib, tFine: s32, raw: s32): Checked<u32> {
    var x2 :- Offset64(c, tFine);
    var x1 :- Scale64(c, tFine);
    if x1 == 0 then Defined(0)
    else
      var pressure :- Quotient64(raw, x1, x2);
      Corrected64(c, pressure)
  }

  // ---- the same shifts and products over unbounded integers

  function IdealSum(c: Calib, tFine: int): int {
    var d := tFine - 128000;
    0x8000_0000_0000 + d * d * c.P3 / 0x100 + d * c.P2 * 0x1000
  }

  function IdealScale(c: Calib, tFine: int): int {
    IdealSum(c, tFine) * c.P1 / 0x2_0000_0000
  }

  function IdealQuotient(c: Calib, tFine: int, raw: int): int
    requires IdealScale(c, tFine) > 0
  {
    DivideBracket(raw, IdealScale(c, tFine), OffsetScaled(c, tFine))
  }

  function DivideBracket(raw: int, z: int, x2: int): int
    requires z > 0
  {
    TruncDiv(Bracket(raw, x2) * 3125, z)
  }

  function IdealCorrected(c: Calib, p: int): int {
    IdealCorrectBy(p, c.P9 * (p / 0x2000) * (p / 0x2000), c.P8 * p, c.P7)
  }

  function IdealCorrectBy(p: int, square: int, linear: int, P7: int): int {
    (p + square / 0x200_0000 + linear / 0x8_0000) / 0x100 + P7 * 0x10
  }

  function IdealPressure(c: Calib, tFine: int, raw: int): int
    requires IdealScale(c, tFine) > 0
  {
    IdealCorrected(c, IdealQuotient(c, tFine, raw))
  }

  // ---- overflow

  lemma OffsetDefined(c: Calib, tFine: s32)
    requires OperatingTFine(tFine)
    ensures Offset64(c, tFine) == Defined(OffsetScaled(c, tFine))
    ensures -6_200_000_000_000_000 <= OffsetScaled(c, tFine) <= 6_200_000_000_000_000
  {
    var d := tFine - 128000;
    SquareBound(d, 332800);
    Product(d * d, c.P6, 332800 * 332800, 0x8000);
    Product(d, c.P5, 332800, 0x8000);
  }

  lemma ScaleDefinedExactly(c: Calib, tFine: s32)
    requires OperatingTFine(tFine)
    ensures 81_880_000_000_000 <= IdealSum(c, tFine) <= 199_700_000_000_000
    ensures Scale64(c, tFine) ==
      if InS64(IdealSum(c, tFine) * c.P1) then Defined(IdealScale(c, tFine)) else Undefined
  {
    var d := tFine - 128000;
    SquareBound(d, 332800);
    Product(d * d, c.P3, 332800 * 332800, 0x8000);
    Product(d, c.P2, 332800, 0x8000);
  }

  lemma ScaleAtLeast(sum: int, P1: int)
    requires sum >= 81_880_000_000_000 && P1 >= 7200
    ensures sum * P1 / 0x2_0000_0000 >= 68_600_000
  {
    Between(sum, 81_880_000_000_000, sum, P1);
  }

  lemma QuotientDefinedExactly(raw: u20, z: s64, x2: int)
    requires -6_200_000_000_000_000 <= x2 <= 6_200_000_000_000_000 && z >= 68_600_000
    ensures Quotient64(raw, z, x2) ==
      if InS64(Bracket(raw, x2) * 3125) then Defined(DivideBracket(raw, z, x2)) else Undefined
    ensures InS64(Bracket(raw, x2) * 3125) ==>
      -134_500_000_000 <= DivideBracket(raw, z, x2) <= 134_500_000_000
  {
    var x := Bracket(raw, x2) * 3125;
    if InS64(x) {
      DivBound(if x >= 0 then x else -x, z, 68_600_000, 134_500_000_000);
    }
  }

  lemma DivBound(x: nat, z: int, z0: int, k: nat)
    requires z >= z0 > 0 && x <= z0 * k
    ensures 0 <= x / z <= k
  {
    var zk := z * k;
    Scaled(z0, z, k);
    DivBelow(x, z, k + 1, zk + z);
    DivFloor(x, z);
    IntCancel(z, -1, x / z, -z, z * (x / z));
  }

  lemma CorrectedDefined(c: Calib, p: int)
    requires -134_500_000_000 <= p <= 134_500_000_000
    ensures Corrected64(c, p) == Defined(U32(IdealCorrected(c, p)))
  {
    SquareFits(c.P9, p / 0x2000);
    Product(c.P8, p, 0x8000, 134_500_000_000);
  }

  lemma SquareFits(P9: s16, m: int)
    requires -16_418_458 <= m <= 16_418_458
    ensures InS64(P9 * m)
    ensures -8_834_000_000_000_000_000 <= P9 * m * m <= 8_834_000_000_000_000_000
  {
    Product(P9, m, 0x8000, 16_418_458);
    var a := P9 * m;
    Product(a, m, 0x8000 * 16_418_458, 16_418_458);
  }

  /** The two products that can overflow, the second one at its two ends. */
  predicate Pressure64Fits(c: Calib, tFine: int) {
    && InS64(IdealSum(c, tFine) * c.P1)
    && InS64(Bracket(0, OffsetScaled(c, tFine)) * 3125)
    && InS64(Bracket(0xF_FFFF, OffsetScaled(c, tFine)) * 3125)
  }

  lemma Pressure64Ideal(c: Calib, tFine: s32, raw: u20)
    requires OperatingTFine(tFine) && c.P1 >= 7200
    requires InS64(IdealSum(c, tFine) * c.P1)
    ensures IdealScale(c, tFine) >= 68_600_000
    ensures Pressure64(c, tFine, raw) ==
      if InS64(Bracket(raw, OffsetScaled(c, tFine)) * 3125) then Defined(U32(IdealPressure(c, tFine, raw)))
      else Undefined
  {
    hide Offset64, Scale64, Quotient64, Corrected64, OffsetScaled, IdealSum, Bracket, IdealCorrected;
    OffsetDefined(c, tFine);
    ScaleDefinedExactly(c, tFine);
    ScaleAtLeast(IdealSum(c, tFine), c.P1);
    QuotientDefinedExactly(raw, IdealScale(c, tFine), OffsetScaled(c, tFine));
    if InS64(Bracket(raw, OffsetScaled(c, tFine)) * 3125) {
      CorrectedDefined(c, IdealQuotient(c, tFine, raw));
    }
  }

  /**
   With `P1` at least 7200 and an operating temperature, whatever the other trimming values:
   no step of the 64-bit form overflows for any raw pressure exactly when those products fit.
   */
  lemma Pressure64DefinedExactly(c: Calib, tFine: s32)
    requires OperatingTFine(tFine) && c.P1 >= 7200
    ensures (forall raw: u20 :: Pressure64(c, tFine, raw).Defined?) <==> Pressure64Fits(c, tFine)
  {
    hide Pressure64, OffsetScaled, IdealSum;
    if !InS64(IdealSum(c, tFine) * c.P1) {
      ScaleOverflows(c, tFine, 0);
      assert !Pressure64(c, tFine, 0).Defined?;
    } else {
      forall raw: u20
        ensures Pressure64(c, tFine, raw).Defined? <==> InS64(Bracket(raw, OffsetScaled(c, tFine)) * 3125)
      {
        Pressure64Ideal(c, tFine, raw);
      }
      assert Pressure64(c, tFine, 0).Defined? <==> InS64(Bracket(0, OffsetScaled(c, tFine)) * 3125);
      assert Pressure64(c, tFine, 0xF_FFFF).Defined? <==> InS64(Bracket(0xF_FFFF, OffsetScaled(c, tFine)) * 3125);
    }
  }

  lemma ScaleOverflows(c: Calib, tFine: s32, raw: u20)
    requires OperatingTFine(tFine) && !InS64(IdealSum(c, tFine) * c.P1)
    ensures Pressure64(c, tFine, raw) == Undefined
  {
    hide Offset64, Scale64, OffsetScaled, IdealSum;
    OffsetDefined(c, tFine);
    ScaleDefinedExactly(c, tFine);
  }

  lemma SafeFits(c: Calib, tFine: int)
    requires PressureSafe(c) && OperatingTFine(tFine)
    ensures Pressure64Fits(c, tFine)
  {
    OperatingBounds(c, tFine);
    SumBelow(c, tFine);
    hide OffsetScaled, IdealSum;
    Product(IdealSum(c, tFine), c.P1, 162_000_000_000_000, 46000);
  }

  lemma SumBelow(c: Calib, tFine: int)
    requires PressureSafe(c) && OperatingTFine(tFine)
    ensures 0 <= IdealSum(c, tFine) <= 162_000_000_000_000
  {
    var d := tFine - 128000;
    SquareBound(d, 332800);
    Product(d * d, c.P3, 332800 * 332800, 8192);
    Product(d, c.P2, 332800, 12800);
  }

  /** The integer scale is the exact one times 2^14, less than two below it. */
  lemma ScaleError(c: Calib, tFine: int)
    requires PressureSafe(c) && OperatingTFine(tFine)
    ensures var z := IdealScale(c, tFine);
      z * 0x200_0000_0000 <= Denominator(c, tFine) < (z + 2) * 0x200_0000_0000
    ensures 348_400_000 <= IdealScale(c, tFine) <= 866_200_000
  {
    var d := tFine - 128000;
    var a, b := d * d * c.P3, d * c.P2;
    var y := 0x8000_0000_0000 + a / 0x100 + b * 0x1000;
    var rest := a % 0x100;
    assert ScaleScaled(c, tFine) == 0x100 * y + rest;
    assert ScaleScaled(c, tFine) * c.P1 == 0x100 * (y * c.P1) + rest * c.P1;
    Between(rest, 0, 0xFF, c.P1);
    OperatingBounds(c, tFine);
    Between(ScaleScaled(c, tFine), 30_654_000_000_000_000, 41_404_000_000_000_000, c.P1);
  }

  lemma QuotientInRange(raw: u20, z: int, x2: int)
    requires -642_000_000_000_000 <= x2 <= 642_000_000_000_000 && z >= 348_400_000
    ensures -5_760_000_000 <= DivideBracket(raw, z, x2) <= 25_960_000_000
  {
    var x := Bracket(raw, x2) * 3125;
    if x >= 0 {
      DivBound(x, z, 348_400_000, 25_960_000_000);
    } else {
      DivBound(-x, z, 348_400_000, 5_760_000_000);
    }
  }

  lemma IdealBounds(c: Calib, tFine: int, raw: u20)
    requires PressureSafe(c) && OperatingTFine(tFine)
    ensures 348_400_000 <= IdealScale(c, tFine) <= 866_200_000
    ensures -5_760_000_000 <= IdealQuotient(c, tFine, raw) <= 25_960_000_000
  {
    ScaleError(c, tFine);
    OperatingBounds(c, tFine);
    QuotientInRange(raw, IdealScale(c, tFine), OffsetScaled(c, tFine));
  }

  lemma Pressure64Defined(c: Calib, tFine: s32, raw: u20)
    requires PressureSafe(c) && OperatingTFine(tFine)
    ensures IdealScale(c, tFine) > 0
    ensures Pressure64(c, tFine, raw) == Defined(U32(IdealPressure(c, tFine, raw)))
  {
    hide Pressure64, OffsetScaled, IdealSum;
    SafeFits(c, tFine);
    Pressure64Ideal(c, tFine, raw);
  }

  // ---- accuracy

  lemma TruncDivParts(x: int, z: int)
    requires z > 0
    ensures var p := TruncDiv(x, z);
      if x >= 0 then p >= 0 && p * z <= x < p * z + z else p <= 0 && p * z - z < x <= p * z
  {
    var n := if x >= 0 then x else -x;
    DivFloor(n, z);
    DivNonNegative(n, z);
    assert (-(n / z)) * z == -(z * (n / z));
  }

  lemma DivNonNegative(n: nat, z: int)
    requires z > 0
    ensures n / z >= 0
  {
  }

  lemma QuotientError(q: real, p: int, z: int, s: int, x: int)
    requires 348_400_000 <= z && z * 0x200_0000_0000 <= s < (z + 2) * 0x200_0000_0000
    requires q * s as real == x as real * 2199023255552.0
    requires p == TruncDiv(x, z) && -25_960_000_000 <= p <= 25_960_000_000
    ensures -150.0 <= p as real - q <= 150.0
  {
    TruncDivParts(x, z);
    var w := s as real / 2199023255552.0;
    var rz, rp, rx := z as real, p as real, x as real;
    assert (p * z) as real == rp * rz;
    assert rz <= w < rz + 2.0;
    assert q * w == rx;
    if x >= 0 {
      QuotientErrorPositive(q, rp, rz, w);
    } else {
      QuotientErrorPositive(-q, -rp, rz, w);
    }
  }

  lemma QuotientErrorPositive(q: real, p: real, z: real, w: real)
    requires 348400000.0 <= z <= w < z + 2.0
    requires q >= 0.0 && 0.0 <= p <= 25960000000.0 && p * z <= q * w < p * z + z
    ensures -150.0 <= p - q <= 150.0
  {
    var pz, qz, qw := p * z, q * z, q * w;
    Ordered(q, z, w, qz, qw);
    Ordered(q, w, z + 2.0, qw, qz + 2.0 * q);
    Cancel(z, q, p + 1.0, qz, pz + z);
    Cancel(z, p - q, 150.0, pz - qz, 150.0 * z);
  }

  /** The correction of a quotient in Q16.16, against the exact one. */
  lemma CorrectionError(c: Calib, p: int, q: real)
    requires -25_960_000_000 <= p <= 25_960_000_000
    requires -150.0 <= p as real - 65536.0 * q <= 150.0
    ensures -32.0 <= IdealCorrected(c, p) as real - 256.0 * Corrected(c, q) <= 32.0
  {
    SquareTermError(c.P9, p, q);
    LinearTermError(c.P8, p, q);
    CorrectionSum(p, c.P9 * (p / 0x2000) * (p / 0x2000), c.P8 * p, c.P7, q, SquareTerm(c.P9, q), LinearTerm(c.P8, q));
  }

  lemma CorrectionSum(p: int, a: int, e: int, P7: int, q: real, x1: real, x2: real)
    requires -150.0 <= p as real - 65536.0 * q <= 150.0
    requires -213909504000.0 <= a as real - 64.0 * x1 <= 213909504000.0
    requires -4915200.0 <= e as real - 65536.0 * x2 <= 4915200.0
    ensures -32.0 <= IdealCorrectBy(p, a, e, P7) as real - 256.0 * CorrectBy(q, x1, x2, P7) <= 32.0
  {
  }

  lemma SquareTermError(P9: s16, p: int, q: real)
    requires -25_960_000_000 <= p <= 25_960_000_000
    requires -150.0 <= p as real - 65536.0 * q <= 150.0
    ensures -213909504000.0 <= (P9 * (p / 0x2000) * (p / 0x2000)) as real - 64.0 * SquareTerm(P9, q) <= 213909504000.0
  {
    var m := p / 0x2000;
    var rm, p9, n := m as real, P9 as real, 8.0 * q;
    SquareGap(rm, n, 1.02, 6400000.0);
    var gap := rm * rm - n * n;
    SquareCast(m);
    assert (P9 * m * m) as real == p9 * (rm * rm) by { assert P9 * m * m == P9 * (m * m); }
    Within(p9, gap, 32768.0, 6528000.0, (P9 * m * m) as real - 64.0 * SquareTerm(P9, q), 213909504000.0);
  }

  lemma LinearTermError(P8: s16, p: int, q: real)
    requires -150.0 <= p as real - 65536.0 * q <= 150.0
    ensures -4915200.0 <= (P8 * p) as real - 65536.0 * LinearTerm(P8, q) <= 4915200.0
  {
    var gap := (P8 * p) as real - 65536.0 * LinearTerm(P8, q);
    Within(P8 as real, p as real - 65536.0 * q, 32768.0, 150.0, gap, 4915200.0);
  }

  lemma QuotientAccurate(c: Calib, tFine: s32, raw: u20)
    requires PressureSafe(c) && OperatingTFine(tFine)
    ensures ExactScale(c, tFine) > 0.0 && IdealScale(c, tFine) > 0
    ensures -5_760_000_000 <= IdealQuotient(c, tFine, raw) <= 25_960_000_000
    ensures -150.0 <= IdealQuotient(c, tFine, raw) as real - 65536.0 * ExactQuotient(c, tFine, raw) <= 150.0
  {
    hide IdealScale, OffsetScaled, Denominator, Bracket, ExactScale, DivideBracket;
    IdealBounds(c, tFine, raw);
    QuotientOnScale(c, tFine, raw);
    ScaleError(c, tFine);
    BracketQuotientError(ExactQuotient(c, tFine, raw), raw, IdealScale(c, tFine), Denominator(c, tFine),
      OffsetScaled(c, tFine));
  }

  lemma BracketQuotientError(q: real, raw: int, z: int, s: int, x2: int)
    requires 348_400_000 <= z && z * 0x200_0000_0000 <= s < (z + 2) * 0x200_0000_0000
    requires q * s as real == Bracket(raw, x2) as real * 104857600000.0
    requires -25_960_000_000 <= DivideBracket(raw, z, x2) <= 25_960_000_000
    ensures -150.0 <= DivideBracket(raw, z, x2) as real - 65536.0 * q <= 150.0
  {
    assert 65536.0 * q * s as real == 65536.0 * (q * s as real);
    QuotientError(65536.0 * q, DivideBracket(raw, z, x2), z, s, Bracket(raw, x2) * 3125);
  }

  /** For every raw reading the value before its conversion to `u32` is within 1/8 Pa of the exact one. */
  lemma Pressure64Accurate(c: Calib, tFine: s32, raw: u20)
    requires PressureSafe(c) && OperatingTFine(tFine)
    ensures IdealScale(c, tFine) > 0
    ensures Pressure64(c, tFine, raw) == Defined(U32(IdealPressure(c, tFine, raw)))
    ensures -0.125 <= IdealPressure(c, tFine, raw) as real / 256.0 - ExactPressure(c, tFine, raw) <= 0.125
  {
    Pressure64Defined(c, tFine, raw);
    QuotientAccurate(c, tFine, raw);
    CorrectionError(c, IdealQuotient(c, tFine, raw), ExactQuotient(c, tFine, raw));
  }

  /** A quotient that can occur is corrected to less than 2^28 in size. */
  lemma CorrectedBelow(c: Calib, p: int)
    requires -25_960_000_000 <= p <= 25_960_000_000
    ensures -0x1000_0000 <= IdealCorrected(c, p) <= 0x1000_0000
  {
    var m := p / 0x2000;
    Product(c.P9, m, 0x8000, 3_170_000);
    Product(c.P9 * m, m, 0x8000 * 3_170_000, 3_170_000);
    Product(c.P8, p, 0x8000, 25_960_000_000);
    CorrectedBelowSum(p, c.P9 * m * m, c.P8 * p, c.P7);
  }

  lemma CorrectedBelowSum(p: int, a: int, e: int, P7: s16)
    requires -25_960_000_000 <= p <= 25_960_000_000
    requires -330_000_000_000_000_000 <= a <= 330_000_000_000_000_000
    requires -851_000_000_000_000 <= e <= 851_000_000_000_000
    ensures -0x1000_0000 <= IdealCorrectBy(p, a, e, P7) <= 0x1000_0000
  {
  }

  /**
   For every raw reading, off the sensor's range too: the returned value is within 1/8 Pa of the exact
   pressure if and only if the value that is converted to `u32` is not negative.
   */
  lemma Pressure64AccurateExactly(c: Calib, tFine: s32, raw: u20)
    requires PressureSafe(c) && OperatingTFine(tFine)
    ensures IdealScale(c, tFine) > 0 && Pressure64(c, tFine, raw).Defined?
    ensures IdealPressure(c, tFine, raw) >= 0 <==>
      -0.125 <= Pressure64(c, tFine, raw).value as real / 256.0 - ExactPressure(c, tFine, raw) <= 0.125
  {
    hide Pressure64, ExactPressure, IdealPressure, IdealScale, U32;
    Pressure64Accurate(c, tFine, raw);
    PressureBelow(c, tFine, raw);
    WrapKeepsAccuracy(IdealPressure(c, tFine, raw), ExactPressure(c, tFine, raw));
  }

  lemma PressureBelow(c: Calib, tFine: s32, raw: u20)
    requires PressureSafe(c) && OperatingTFine(tFine)
    ensures IdealScale(c, tFine) > 0 && -0x1000_0000 <= IdealPressure(c, tFine, raw) <= 0x1000_0000
  {
    hide IdealScale, IdealQuotient, IdealCorrected;
    IdealBounds(c, tFine, raw);
    CorrectedBelow(c, IdealQuotient(c, tFine, raw));
  }

  lemma WrapKeepsAccuracy(v: int, exact: real)
    requires -0x1000_0000 <= v <= 0x1000_0000 && -0.125 <= v as real / 256.0 - exact <= 0.125
    ensures v >= 0 <==> -0.125 <= U32(v) as real / 256.0 - exact <= 0.125
    ensures v < 0 ==> U32(v) > 0x8000_0000
  {
    assert U32(v) == if v >= 0 then v else v + 0x1_0000_0000;
  }

  /** A safe sensor, at 25 degrees and the largest raw count: a negative pressure is returned as one above 2^31. */
  lemma NegativePressureWraps(c: Calib)
    requires c.P1 == 25000 && c.P4 == 16384 && c.P2 == c.P3 == c.P5 == c.P6 == c.P7 == c.P8 == c.P9 == 0
    ensures PressureSafe(c) && ExactPressure(c, 128000, 0xF_FFFF) == -65535.75
    ensures Pressure64(c, 128000, 0xF_FFFF).Defined? && Pressure64(c, 128000, 0xF_FFFF).value > 0x8000_0000
  {
    NegativePressure(c);
    hide Pressure64, ExactPressure, IdealPressure, IdealScale, U32;
    Pressure64Accurate(c, 128000, 0xF_FFFF);
    PressureBelow(c, 128000, 0xF_FFFF);
    WrapKeepsAccuracy(IdealPressure(c, 128000, 0xF_FFFF), -65535.75);
  }

  lemma NegativePressure(c: Calib)
    requires c.P1 == 25000 && c.P4 == 16384 && c.P2 == c.P3 == c.P7 == c.P8 == c.P9 == 0
    ensures ExactPressure(c, 128000, 0xF_FFFF) == -65535.75
  {
    assert 128000 as real / 2.0 - 64000.0 == 0.0;
    QuotientAtReference(c, 0xF_FFFF);
    hide ExactQuotient;
  }

  /** From a quotient of 3000 Pa on, the conversion to `u32` changes nothing. */
  lemma Pressure64NoWrap(c: Calib, tFine: s32, raw: u20)
    requires PressureSafe(c) && OperatingTFine(tFine)
    requires ExactQuotient(c, tFine, raw) >= 3000.0
    ensures IdealScale(c, tFine) > 0
    ensures Pressure64(c, tFine, raw) == Defined(IdealPressure(c, tFine, raw))
  {
    Pressure64Accurate(c, tFine, raw);
    QuotientAccurate(c, tFine, raw);
    CorrectedPositive(c, ExactQuotient(c, tFine, raw));
  }

  // ---- monotonicity

  /** One count of raw pressure moves the quotient by at least 7745 units of Q16.16. */
  lemma DivideStep(raw: int, raw': int, z: int, x2: int)
    requires 348_400_000 <= z <= 866_200_000 && raw < raw'
    ensures DivideBracket(raw, z, x2) - DivideBracket(raw', z, x2) >= 7745
  {
    var lo, hi := Bracket(raw', x2) * 3125, Bracket(raw, x2) * 3125;
    TruncDivParts(lo, z);
    TruncDivParts(hi, z);
    var p, p' := TruncDiv(lo, z), TruncDiv(hi, z);
    var pz, pz' := p * z, p' * z;
    IntCancel(z, 7744, p' - p, 7744 * z, pz' - pz);
  }

  lemma CorrectionMonotone(c: Calib, p: int, p': int)
    requires -14_500_000_000 <= p && p + 7745 <= p' <= 14_500_000_000
    ensures IdealCorrected(c, p) < IdealCorrected(c, p')
  {
    var m, m', gap := p / 0x2000, p' / 0x2000, p' - p;
    SquareDrop(c.P9, m, m');
    Product(c.P8, gap, 0x8000, gap);
    assert c.P8 * p' - c.P8 * p == c.P8 * gap;
    CorrectionStep(p, p', c.P9 * m * m, c.P9 * m' * m', c.P8 * p, c.P8 * p', c.P7);
  }

  lemma SquareDrop(P9: s16, m: int, m': int)
    requires m <= m' && -3_540_040 <= m + m' <= 3_540_040
    ensures P9 * m * m - P9 * m' * m' <= 0x8000 * 3_540_040 * (m' - m)
  {
    var d := (m' - m) * (m' + m);
    Product(m' - m, m' + m, m' - m, 3_540_040);
    Product(P9, d, 0x8000, 3_540_040 * (m' - m));
    assert d == m' * m' - m * m;
    assert P9 * m' * m' == P9 * (m' * m') && P9 * m * m == P9 * (m * m);
    assert P9 * d == P9 * (m' * m') - P9 * (m * m);
  }

  lemma CorrectionStep(p: int, p': int, a: int, a': int, e: int, e': int, P7: int)
    requires p + 7745 <= p'
    requires a - a' <= 0x8000 * 3_540_040 * (p' / 0x2000 - p / 0x2000)
    requires e - e' <= 0x8000 * (p' - p)
    ensures IdealCorrectBy(p, a, e, P7) < IdealCorrectBy(p', a', e', P7)
  {
  }

  lemma BracketDecreasing(c: Calib, raw: int, raw': int, z: int, x2: int)
    requires 348_400_000 <= z <= 866_200_000 && raw < raw'
    requires -14_500_000_000 <= DivideBracket(raw', z, x2) && DivideBracket(raw, z, x2) <= 14_500_000_000
    ensures IdealCorrected(c, DivideBracket(raw', z, x2)) < IdealCorrected(c, DivideBracket(raw, z, x2))
  {
    DivideStep(raw, raw', z, x2);
    CorrectionMonotone(c, DivideBracket(raw', z, x2), DivideBracket(raw, z, x2));
  }

  /**
   Up to a quotient of 220000 Pa the result falls strictly with every raw count, even when `P8`
   and `P9` are negative: a count outweighs the jumps of the truncated correction.
   */
  lemma Pressure64Decreasing(c: Calib, tFine: s32, raw: u20, raw': u20)
    requires PressureSafe(c) && OperatingTFine(tFine) && raw < raw'
    requires ExactQuotient(c, tFine, raw) <= 220000.0
    ensures IdealScale(c, tFine) > 0
    ensures IdealPressure(c, tFine, raw') < IdealPressure(c, tFine, raw)
  {
    QuotientAccurate(c, tFine, raw);
    IdealBounds(c, tFine, raw');
    BracketDecreasing(c, raw, raw', IdealScale(c, tFine), OffsetScaled(c, tFine));
  }

  lemma ExactQuotientFalls(c: Calib, tFine: s32, raw: u20, raw': u20)
    requires PressureSafe(c) && OperatingTFine(tFine) && raw < raw'
    ensures ExactQuotient(c, tFine, raw') < ExactQuotient(c, tFine, raw)
  {
    hide ExactQuotient, ExactScale, OffsetScaled, Denominator;
    QuotientOnScale(c, tFine, raw);
    QuotientOnScale(c, tFine, raw');
    ScaleError(c, tFine);
    var q, q', s := ExactQuotient(c, tFine, raw), ExactQuotient(c, tFine, raw'), Denominator(c, tFine) as real;
    Cancel(s, q', q, q' * s, q * s);
  }

  /** The returned value falls strictly too, over quotients of 3000 to 220000 Pa. */
  lemma Pressure64Falls(c: Calib, tFine: s32, raw: u20, raw': u20)
    requires PressureSafe(c) && OperatingTFine(tFine) && raw < raw'
    requires 3000.0 <= ExactQuotient(c, tFine, raw') && ExactQuotient(c, tFine, raw) <= 220000.0
    ensures Pressure64(c, tFine, raw).Defined? && Pressure64(c, tFine, raw').Defined?
    ensures Pressure64(c, tFine, raw').value < Pressure64(c, tFine, raw).value
  {
    hide Pressure64, IdealPressure, IdealScale, ExactQuotient;
    ExactQuotientFalls(c, tFine, raw, raw');
    Pressure64NoWrap(c, tFine, raw);
    Pressure64NoWrap(c, tFine, raw');
    Pressure64Decreasing(c, tFine, raw, raw');
  }

  /** One value in full: a safe sensor at 25 degrees, 32884414 units of 1/256 Pa. */
  lemma PlainValue(c: Calib)
    requires c.P1 == 25000 && c.P7 == 4 && c.P8 == c.P9 == -32768 && c.P2 == c.P3 == c.P4 == c.P5 == c.P6 == 0
    ensures PressureSafe(c) && Pressure64(c, 128000, 390304) == Defined(32884414)
  {
    PlainSteps(c);
    hide Offset64, Scale64, Quotient64, Corrected64;
    PlainQuotient();
    PlainCorrection(c);
  }

  lemma PlainSteps(c: Calib)
    requires c.P1 == 25000 && c.P2 == c.P3 == c.P4 == c.P5 == c.P6 == 0
    ensures Offset64(c, 128000) == Defined(0) && Scale64(c, 128000) == Defined(409600000)
  {
  }

  lemma PlainQuotient()
    ensures Quotient64(390304, 409600000, 0) == Defined(10785128448)
  {
  }

  lemma PlainCorrection(c: Calib)
    requires c.P7 == 4 && c.P8 == c.P9 == -32768
    ensures Corrected64(c, 10785128448) == Defined(32884414)
  {
    assert c.P9 * 1316544 == -43140513792 && -43140513792 * 1316544 == -56796384589774848;
    assert c.P8 * 10785128448 == -353407088984064;
  }
}
