/**
 Which results of the 32-bit form can be trusted once `read_pressure` has accepted them. The form
 has no guard against a negative bracket, which wraps: on the trimming values of `PressureSafe` this is
 the one way in which a reading that does not overflow becomes a wrong pressure of 900 to 1100 hPa.
 */
module PressurePublished {
  import opened Machine
  import opened Calibration
  import opened Bounds
  import opened PressureExact
  import opened PressureInt32

  /** Outside the range of `Pressure32Accurate` the quotient is still on the right side of it. */
  lemma QuotientSides(q: real, s: int, bracket: int, b: int, x: int, w: real)
    requires w == s as real / 36028797018963968.0
    requires q * s as real == bracket as real * 104857600000.0
    requires -4_950_000_000 <= bracket - 0x8000_0000 * b <= 2_800_000_000
    requires 20764 <= x <= 54000 && -0.078 <= w - x as real <= 0.000087 * w
    requires 0 <= b <= 1_374_000
    ensures var p := Divide32(b * 3125, x);
      p <= 414_000 && (q > 185000.0 ==> p >= 184_990) && (q < 3000.0 ==> p <= 3002)
  {
    hide *;
    CountsFromBracket(q, s, bracket, b);
    DivideRounding(b * 3125, x);
    var p := Divide32(b * 3125, x);
    var xp := x * p;
    assert xp as real == p as real * x as real;
    SideBounds(q, p as real, x as real, w, 6250.0 * b as real, q * w, xp as real);
  }

  lemma SideBounds(q: real, p: real, x: real, w: real, n: real, qw: real, px: real)
    requires qw == q * w && px == p * x && px <= n < px + 2.0 * x && 0.0 <= n <= 8590000000.0
    requires qw - 8150.0 <= n <= qw + 14407.0 && 20764.0 <= x && -0.078 <= w - x <= 0.000087 * w
    ensures -2.0 < p < 414000.0 && (q > 185000.0 ==> p > 184989.0) && (q < 3000.0 ==> p < 3003.0)
  {
    Cancel(x, -2.0, p, -2.0 * x, px);
    Cancel(x, p, 414000.0, px, 414000.0 * x);
    if q > 185000.0 {
      Ordered(w, 185000.0, q, 185000.0 * w, qw);
      Cancel(x, 184989.0, p, 184989.0 * x, px);
    }
    if q < 3000.0 {
      Ordered(w, q, 3000.0, qw, 3000.0 * w);
      Cancel(x, p, 3003.0, px, 3003.0 * x);
    }
  }

  lemma SquareShiftedBelow(p: int)
    requires 0 <= p <= 414_000
    ensures 0 <= SquareShifted(p) && 0x8_0000 * SquareShifted(p) <= p * p
  {
    var e, r := p / 8, p % 8;
    var ee := e * e;
    SquareBound(e, 51750);
    assert p * p == 64 * ee + 16 * (e * r) + r * r;
    Product(e, r, 51750, 7);
    SquareBound(r, 7);
    assert 0 <= e * r;
  }

  lemma CorrectionSides(c: Calib, p: int)
    requires 0 <= p <= 414_000
    ensures p >= 184_990 ==> 110_000 < IdealCorrected(c, p) < 0x8000_0000
    ensures p <= 3002 ==> -0x8000_0000 < IdealCorrected(c, p) < 90_000
  {
    SquareShiftedBelow(p);
    hide SquareShifted;
    SidesBySquare(c, p, SquareShifted(p), p * p);
  }

  lemma SidesBySquare(c: Calib, p: int, m: int, pp: int)
    requires 0 <= p <= 414_000 && pp == p * p && 0 <= m && 0x8_0000 * m <= pp
    ensures p >= 184_990 ==> 110_000 < IdealCorrectBy(p, c.P9 * m, p / 4 * c.P8, c.P7) < 0x8000_0000
    ensures p <= 3002 ==> -0x8000_0000 < IdealCorrectBy(p, c.P9 * m, p / 4 * c.P8, c.P7) < 90_000
  {
    hide IdealCorrectBy;
    TermBounds(c.P9, m);
    TermBounds(c.P8, p / 4);
    if p >= 184_990 {
      ChordBound(p);
      CorrectionLarge(p, c.P9 * m, p / 4 * c.P8, c.P7, m, pp);
    }
    if p <= 3002 {
      SquareBound(p, 3002);
      CorrectionSmall(p, c.P9 * m, p / 4 * c.P8, c.P7, m);
    }
  }

  lemma TermBounds(k: s16, m: nat)
    ensures -0x8000 * m <= k * m <= 0x8000 * m
  {
    Between(k, -0x8000, 0x8000, m);
  }

  lemma ChordBound(p: int)
    requires 184_990 <= p <= 414_000
    ensures p * p <= 598_990 * p - 184_990 * 414_000
  {
    var u, v := p - 184_990, 414_000 - p;
    NonNegative(u, v);
    assert u * v == 414_000 * u - u * p;
    assert u * p == p * p - 184_990 * p;
  }

  lemma CorrectionSmall(p: int, a: int, e: int, P7: s16, m: int)
    requires 0 <= p <= 3002 && 0 <= m <= 20
    requires -0x8000 * m <= a <= 0x8000 * m && -0x8000 * (p / 4) <= e <= 0x8000 * (p / 4)
    ensures -0x8000_0000 < IdealCorrectBy(p, a, e, P7) < 90_000
  {
  }

  lemma CorrectionLarge(p: int, a: int, e: int, P7: s16, m: int, pp: int)
    requires 184_990 <= p <= 414_000 && 0 <= m && 0x8_0000 * m <= pp <= 598_990 * p - 184_990 * 414_000
    requires -0x8000 * m <= a <= 0x8000 * m && -0x8000 * (p / 4) <= e <= 0x8000 * (p / 4)
    ensures 110_000 < IdealCorrectBy(p, a, e, P7) < 0x8000_0000
  {
  }

  lemma CorrectedSmall(c: Calib, q: real)
    requires -100000.0 <= q <= 3000.0
    ensures Corrected(c, q) < 80000.0
  {
    var qq := q * q;
    Ordered(q + 100000.0, q, 3000.0, qq + 100000.0 * q, 3000.0 * q + 300000000.0);
    Ordered(if q >= 0.0 then q else -q, 0.0, if q >= 0.0 then q else -q, 0.0, qq);
    Within(c.P9 as real, qq, 32768.0, qq, SquareTerm(c.P9, q), 32768.0 * qq);
    Within(q, c.P8 as real, 100000.0, 32768.0, LinearTerm(c.P8, q), 3276800000.0);
    CorrectedSmallSum(q, qq, SquareTerm(c.P9, q), LinearTerm(c.P8, q), c.P7);
  }

  lemma CorrectedSmallSum(q: real, qq: real, x1: real, x2: real, P7: s16)
    requires -100000.0 <= q <= 3000.0 && qq <= -97000.0 * q + 300000000.0
    requires x1 <= 32768.0 * qq && x2 <= 3276800000.0
    ensures CorrectBy(q, x1, x2, P7) < 80000.0
  {
  }

  lemma NegativeNetCounts(c: Calib, tFine: int, raw: u20)
    requires PressureSafe(c) && FineRange(tFine) && NetCounts(c, tFine, raw) < 0
    ensures -100000.0 <= ExactQuotient(c, tFine, raw) <= 3000.0
  {
    hide ExactQuotient, ExactScale, Denominator, ScaleScaled, OffsetScaled, IdealOffset;
    QuotientOnScale(c, tFine, raw);
    CountsError(c, tFine, raw);
    ScaledBounds(c, tFine);
    DenominatorAtLeast(c, tFine);
    QuotientBetween(ExactQuotient(c, tFine, raw), Denominator(c, tFine), Bracket(raw, OffsetScaled(c, tFine)));
  }

  lemma DenominatorAtLeast(c: Calib, tFine: int)
    requires PressureSafe(c) && FineRange(tFine)
    ensures Denominator(c, tFine) >= 748_000_000_000_000_000_000
  {
    hide ScaleScaled;
    ScaledBounds(c, tFine);
    ProductAtLeast(ScaleScaled(c, tFine), c.P1);
  }

  lemma ProductAtLeast(scale: int, P1: int)
    requires scale >= 29_927_000_000_000_000 && P1 >= 25000
    ensures scale * P1 >= 748_000_000_000_000_000_000
  {
    Between(scale, 29_927_000_000_000_000, scale, P1);
  }

  lemma QuotientBetween(q: real, s: int, bracket: int)
    requires s >= 748_000_000_000_000_000_000 && -659_000_000_000_000 <= bracket <= 2_800_000_000
    requires q * s as real == bracket as real * 104857600000.0
    ensures -100000.0 <= q <= 3000.0
  {
    var rs := s as real;
    var qs := q * rs;
    Cancel(rs, -100000.0, q, -100000.0 * rs, qs);
    Cancel(rs, q, 3000.0, qs, 3000.0 * rs);
  }

  /**
   A 32-bit result that `read_pressure` would publish (between 900 and 1100 hPa) is within
   24 Pa of the exact pressure if and only if the bracket that the code multiplies by 3125
   has not wrapped below zero. The temperature is not restricted: the result is defined.
   */
  lemma PublishableIsAccurate(c: Calib, tFine: s32, raw: u20)
    requires PressureSafe(c)
    requires Pressure32(c, tFine, raw).Defined? && 90_000 < Pressure32(c, tFine, raw).value < 110_000
    ensures NetCounts(c, tFine, raw) >= 0 <==>
      -24.0 <= Pressure32(c, tFine, raw).value as real - ExactPressure(c, tFine, raw) <= 24.0
  {
    PublishableQuotient(c, tFine, raw);
    StageIsDefined(c, tFine, raw);
    hide Pressure32, NetCounts, ExactQuotient, ExactPressure;
    if NetCounts(c, tFine, raw) >= 0 {
      Pressure32Accurate(c, tFine, raw);
    }
  }

  /** Where the exact quotient lies behind a result that would be published. */
  lemma PublishableQuotient(c: Calib, tFine: s32, raw: u20)
    requires PressureSafe(c)
    requires Pressure32(c, tFine, raw).Defined? && 90_000 < Pressure32(c, tFine, raw).value < 110_000
    ensures FineRange(tFine)
    ensures NetCounts(c, tFine, raw) >= 0 ==> 3000.0 <= ExactQuotient(c, tFine, raw) <= 185000.0
    ensures NetCounts(c, tFine, raw) < 0 ==>
      -100000.0 <= ExactQuotient(c, tFine, raw) <= 3000.0 && ExactPressure(c, tFine, raw) < 80000.0
  {
    StageIsDefined(c, tFine, raw);
    hide Pressure32, NetCounts, ExactQuotient;
    QuotientOnScale(c, tFine, raw);
    var q := ExactQuotient(c, tFine, raw);
    if NetCounts(c, tFine, raw) < 0 {
      NegativeNetCounts(c, tFine, raw);
      CorrectedSmall(c, q);
    } else if q < 3000.0 || q > 185000.0 {
      NotPublished(c, tFine, raw);
    }
  }

  lemma StageIsDefined(c: Calib, tFine: s32, raw: u20)
    requires PressureSafe(c) && Pressure32(c, tFine, raw).Defined?
    ensures StageFits(c, tFine)
  {
    hide Offset32, Scale32;
    OffsetDefinedExactly(c, tFine);
    ScaleDefinedExactly(c, tFine);
  }

  /** A quotient off the range, over counts that are not negative, is never in the published range. */
  lemma NotPublished(c: Calib, tFine: s32, raw: u20)
    requires PressureSafe(c) && StageFits(c, tFine) && NetCounts(c, tFine, raw) >= 0
    requires ExactQuotient(c, tFine, raw) < 3000.0 || ExactQuotient(c, tFine, raw) > 185000.0
    requires Pressure32(c, tFine, raw).Defined?
    ensures !(90_000 < Pressure32(c, tFine, raw).value < 110_000)
  {
    hide IdealOffset, IdealScale, Offset32, Scale32, Numerator32, Divide32, Corrected32, Counts;
    hide IdealCorrected, ExactQuotient, Denominator, Bracket;
    OffsetDefinedExactly(c, tFine);
    ScaleDefinedExactly(c, tFine);
    QuotientOnScale(c, tFine, raw);
    CountsError(c, tFine, raw);
    ScaleError(c, tFine);
    NumeratorDefined(raw, IdealOffset(c, X1(tFine)));
    QuotientSides(ExactQuotient(c, tFine, raw), Denominator(c, tFine), Bracket(raw, OffsetScaled(c, tFine)),
      Counts(raw, IdealOffset(c, X1(tFine))), IdealScale(c, X1(tFine)),
      Denominator(c, tFine) as real / 36028797018963968.0);
    var p := Divide32(Counts(raw, IdealOffset(c, X1(tFine))) * 3125, IdealScale(c, X1(tFine)));
    CorrectedDefinedExactly(c, p);
    CorrectionSides(c, p);
  }

  /** A safe sensor on which a bracket of -262143 counts wraps and comes out as 1088.12 hPa. */
  lemma WrappedBracket(c: Calib)
    requires c.P1 == 46000 && c.P2 == -12800 && c.P4 == 16384 && c.P3 == c.P5 == c.P6 == c.P7 == 0
    requires c.P8 == c.P9 == -32768
    ensures PressureSafe(c) && StageFits(c, -204800) && NetCounts(c, -204800, 0xF_FFFF) == -262143
    ensures Pressure32(c, -204800, 0xF_FFFF) == Defined(108812)
  {
    hide Offset32, Scale32, Divide32, Corrected32, IdealOffset, Numerator32;
    WrappedOffset(c);
    WrappedScale(c);
    WrappedNumerator();
    WrappedDivision();
    WrappedCorrection(c);
  }

  lemma WrappedOffset(c: Calib)
    requires c.P4 == 16384 && c.P5 == c.P6 == 0
    ensures Offset32(c, -204800) == Defined(0x4000_0000) && IdealOffset(c, X1(-204800)) == 0x4000_0000
  {
    assert -41600 * -41600 == 1730560000;
    assert 845000 * c.P6 == 0 && -166400 * c.P5 == 0;
  }

  lemma WrappedScale(c: Calib)
    requires PressureSafe(c) && c.P1 == 46000 && c.P2 == -12800 && c.P3 == 0
    ensures Scale32(c, -204800) == Defined(51702)
  {
    hide Scale32, IdealScale;
    ScaleDefinedExactly(c, -204800);
    WrappedScaleValue(c);
  }

  lemma WrappedScaleValue(c: Calib)
    requires c.P1 == 46000 && c.P2 == -12800 && c.P3 == 0
    ensures IdealScale(c, -166400) == 51702
  {
    hide IdealScale;
    ProductOf(c.P2, -12800, -166400);
    ScaleWithoutP3(c, -166400, 2129920000);
    assert 2129920000 / 2 / 0x4_0000 == 4062;
    ProductOf(c.P1, 46000, 36830);
  }

  lemma ScaleWithoutP3(c: Calib, x1: int, b: int)
    requires c.P3 == 0 && b == c.P2 * x1
    ensures IdealScale(c, x1) == (32768 + b / 2 / 0x4_0000) * c.P1 / 0x8000
  {
    ProductOf(c.P3, 0, x1 / 4 * (x1 / 4) / 0x2000);
  }

  lemma ProductOf(x: int, k: int, y: int)
    requires x == k
    ensures x * y == k * y
  {
  }

  lemma WrappedNumerator()
    ensures Numerator32(0xF_FFFF, 0x4000_0000) == Defined(3475770421)
  {
    assert U32(-262143) == 4294705153 && U32(4294705153 * 3125) == 3475770421;
  }

  lemma WrappedDivision()
    ensures U32(51702) == 51702 && Divide32(3475770421, 51702) == 134454
  {
    assert 3475770421 / 51702 == 67227;
  }

  lemma WrappedCorrection(c: Calib)
    requires c.P7 == 0 && c.P8 == c.P9 == -32768
    ensures Corrected32(c, 134454) == Defined(108812)
  {
    assert U32(16806 * 16806) / 0x2000 == 34477;
    assert c.P9 * 34477 == -1129742336 && 33613 * c.P8 == -1101430784;
  }
}
