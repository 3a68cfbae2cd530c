/**
 How the result of the 32-bit form moves with the raw count. It should fall as the count rises; the
 truncated correction and the split of the division let it rise, by 3 Pa at most.
 */
module PressureOrder {
  import opened Machine
  import opened Calibration
  import opened Bounds
  import opened PressureExact
  import opened PressureInt32

  /** A smaller numerator gives no larger quotient, or across the split one that follows an even one. */
  lemma DivideOrder(n: u32, n': u32, x: u32)
    requires x > 1 && n' <= n
    ensures var p, p' := Divide32(n, x), Divide32(n', x); p' <= p || (p' == p + 1 && p % 2 == 0)
  {
    if n' < 0x8000_0000 <= n {
      DivideCases(n, x);
      DivideCases(n', x);
      hide Divide32;
      QuotientMonotone(2 * n', 2 * n, x);
      DoubledQuotient(n, x);
    } else {
      SplitDivisionMonotone(n', n, x);
    }
  }

  /** The correction does not look at the last two bits of the quotient. */
  lemma CorrectedAfterEven(c: Calib, p: int)
    requires p % 2 == 0
    ensures IdealCorrected(c, p + 1) == IdealCorrected(c, p) + 1
  {
    assert (p + 1) / 8 == p / 8 && (p + 1) / 4 == p / 4;
    hide SquareShifted;
    assert SquareShifted(p + 1) == SquareShifted(p) by { SameSquare(p, p + 1); }
  }

  lemma SameSquare(p: int, p': int)
    requires p / 8 == p' / 8
    ensures SquareShifted(p) == SquareShifted(p')
  {
  }

  lemma SquareShiftedGap(p: int, p': int)
    requires 0 <= p <= p' <= 185_100
    ensures 0 <= SquareShifted(p') - SquareShifted(p)
    ensures 0x2000 * (SquareShifted(p') - SquareShifted(p)) <= 46_274 * (p' / 8 - p / 8) + 0x1FFF
  {
    var e, e' := p / 8, p' / 8;
    SquareBound(e, e');
    assert e' * e' - e * e == (e' - e) * (e' + e);
    Scaled(e' + e, 46_274, e' - e);
  }

  lemma TermFall(k: s16, m: int, m': int)
    requires m <= m'
    ensures k * m - k * m' <= 0x8000 * (m' - m)
  {
    Between(k, -0x8000, 0x8000, m' - m);
    assert k * (m' - m) == k * m' - k * m;
  }

  lemma FallSum(p: int, p': int, a: int, a': int, e: int, e': int, gap: int, P7: int)
    requires p < p' && 0x2000 * gap <= 46_274 * (p' / 8 - p / 8) + 0x1FFF
    requires a - a' <= 0x8000 * gap && e - e' <= 0x8000 * (p' / 4 - p / 4)
    ensures IdealCorrectBy(p, a, e, P7) <= IdealCorrectBy(p', a', e', P7) + 3
  {
    assert a / 0x1000 - a' / 0x1000 <= 8 * gap;
    assert e / 0x2000 - e' / 0x2000 <= 4 * (p' / 4 - p / 4);
    var g := p' - p;
    assert 4 * (p' / 4 - p / 4) <= g + 3;
    assert 8 * (p' / 8 - p / 8) <= g + 7;
    assert 8 * gap + g + 3 <= 16 * g + 48;
  }

  /** A larger quotient is corrected to a result at most 3 Pa smaller. */
  lemma CorrectedFallsLittle(c: Calib, p: int, p': int)
    requires 0 <= p <= p' <= 185_100
    ensures IdealCorrected(c, p) <= IdealCorrected(c, p') + 3
  {
    if p < p' {
      SquareShiftedGap(p, p');
      hide SquareShifted;
      TermFall(c.P9, SquareShifted(p), SquareShifted(p'));
      TermFall(c.P8, p / 4, p' / 4);
      FallSum(p, p', c.P9 * SquareShifted(p), c.P9 * SquareShifted(p'), p / 4 * c.P8, p' / 4 * c.P8,
        SquareShifted(p') - SquareShifted(p), c.P7);
    }
  }

  lemma Pressure32Value(c: Calib, tFine: s32, raw: u20)
    requires PressureSafe(c) && StageFits(c, tFine) && 3000.0 <= ExactQuotient(c, tFine, raw) <= 185000.0
    ensures var n, x := NetCounts(c, tFine, raw) * 3125, IdealScale(c, X1(tFine));
      && 0 <= n < 0x1_0000_0000 && 20764 <= x <= 54000
      && 0 <= Divide32(n, x) <= 185_100
      && Pressure32(c, tFine, raw) == Defined(IdealCorrected(c, Divide32(n, x)))
  {
    hide IdealOffset, IdealScale, Offset32, Scale32, Numerator32, Divide32, Corrected32, Counts;
    hide Corrected, ExactScale, ExactQuotient, IdealCorrected;
    OffsetDefinedExactly(c, tFine);
    ScaleDefinedExactly(c, tFine);
    QuotientAccurate(c, tFine, raw);
    NumeratorDefined(raw, IdealOffset(c, X1(tFine)));
    var p := Divide32(NetCounts(c, tFine, raw) * 3125, IdealScale(c, X1(tFine)));
    CorrectedDefined(c, p);
    CorrectionError(c, p, ExactQuotient(c, tFine, raw));
    CorrectedPositive(c, ExactQuotient(c, tFine, raw));
  }

  /** Over quotients of 3000 to 185000 Pa a higher raw count raises the result by at most 3 Pa. */
  lemma Pressure32NearlyFalls(c: Calib, tFine: s32, raw: u20, raw': u20)
    requires PressureSafe(c) && StageFits(c, tFine) && raw < raw'
    requires 3000.0 <= ExactQuotient(c, tFine, raw) <= 185000.0
    requires 3000.0 <= ExactQuotient(c, tFine, raw') <= 185000.0
    ensures Pressure32(c, tFine, raw).Defined? && Pressure32(c, tFine, raw').Defined?
    ensures Pressure32(c, tFine, raw').value <= Pressure32(c, tFine, raw).value + 3
  {
    hide Pressure32, Divide32, IdealCorrected, IdealScale, IdealOffset, ExactQuotient;
    Pressure32Value(c, tFine, raw);
    Pressure32Value(c, tFine, raw');
    var n, n', x := NetCounts(c, tFine, raw) * 3125, NetCounts(c, tFine, raw') * 3125, IdealScale(c, X1(tFine));
    DivideOrder(n, n', x);
    var p, p' := Divide32(n, x), Divide32(n', x);
    if p' <= p {
      CorrectedFallsLittle(c, p', p);
    } else {
      CorrectedAfterEven(c, p);
    }
  }
  /** The bound is met: a safe sensor, at 25 degrees, on which one count more raises the result by 3 Pa. */
  lemma RisesByThree(c: Calib)
    requires c.P1 == 25000 && c.P7 == 4 && c.P8 == c.P9 == -32768 && c.P2 == c.P3 == c.P4 == c.P5 == c.P6 == 0
    ensures PressureSafe(c) && StageFits(c, 128000)
    ensures ExactQuotient(c, 128000, 390304) == 164568.0 && ExactQuotient(c, 128000, 390305) == 164567.75
    ensures Pressure32(c, 128000, 390304) == Defined(128454) && Pressure32(c, 128000, 390305) == Defined(128457)
  {
    hide Pressure32, StageFits, IdealScale, NetCounts, Divide32, IdealCorrected, ExactQuotient;
    OperatingFits(c, 128000);
    ReferenceQuotients(c);
    ReferenceValues(c);
    ReferenceDivision();
    ReferenceCorrection(c);
    Pressure32Value(c, 128000, 390304);
    Pressure32Value(c, 128000, 390305);
  }

  lemma ReferenceQuotients(c: Calib)
    requires c.P1 == 25000 && c.P4 == 0
    ensures ExactQuotient(c, 128000, 390304) == 164568.0 && ExactQuotient(c, 128000, 390305) == 164567.75
  {
    hide ExactQuotient;
    QuotientAtReference(c, 390304);
    QuotientAtReference(c, 390305);
  }

  lemma ReferenceValues(c: Calib)
    requires c.P1 == 25000 && c.P2 == c.P3 == c.P4 == c.P5 == c.P6 == 0
    ensures NetCounts(c, 128000, 390304) == 658272 && NetCounts(c, 128000, 390305) == 658271
    ensures IdealScale(c, X1(128000)) == 25000
  {
  }

  lemma ReferenceDivision()
    ensures Divide32(658272 * 3125, 25000) == 164568 && Divide32(658271 * 3125, 25000) == 164567
  {
  }

  lemma ReferenceCorrection(c: Calib)
    requires c.P7 == 4 && c.P8 == c.P9 == -32768
    ensures IdealCorrected(c, 164568) == 128454 && IdealCorrected(c, 164567) == 128457
  {
    assert SquareShifted(164568) == 51656 && SquareShifted(164567) == 51650;
  }
}
