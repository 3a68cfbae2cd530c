/** When the 32-bit form overflows: at one fine temperature and reading, and for all readings at once. */
module PressureOverflow {
  import opened Machine
  import opened Calibration
  import opened Bounds
  import opened PressureExact
  import opened PressureInt32

  /** The quotient before its correction, over the bracket and the divisor of the 32-bit form. */
  function Quotient32(c: Calib, tFine: int, raw: int): u32 {
    var x := U32(IdealScale(c, X1(tFine)));
    if x == 0 then 0 else Divide32(U32(NetCounts(c, tFine, raw) * 3125), x)
  }

  lemma NumeratorWraps(raw: u20, x2: s32)
    ensures Numerator32(raw, x2) == Defined(U32(Counts(raw, x2) * 3125))
  {
    var h: int := 0x10_0000 - raw;
    WrapProduct(h - x2 / 0x1000);
    assert U32(h) == h;
  }

  lemma WrapProduct(b: int)
    ensures U32(U32(b) * 3125) == U32(b * 3125)
  {
    assert b * 3125 == U32(b) * 3125 + b / 0x1_0000_0000 * 3125 * 0x1_0000_0000;
    WrapMultiple(U32(b) * 3125, b / 0x1_0000_0000 * 3125);
  }

  lemma WrapMultiple(x: int, k: int)
    ensures U32(x + k * 0x1_0000_0000) == U32(x)
  {
  }

  lemma ScaleRange(c: Calib, tFine: int)
    requires PressureSafe(c) && FineRange(tFine)
    ensures 20764 <= IdealScale(c, X1(tFine)) <= 54000 && U32(IdealScale(c, X1(tFine))) == IdealScale(c, X1(tFine))
  {
    hide IdealScale;
    ScaleError(c, tFine);
  }

  lemma DivisionBelow(p: u32, x: u32)
    requires x >= 20764
    ensures Divide32(p, x) <= 414_000
  {
    DivideRounding(p, x);
    hide Divide32;
    Scaled(20764, x, Divide32(p, x));
  }

  /**
   With the trimming values of `PressureSafe`, and any fine temperature at all: the result is
   defined exactly when the fine temperature is in range, and one product of the first stage and
   the two of the correction fit. The divisor is then positive, and the return for invalid data is not taken.
   */
  lemma Pressure32DefinedExactly(c: Calib, tFine: s32, raw: u20)
    requires PressureSafe(c)
    ensures Pressure32(c, tFine, raw) ==
      if StageFits(c, tFine) && CorrectionFits(c, Quotient32(c, tFine, raw))
      then Defined(U32(IdealCorrected(c, Quotient32(c, tFine, raw))))
      else Undefined
    ensures StageFits(c, tFine) ==> IdealScale(c, X1(tFine)) > 0
  {
    hide Offset32, Scale32, Numerator32, Divide32, Corrected32, IdealOffset, IdealScale, IdealCorrected, Counts;
    hide CorrectionFits;
    OffsetDefinedExactly(c, tFine);
    ScaleDefinedExactly(c, tFine);
    if StageFits(c, tFine) {
      ScaleRange(c, tFine);
      NumeratorWraps(raw, IdealOffset(c, X1(tFine)));
      DivisionBelow(U32(NetCounts(c, tFine, raw) * 3125), U32(IdealScale(c, X1(tFine))));
      CorrectedDefinedExactly(c, Quotient32(c, tFine, raw));
    }
  }

  /** Off that range the form overflows whatever the trimming values are. */
  lemma OutOfRangeOverflows(c: Calib, tFine: s32, raw: u20)
    requires !FineRange(tFine)
    ensures Pressure32(c, tFine, raw) == Undefined
  {
    QuarterSquareFits(tFine);
  }

  // ---- all readings at once

  /** The reading with the largest quotient: a bracket of -1 if one occurs, otherwise the largest bracket. */
  function PeakRaw(c: Calib, tFine: int): u20 {
    var n := NetCounts(c, tFine, 0);
    if 0 <= n < 0xF_FFFF then n + 1 else 0
  }

  lemma CorrectionFitsBelow(c: Calib, p: nat, p': nat)
    requires p <= p' && CorrectionFits(c, p')
    ensures CorrectionFits(c, p)
  {
    SquareShiftedRises(p, p');
    Between(SquareShifted(p), 0, SquareShifted(p'), c.P9);
    Between(p / 4, 0, p' / 4, c.P8);
  }

  lemma SquareShiftedRises(p: nat, p': nat)
    requires p <= p'
    ensures 0 <= SquareShifted(p) <= SquareShifted(p')
  {
    SquareBound(p / 8, p' / 8);
  }

  /** Past the split a numerator of 742000 counts or more gives a larger quotient than any smaller one. */
  lemma LargerNumerator(p: u32, p': u32, x: u32)
    requires 2 <= x <= 54000 && p <= p' && p' >= 742_000 * 3125
    ensures Divide32(p, x) <= Divide32(p', x)
  {
    if p >= 0x8000_0000 {
      SplitDivisionMonotone(p, p', x);
    } else {
      hide Divide32;
      DivideRounding(p, x);
      DivideRounding(p', x);
      var y, y' := Divide32(p, x), Divide32(p', x);
      IntCancel(x, y, y', x * y, x * y');
    }
  }

  lemma NetCountsAt(c: Calib, tFine: s32, raw: u20)
    requires PressureSafe(c) && FineRange(tFine)
    ensures NetCounts(c, tFine, raw) == NetCounts(c, tFine, 0) - raw
    ensures 742_000 <= NetCounts(c, tFine, 0) <= 1_374_000
  {
    hide Offset32, IdealOffset;
    OffsetDefinedExactly(c, tFine);
  }

  lemma PeakNumerator(n: int, raw: u20, peak: u20)
    requires 742_000 <= n <= 1_374_000 && peak == if n < 0xF_FFFF then n + 1 else 0
    ensures U32((n - raw) * 3125) <= U32((n - peak) * 3125) && U32((n - peak) * 3125) >= 742_000 * 3125
  {
  }

  lemma QuotientPeaks(c: Calib, tFine: s32, raw: u20)
    requires PressureSafe(c) && FineRange(tFine)
    ensures Quotient32(c, tFine, raw) <= Quotient32(c, tFine, PeakRaw(c, tFine))
  {
    hide IdealScale, NetCounts, Divide32;
    var peak := PeakRaw(c, tFine);
    NetCountsAt(c, tFine, raw);
    NetCountsAt(c, tFine, peak);
    ScaleRange(c, tFine);
    PeakNumerator(NetCounts(c, tFine, 0), raw, peak);
    LargerNumerator(U32(NetCounts(c, tFine, raw) * 3125), U32(NetCounts(c, tFine, peak) * 3125),
      U32(IdealScale(c, X1(tFine))));
  }

  /** No raw pressure makes the 32-bit form overflow exactly when the products fit at one of them. */
  lemma Pressure32DefinedForAll(c: Calib, tFine: s32)
    requires PressureSafe(c)
    ensures (forall raw: u20 :: Pressure32(c, tFine, raw).Defined?)
      <==> StageFits(c, tFine) && CorrectionFits(c, Quotient32(c, tFine, PeakRaw(c, tFine)))
  {
    hide Pressure32, CorrectionFits, Quotient32, PeakRaw, StageFits, IdealCorrected;
    var peak := PeakRaw(c, tFine);
    if StageFits(c, tFine) && CorrectionFits(c, Quotient32(c, tFine, peak)) {
      forall raw: u20 ensures Pressure32(c, tFine, raw).Defined? {
        StageInRange(c, tFine);
        QuotientPeaks(c, tFine, raw);
        CorrectionFitsBelow(c, Quotient32(c, tFine, raw), Quotient32(c, tFine, peak));
        Pressure32DefinedExactly(c, tFine, raw);
      }
    } else {
      Pressure32DefinedExactly(c, tFine, peak);
      assert !Pressure32(c, tFine, peak).Defined?;
    }
  }

  lemma StageInRange(c: Calib, tFine: int)
    requires StageFits(c, tFine)
    ensures FineRange(tFine)
  {
  }
}
