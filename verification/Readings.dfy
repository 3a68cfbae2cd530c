/** The readings that `read_pressure` judges: when one overflows, and how accurate it is. */
module Readings {
  import opened Machine
  import opened Bounds
  import opened Calibration
  import opened TemperatureInt32
  import opened PressureExact
  import opened PressureInt32
  import opened PressureOverflow
  import opened PressurePublished
  import opened PressureShift
  import opened Bmp280
  import opened Acquisition

  // ---- when a reading overflows

  /** Safe trimming values: the frames whose reading is defined. */
  lemma SampleDefinedExactly(c: Calib, f: Frame)
    requires TemperatureSafe(c) && PressureSafe(c)
    ensures var t := IdealTFine(c, RawTemperature(f));
      Sample(c, f).Defined? <==> StageFits(c, t) && CorrectionFits(c, Quotient32(c, t, RawPressure(f)))
  {
    hide TFine32, Temperature32, Pressure32, TemperatureSafe, PressureSafe, RawTemperature, RawPressure, IdealTFine;
    hide StageFits, CorrectionFits, Quotient32;
    SafeIsDefined(c, RawTemperature(f));
    TemperatureDefined(c, RawTemperature(f));
    Pressure32DefinedExactly(c, IdealTFine(c, RawTemperature(f)), RawPressure(f));
  }

  /**
   A failed transfer is computed with as six zero bytes. On any ordinary temperature trimming, and
   whatever the pressure trimming, the fine temperature of those is out of range, and a square overflows.
   */
  lemma FailedTransferOverflows(c: Calib)
    requires 19195 <= c.T1 <= 46340 && c.T2 >= 16384 && -4096 <= c.T3 <= 4096
    ensures Sample(c, Delivered(None)) == Undefined
  {
    FrameOfZeros();
    hide TFine32, Temperature32, Pressure32, IdealTFine, RawTemperature, RawPressure;
    ZerosAreCold(c);
    if TFine32(c, 0).Defined? {
      DefinedIsIdeal(c, 0);
      OutOfRangeOverflows(c, TFine32(c, 0).value, 0);
    }
  }

  lemma FrameOfZeros()
    ensures RawTemperature(Delivered(None)) == 0 && RawPressure(Delivered(None)) == 0
  {
  }

  lemma ZerosAreCold(c: Calib)
    requires 19195 <= c.T1 <= 46340 && c.T2 >= 16384 && -4096 <= c.T3 <= 4096
    ensures IdealTFine(c, 0) < -242720
  {
    ZeroTFine(c);
    hide *;
    var T1: int := c.T1;
    var x, square := c.T2 * T1, T1 * T1;
    Scaled(T1, 46340, T1);
    Scaled(16384, c.T2, T1);
    Between(c.T3, -4096, 4096, square / 4096);
    ColdSum(T1, x, square / 4096 * c.T3);
  }

  lemma ZeroTFine(c: Calib)
    ensures var T1: int := c.T1;
      IdealTFine(c, 0) == -2 * (c.T2 * T1) / 2048 + T1 * T1 / 4096 * c.T3 / 16384
  {
    assert (0 - 2 * c.T1) * c.T2 == -2 * (c.T2 * c.T1);
    assert (0 - c.T1) * (0 - c.T1) == c.T1 * c.T1;
  }

  lemma ColdSum(T1: int, x: int, y: int)
    requires T1 >= 19195 && x >= 16384 * T1 && y <= 46340 * T1
    ensures -2 * x / 2048 + y / 16384 < -242720
  {
  }

  /**
   If the trimming values could not be read, and so are all zero, a reading is no pressure at no
   temperature, which is not accepted and asks for no reset, as long as `raw >> 4` has a square that
   fits; from 46341 on it overflows.
   */
  lemma UnreadCalibration(poll: Poll)
    ensures var c, f := DecodeCalib(NO_CALIB), Delivered(poll.first);
      && Sample(c, f) == (if RawTemperature(f) / 16 <= 46340 then Defined(Reading(0, 0)) else Undefined)
      && (RawTemperature(f) / 16 <= 46340 ==> Judge(c, poll).Retry?)
  {
    ZeroCalib();
    hide DecodeCalib, RawTemperature, RawPressure;
    var raw := RawTemperature(Delivered(poll.first));
    ZeroTemperature(raw);
    ZeroPressure(RawPressure(Delivered(poll.first)));
  }

  const ZEROS := Calib(0, 0, 0, 0, 0, 0, 0, 0, 0, 0, 0, 0)

  lemma ZeroTemperature(raw: u20)
    ensures TFine32(ZEROS, raw) == if raw / 16 <= 46340 then Defined(0) else Undefined
    ensures Temperature32(ZEROS, raw) == if raw / 16 <= 46340 then Defined(0) else Undefined
  {
    var k := raw / 16;
    if k <= 46340 {
      SquareBound(k, 46340);
      assert k * k / 4096 * 0 == 0;
    } else {
      Product(46341, 46341, k, k);
    }
  }

  lemma ZeroPressure(raw: u20)
    ensures Pressure32(ZEROS, 0, raw) == Defined(0)
  {
    assert -16000 * -16000 == 256000000;
  }

  lemma ZeroCalib()
    ensures DecodeCalib(NO_CALIB) == ZEROS
  {
    assert Lsb(0) == 0 && Msb(0) == 0;
    hide DecodeCalib, Lsb, Msb;
    assert EncodeCalib(ZEROS) == NO_CALIB;
    DecodeInvertsEncode(ZEROS);
  }

  // ---- how accurate a reading is

  /** The fine temperature of a frame, the rounded one that the pressure stage starts from. */
  function FrameTFine(c: Calib, f: Frame): s32
    requires TFine32(c, RawTemperature(f)).Defined?
  {
    TFine32(c, RawTemperature(f)).value
  }

  /** Ordinary trimming values and an ordinary frame, at 25 degrees, meet every condition of the lemmas here. */
  lemma ConditionsAreMet(c: Calib, f: Frame)
    requires c == Calib(27504, 26435, -996, 36477, -10685, 3024, 2855, 140, -7, 15500, -14600, 6000)
    requires f == [0x65, 0x5A, 0xC0, 0x7E, 0xDC, 0x80]
    ensures TemperatureSafe(c) && GainsCoverDrops(c) && PressureSafe(c)
    ensures IdealTFine(c, RawTemperature(f)) == 128000 && StageFits(c, 128000) && OperatingTFine(128000)
    ensures 3000.0 <= ExactQuotient(c, 128000, RawPressure(f)) <= 185000.0
  {
    hide ExactQuotient, TFine32, GainsCoverDrops;
    assert RawPressure(f) == 415148 && RawTemperature(f) == 519624;
    LargeT2IsMonotone(c);
    OperatingFits(c, 128000);
    QuotientAtReference(c, 415148);
  }

  /**
   Safe trimming values, a frame whose first steps fit: the reading is defined, and both parts are
   accurate, the pressure against the exact formula at the rounded fine temperature of the frame.
   */
  lemma SampleAccurate(c: Calib, f: Frame)
    requires TemperatureSafe(c) && PressureSafe(c) && StageFits(c, IdealTFine(c, RawTemperature(f)))
    requires 3000.0 <= ExactQuotient(c, IdealTFine(c, RawTemperature(f)), RawPressure(f)) <= 185000.0
    ensures TFine32(c, RawTemperature(f)).Defined? && Sample(c, f).Defined?
    ensures -1.0 < Sample(c, f).value.temperature as real - 100.0 * ExactTemperature(c, RawTemperature(f)) < 1.0
    ensures -12.0 <= Sample(c, f).value.pressure as real - ExactPressure(c, FrameTFine(c, f), RawPressure(f)) <= 24.0
  {
    hide TFine32, Temperature32, Pressure32, TemperatureSafe, PressureSafe, ExactQuotient, RawTemperature, RawPressure;
    hide StageFits, IdealTFine;
    var rawT := RawTemperature(f);
    SafeIsDefined(c, rawT);
    TemperatureAccurate(c, rawT);
    Pressure32Accurate(c, FrameTFine(c, f), RawPressure(f));
  }

  /**
   What `read_pressure` publishes of a defined reading, in hPa, is within 0.24 hPa of the exact
   formula, at the rounded fine temperature of the frame, if and only if the bracket behind it is
   not negative. The frame is not restricted, nor are the temperature's trimming values.
   */
  lemma PublishedIsAccurate(c: Calib, poll: Poll)
    requires PressureSafe(c) && Sample(c, Delivered(poll.first)).Defined?
    requires Judge(c, poll).Accept? && 90000 < Judge(c, poll).pressure < 110000
    ensures var f := Delivered(poll.first);
      var published := Judge(c, poll).pressure as real / 100.0;
      && TFine32(c, RawTemperature(f)).Defined?
      && 900.0 < published < 1100.0
      && (NetCounts(c, FrameTFine(c, f), RawPressure(f)) >= 0 <==>
          -0.24 <= published - ExactPressure(c, FrameTFine(c, f), RawPressure(f)) / 100.0 <= 0.24)
  {
    hide TFine32, Temperature32, Pressure32, PressureSafe, ExactPressure, RawTemperature, RawPressure, NetCounts;
    var f := Delivered(poll.first);
    PublishableIsAccurate(c, FrameTFine(c, f), RawPressure(f));
  }

  /** The pressure of a frame by the two `double` forms, one after the other, over exact rationals. */
  function DoublePressure(c: Calib, f: Frame): real {
    ExactPressure(c, DoubleTFine(c, RawTemperature(f)), RawPressure(f))
  }

  /** End to end: the reading against the `double` forms, the pressure from their own fine temperature. */
  lemma SampleMeetsDouble(c: Calib, f: Frame)
    requires TemperatureSafe(c) && PressureSafe(c) && StageFits(c, IdealTFine(c, RawTemperature(f)))
    requires 3000.0 <= ExactQuotient(c, IdealTFine(c, RawTemperature(f)), RawPressure(f)) <= 185000.0
    ensures Sample(c, f).Defined?
    ensures -1.0 < Sample(c, f).value.temperature as real - 100.0 * ExactTemperature(c, RawTemperature(f)) < 1.0
    ensures -19.0 < Sample(c, f).value.pressure as real - DoublePressure(c, f) < 31.0
  {
    StageInRange(c, IdealTFine(c, RawTemperature(f)));
    hide TFine32, Temperature32, Pressure32, TemperatureSafe, PressureSafe, ExactQuotient, RawTemperature, RawPressure;
    hide StageFits, IdealTFine, DoubleTFine, Sample, ExactPressure;
    var rawT := RawTemperature(f);
    SampleAccurate(c, f);
    SafeIsDefined(c, rawT);
    TFinesAgree(c, rawT);
    ExactPressureShift(c, IdealTFine(c, rawT), DoubleTFine(c, rawT), RawPressure(f));
  }

  /**
   End to end: a published value is within 0.31 hPa of what the `double` forms make of the frame if
   and only if the bracket behind it is not negative.
   */
  lemma PublishedMeetsDouble(c: Calib, poll: Poll)
    requires TemperatureSafe(c) && PressureSafe(c) && Sample(c, Delivered(poll.first)).Defined?
    requires Judge(c, poll).Accept? && 90000 < Judge(c, poll).pressure < 110000
    ensures var f := Delivered(poll.first);
      var published := Judge(c, poll).pressure as real / 100.0;
      NetCounts(c, IdealTFine(c, RawTemperature(f)), RawPressure(f)) >= 0 <==>
        -0.31 <= published - DoublePressure(c, f) / 100.0 <= 0.31
  {
    hide TFine32, Temperature32, Pressure32, PressureSafe, ExactPressure, RawTemperature, RawPressure, NetCounts;
    hide TemperatureSafe, IdealTFine, DoubleTFine, ExactQuotient;
    var f := Delivered(poll.first);
    var rawT, rawP := RawTemperature(f), RawPressure(f);
    SafeIsDefined(c, rawT);
    TFinesAgree(c, rawT);
    PublishableQuotient(c, IdealTFine(c, rawT), rawP);
    PublishableIsAccurate(c, IdealTFine(c, rawT), rawP);
    ExactPressureShift(c, IdealTFine(c, rawT), DoubleTFine(c, rawT), rawP);
  }

  lemma AcceptedPressure(c: Calib, poll: Poll, tFine: s32, p: u32)
    requires TemperatureSafe(c) && IdealTFine(c, RawTemperature(Delivered(poll.first))) == tFine
    requires Pressure32(c, tFine, RawPressure(Delivered(poll.first))) == Defined(p)
    requires p >= 75000 && (tFine * 5 + 128) / 256 != 0 && (tFine * 5 + 128) / 256 != 2323
    ensures Judge(c, poll) == Accept(p)
  {
    hide TFine32, Temperature32, Pressure32, TemperatureSafe, IdealTFine, RawTemperature, RawPressure;
    SafeIsDefined(c, RawTemperature(Delivered(poll.first)));
    TemperatureDefined(c, RawTemperature(Delivered(poll.first)));
  }

  /** Safe trimming values and a frame whose bracket of -262143 counts wraps and is published as 1088.12 hPa. */
  lemma WrappedBracketPublishes(c: Calib, poll: Poll)
    requires c == Calib(27504, 25600, 0, 46000, -12800, 0, 16384, 0, 0, 0, -32768, -32768)
    requires poll.first == Some([0xFF, 0xFF, 0xF0, 0x4B, 0x70, 0x00])
    ensures TemperatureSafe(c) && PressureSafe(c) && NetCounts(c, -204800, 0xF_FFFF) == -262143
    ensures Judge(c, poll) == Accept(108812)
  {
    hide TFine32, Temperature32, Pressure32, TemperatureSafe, IdealTFine, RawTemperature, RawPressure;
    hide Judge, NetCounts, ExactPressure;
    ColdFrame(Delivered(poll.first));
    WrappedBracket(c);
    ColdSensor(c);
    AcceptedPressure(c, poll, -204800, 108812);
  }

  lemma ColdFrame(f: Frame)
    requires f == [0xFF, 0xFF, 0xF0, 0x4B, 0x70, 0x00]
    ensures RawPressure(f) == 0xF_FFFF && RawTemperature(f) == 308992
  {
  }

  lemma ColdSensor(c: Calib)
    requires c.T1 == 27504 && c.T2 == 25600 && c.T3 == 0
    ensures TemperatureSafe(c) && IdealTFine(c, 308992) == -204800
  {
    var r := Reach(c);
    assert r == 38031 && r * r == 1446356961;
  }

  /**
   Off the trimming values of `PressureSafe` a bracket of 687211 counts can be published wrongly too:
   with a divisor of 1 the doubled quotient wraps.
   */
  lemma UnitDivisorPublishes(c: Calib, poll: Poll)
    requires c == Calib(27504, 26435, -996, 1, 0, 0, 0, 0, 0, 0, 0, 0)
    requires poll.first == Some([0x58, 0x39, 0x50, 0x7E, 0xDC, 0x80])
    ensures TemperatureSafe(c) && NetCounts(c, 128000, 361365) == 687211
    ensures Judge(c, poll) == Accept(101454) && ExactPressure(c, 128000, 361365) == 687211.0 * 6250.0
  {
    hide TFine32, Temperature32, Pressure32, TemperatureSafe, IdealTFine, RawTemperature, RawPressure;
    hide Judge, NetCounts, ExactPressure;
    WarmFrame(Delivered(poll.first));
    WarmSensor(c);
    UnitDivisor(c);
    AcceptedPressure(c, poll, 128000, 101454);
  }

  lemma WarmFrame(f: Frame)
    requires f == [0x58, 0x39, 0x50, 0x7E, 0xDC, 0x80]
    ensures RawPressure(f) == 361365 && RawTemperature(f) == 519624
  {
  }

  lemma WarmSensor(c: Calib)
    requires c.T1 == 27504 && c.T2 == 26435 && c.T3 == -996
    ensures TemperatureSafe(c) && IdealTFine(c, 519624) == 128000
  {
    var r := Reach(c);
    assert r == 38031 && r * r == 1446356961;
  }

  lemma UnitDivisor(c: Calib)
    requires c.P1 == 1 && c.P2 == c.P3 == c.P4 == c.P5 == c.P6 == c.P7 == c.P8 == c.P9 == 0
    ensures Pressure32(c, 128000, 361365) == Defined(101454) && NetCounts(c, 128000, 361365) == 687211
    ensures ExactPressure(c, 128000, 361365) == 687211.0 * 6250.0
  {
    assert U32(687211 * 3125) == 2147534375 && U32(2147534375 * 2) == 101454;
    assert U32(12681 * 12681) / 0x2000 == 19629;
    UnitDivisorExact(c);
  }

  lemma UnitDivisorExact(c: Calib)
    requires c.P1 == 1 && c.P2 == c.P3 == c.P4 == c.P7 == c.P8 == c.P9 == 0
    ensures ExactPressure(c, 128000, 361365) == 687211.0 * 6250.0
  {
    assert 128000 as real / 2.0 - 64000.0 == 0.0;
    QuotientAtReference(c, 361365);
    hide ExactQuotient;
  }

  // ---- the verdicts

  /**
   On safe sensors, in range and at a plausible temperature, the verdict follows the exact pressure: below
   74976 Pa the sensor is reset, from 75012 Pa on the reading is accepted.
   */
  lemma VerdictFollowsPressure(c: Calib, poll: Poll)
    requires TemperatureSafe(c) && PressureSafe(c)
    requires var f := Delivered(poll.first);
      StageFits(c, IdealTFine(c, RawTemperature(f)))
      && 3000.0 <= ExactQuotient(c, IdealTFine(c, RawTemperature(f)), RawPressure(f)) <= 185000.0
    ensures var f := Delivered(poll.first);
      var exact := ExactPressure(c, IdealTFine(c, RawTemperature(f)), RawPressure(f));
      && Sample(c, f).Defined?
      && (Sample(c, f).value.temperature != 0 && Sample(c, f).value.temperature != 2323 ==>
          (exact < 74976.0 ==> Judge(c, poll) == TooLow)
          && (exact >= 75012.0 ==> Judge(c, poll) == Accept(Sample(c, f).value.pressure)))
  {
    hide TFine32, Temperature32, Pressure32, TemperatureSafe, PressureSafe, ExactQuotient, RawTemperature, RawPressure;
    hide StageFits, IdealTFine, ExactPressure;
    var f := Delivered(poll.first);
    SafeIsDefined(c, RawTemperature(f));
    SampleAccurate(c, f);
    hide Sample;
    PressureInRange(c, IdealTFine(c, RawTemperature(f)), RawPressure(f));
  }

  lemma PressureInRange(c: Calib, tFine: s32, raw: u20)
    requires PressureSafe(c) && StageFits(c, tFine) && 3000.0 <= ExactQuotient(c, tFine, raw) <= 185000.0
    ensures ExactPressure(c, tFine, raw) >= 700.0
  {
    StageInRange(c, tFine);
    hide ExactQuotient, ExactScale, Corrected;
    QuotientOnScale(c, tFine, raw);
    CorrectedPositive(c, ExactQuotient(c, tFine, raw));
  }

  /** With P1 at 25000 and the other pressure values zero, four counts are a pascal at any temperature in range. */
  lemma PlainPressure(c: Calib, tFine: s32, raw: u20)
    requires c.P1 == 25000 && c.P2 == c.P3 == c.P4 == c.P5 == c.P6 == c.P7 == c.P8 == c.P9 == 0
    requires FineRange(tFine) && raw >= 0x10_0000 - 0xA_7C00
    ensures Pressure32(c, tFine, raw) == Defined((0x10_0000 - raw) / 4)
  {
    hide Offset32, Scale32, Corrected32, Numerator32, Divide32;
    PlainSteps(c, tFine);
    PlainDivision(raw);
    PlainCorrection(c, (0x10_0000 - raw) / 4);
  }

  lemma PlainDivision(raw: u20)
    requires raw >= 0x10_0000 - 0xA_7C00
    ensures Numerator32(raw, 0) == Defined((0x10_0000 - raw) * 3125)
    ensures Divide32((0x10_0000 - raw) * 3125, 25000) == (0x10_0000 - raw) / 4
  {
    var b: int := 0x10_0000 - raw;
    assert U32(b) == b && U32(b * 3125) == b * 3125 && U32(b * 3125 * 2) == b * 6250;
  }

  lemma PlainSteps(c: Calib, tFine: s32)
    requires c.P1 == 25000 && c.P2 == c.P3 == c.P4 == c.P5 == c.P6 == 0 && FineRange(tFine)
    ensures Offset32(c, tFine) == Defined(0) && Scale32(c, tFine) == Defined(25000)
  {
    QuarterSquareFits(tFine);
    var k := X1(tFine) / 4 * (X1(tFine) / 4);
    assert k / 0x800 * c.P6 == 0 && X1(tFine) * c.P5 == 0;
    assert c.P3 * (k / 0x2000) == 0 && c.P2 * X1(tFine) == 0;
  }

  lemma PlainCorrection(c: Calib, p: int)
    requires c.P7 == c.P8 == c.P9 == 0 && 0 <= p <= 414_000
    ensures Corrected32(c, p) == Defined(p)
  {
    hide Corrected32, SquareShifted, IdealCorrected, CorrectionFits;
    CorrectedDefinedExactly(c, p);
    ZeroCorrection(c, p);
  }

  lemma ZeroCorrection(c: Calib, p: int)
    requires c.P7 == c.P8 == c.P9 == 0
    ensures CorrectionFits(c, p) && IdealCorrected(c, p) == p
  {
    hide SquareShifted;
    assert c.P9 * SquareShifted(p) == 0 && p / 4 * c.P8 == 0;
  }

  lemma PlainSample(c: Calib, f: Frame, t: s32)
    requires TemperatureSafe(c) && c.P1 == 25000 && c.P2 == c.P3 == c.P4 == c.P5 == c.P6 == c.P7 == c.P8 == c.P9 == 0
    requires IdealTFine(c, RawTemperature(f)) == t && FineRange(t) && RawPressure(f) >= 0x10_0000 - 0xA_7C00
    ensures Sample(c, f) == Defined(Reading((0x10_0000 - RawPressure(f)) / 4, (t * 5 + 128) / 256))
  {
    hide TFine32, Temperature32, Pressure32, TemperatureSafe, IdealTFine, RawTemperature, RawPressure;
    SafeIsDefined(c, RawTemperature(f));
    TemperatureDefined(c, RawTemperature(f));
    PlainPressure(c, t, RawPressure(f));
  }

  /**
   One sensor and a frame for every verdict: 1000 hPa, 600 hPa, and 23.23 degrees with and without a stuck
   second look.
   */
  lemma EveryVerdict(c: Calib, high: Frame, low: Frame, odd: Frame, stuck: Frame, second: Option<Frame>, any: Reading)
    requires c == Calib(27504, 26435, -996, 25000, 0, 0, 0, 0, 0, 0, 0, 0)
    requires high == [0x9E, 0x58, 0x00, 0x7E, 0xDC, 0x80] && low == [0xC5, 0x68, 0x00, 0x7E, 0xDC, 0x80]
    requires odd == [0x9E, 0x58, 0x00, 0x7D, 0x7B, 0x00] && stuck == [0x80, 0, 0, 0x80, 0, 0]
    ensures Judge(c, Poll(Some(high), second, any)) == Accept(100000)
    ensures Judge(c, Poll(Some(low), second, any)) == TooLow
    ensures Judge(c, Poll(Some(odd), Some(stuck), any)) == Retry(true)
    ensures Judge(c, Poll(Some(odd), Some(high), any)) == Retry(false)
    ensures Judge(c, Poll(Some(odd), None, any)) == Retry(false)
  {
    hide TFine32, Temperature32, Pressure32, TemperatureSafe, IdealTFine, RawTemperature, RawPressure, Sample, Judge;
    WitnessFrames(high, low, odd, stuck);
    WarmSensor(c);
    OddSensor(c);
    FrameOfZeros();
    PlainSample(c, high, 128000);
    PlainSample(c, low, 128000);
    PlainSample(c, odd, 118924);
    JudgedAs(c, Poll(Some(high), second, any), 100000, 2500);
    JudgedAs(c, Poll(Some(low), second, any), 60000, 2500);
    JudgedAs(c, Poll(Some(odd), Some(stuck), any), 100000, 2323);
    JudgedAs(c, Poll(Some(odd), Some(high), any), 100000, 2323);
    JudgedAs(c, Poll(Some(odd), None, any), 100000, 2323);
  }

  lemma JudgedAs(c: Calib, poll: Poll, p: u32, t: s32)
    requires Sample(c, Delivered(poll.first)) == Defined(Reading(p, t))
    ensures t != 0 && t != 2323 && p >= 75000 ==> Judge(c, poll) == Accept(p)
    ensures t != 0 && t != 2323 && 0 < p < 75000 ==> Judge(c, poll) == TooLow
    ensures t == 2323 ==> var second := Delivered(poll.second);
      Judge(c, poll) == Retry(RawPressure(second) == 524288 && RawTemperature(second) == 524288)
  {
    hide Sample, RawPressure, RawTemperature;
  }

  lemma WitnessFrames(high: Frame, low: Frame, odd: Frame, stuck: Frame)
    requires high == [0x9E, 0x58, 0x00, 0x7E, 0xDC, 0x80] && low == [0xC5, 0x68, 0x00, 0x7E, 0xDC, 0x80]
    requires odd == [0x9E, 0x58, 0x00, 0x7D, 0x7B, 0x00] && stuck == [0x80, 0, 0, 0x80, 0, 0]
    ensures RawPressure(high) == RawPressure(odd) == 648576 && RawPressure(low) == 808576
    ensures RawTemperature(high) == RawTemperature(low) == 519624 && RawTemperature(odd) == 513968
    ensures RawPressure(stuck) == RawTemperature(stuck) == 524288
  {
  }

  lemma OddSensor(c: Calib)
    requires c.T1 == 27504 && c.T2 == 26435 && c.T3 == -996
    ensures IdealTFine(c, 513968) == 118924
  {
  }

  // ---- initialisation

  /**
   What an initialisation does to the trimming values: the delivered ones when one of the five reads shows
   an id from 0x56 to 0x58, all zero when they do not arrive, unchanged without such an id.
   */
  lemma InitExactly(c: Calib, ids: seq<Option<u8>>, reply: Option<CalibBytes>)
    requires |ids| == 5
    ensures CalibAfterInit(c, ids, reply) ==
      if !exists i | 0 <= i < 5 :: ids[i].Some? && 0x56 <= ids[i].value <= 0x58 then c
      else if reply.Some? then DecodeCalib(reply.value)
      else Calib(0, 0, 0, 0, 0, 0, 0, 0, 0, 0, 0, 0)
  {
    hide DecodeCalib;
    ZeroCalib();
    KnownExactly(ids);
  }

  lemma KnownExactly(ids: seq<Option<u8>>)
    ensures AnyShows(ids) <==> exists i | 0 <= i < |ids| :: ids[i].Some? && 0x56 <= ids[i].value <= 0x58
  {
    forall i | 0 <= i < |ids| ensures Shows(ids[i]) <==> ids[i].Some? && 0x56 <= ids[i].value <= 0x58 {
    }
  }

  /** The ends of that range, each as the last of the five reads, and the ids next to it. */
  lemma KnownIds(id: u8)
    ensures AnyShows([None, None, Some(0), None, Some(id)]) <==> 0x56 <= id <= 0x58
    ensures AnyShows([None, None, None, None, Some(0x56)]) && AnyShows([Some(0x58), None, None, None, None])
    ensures !AnyShows([Some(0x55), Some(0x59), Some(0x55), Some(0x59), None])
  {
    var ids := [None, None, Some(0), None, Some(id)];
    assert Shows(ids[4]) <==> 0x56 <= id <= 0x58;
    var low, high := [None, None, None, None, Some(0x56)], [Some(0x58), None, None, None, None];
    assert Shows(low[4]) && Shows(high[0]);
  }
}
