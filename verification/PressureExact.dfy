/**
 The pressure formula over exact rationals: the specification of both integer forms, with the
 trimming values and temperatures for which they are proved to meet it.
 */
module PressureExact {
  import opened Machine
  import opened Calibration
  import opened Bounds

  // The steps of `bmp280_compensate_pressure_double`, over exact rationals.

  function ExactOffset(c: Calib, tFine: int): real {
    var x1 := tFine as real / 2.0 - 64000.0;
    var x2 := x1 * x1 * c.P6 as real / 32768.0;
    var x2' := x2 + x1 * c.P5 as real * 2.0;
    x2' / 4.0 + c.P4 as real * 65536.0
  }

  function ExactScale(c: Calib, tFine: int): real {
    var x1 := tFine as real / 2.0 - 64000.0;
    var x1' := (c.P3 as real * x1 * x1 / 524288.0 + c.P2 as real * x1) / 524288.0;
    (1.0 + x1' / 32768.0) * c.P1 as real
  }

  /** The pressure in Pa before its correction by `P7` to `P9`. */
  function ExactQuotient(c: Calib, tFine: int, raw: int): real {
    var scale := ExactScale(c, tFine);
    if scale == 0.0 then 0.0
    else (1048576.0 - raw as real - ExactOffset(c, tFine) / 4096.0) * 6250.0 / scale
  }

  function Corrected(c: Calib, q: real): real {
    CorrectBy(q, SquareTerm(c.P9, q), LinearTerm(c.P8, q), c.P7)
  }

  function SquareTerm(P9: int, q: real): real {
    P9 as real * q * q
  }

  function LinearTerm(P8: int, q: real): real {
    q * P8 as real
  }

  function CorrectBy(q: real, square: real, linear: real, P7: int): real {
    var x1 := square / 2147483648.0;
    var x2 := linear / 32768.0;
    q + (x1 + x2 + P7 as real) / 16.0
  }

  function ExactPressure(c: Calib, tFine: int, raw: int): real {
    if ExactScale(c, tFine) == 0.0 then 0.0 else Corrected(c, ExactQuotient(c, tFine, raw))
  }

  // ---- the same values on integer scales

  /** 2^19 times the offset. */
  function OffsetScaled(c: Calib, tFine: int): int {
    var d := tFine - 128000;
    d * d * c.P6 + d * c.P5 * 0x2_0000 + c.P4 * 0x8_0000_0000
  }

  /** 2^31 times the bracket that the quotient divides. */
  function Bracket(raw: int, offset: int): int {
    (0x10_0000 - raw) * 0x8000_0000 - offset
  }

  /** 2^55 times the scale divided by `P1`. */
  function ScaleScaled(c: Calib, tFine: int): int {
    var d := tFine - 128000;
    0x80_0000_0000_0000 + d * d * c.P3 + d * c.P2 * 0x10_0000
  }

  /** 2^55 times the scale. */
  function Denominator(c: Calib, tFine: int): int {
    ScaleScaled(c, tFine) * c.P1
  }

  lemma OffsetOnScale(c: Calib, tFine: int)
    ensures ExactOffset(c, tFine) * 524288.0 == OffsetScaled(c, tFine) as real
  {
    var d := tFine - 128000;
    var x1 := tFine as real / 2.0 - 64000.0;
    assert x1 == d as real / 2.0;
    assert x1 * x1 * c.P6 as real == (d * d * c.P6) as real / 4.0 by {
      assert (d * d) as real == d as real * d as real;
      assert (d * d * c.P6) as real == (d * d) as real * c.P6 as real;
    }
    assert x1 * c.P5 as real == (d * c.P5) as real / 2.0 by {
      assert (d * c.P5) as real == d as real * c.P5 as real;
    }
  }

  lemma ScaleOnScale(c: Calib, tFine: int)
    ensures ExactScale(c, tFine) * 36028797018963968.0 == Denominator(c, tFine) as real
  {
    var d := tFine - 128000;
    var x1 := tFine as real / 2.0 - 64000.0;
    assert x1 == d as real / 2.0;
    assert c.P3 as real * x1 * x1 == (d * d * c.P3) as real / 4.0 by {
      assert (d * d) as real == d as real * d as real;
      assert (d * d * c.P3) as real == (d * d) as real * c.P3 as real;
    }
    assert c.P2 as real * x1 == (d * c.P2) as real / 2.0 by {
      assert (d * c.P2) as real == d as real * c.P2 as real;
    }
    assert (ScaleScaled(c, tFine) * c.P1) as real == ScaleScaled(c, tFine) as real * c.P1 as real;
  }

  // ---- envelope

  /** Trimming values of the pressure stage; `P7` to `P9` are not restricted. */
  predicate PressureSafe(c: Calib) {
    && 25000 <= c.P1 <= 46000
    && -12800 <= c.P2 <= 12800
    && -8192 <= c.P3 <= 8192
    && -16384 <= c.P4 <= 16384
    && -512 <= c.P5 <= 512
    && -512 <= c.P6 <= 512
  }

  /** Fine temperatures of -40 to 85 degrees, the sensor's operating range. */
  predicate OperatingTFine(tFine: int) {
    -204800 <= tFine <= 435200
  }

  lemma OperatingDegrees(tFine: int)
    ensures OperatingTFine(tFine) <==> -40.0 <= tFine as real / 5120.0 <= 85.0
  {
  }

  /** Fine temperatures of about -47.4 to 97.4 degrees: those for which the 32-bit form does not overflow a square. */
  predicate FineRange(tFine: int) {
    -242720 <= tFine <= 498727
  }

  lemma ScaledBounds(c: Calib, tFine: int)
    requires PressureSafe(c) && FineRange(tFine)
    ensures -659_000_000_000_000 <= OffsetScaled(c, tFine) <= 659_000_000_000_000
    ensures 29_927_000_000_000_000 <= ScaleScaled(c, tFine) <= 42_131_000_000_000_000
  {
    BoundsWithin(c, tFine, 370727);
  }

  lemma OperatingBounds(c: Calib, tFine: int)
    requires PressureSafe(c) && OperatingTFine(tFine)
    ensures -642_000_000_000_000 <= OffsetScaled(c, tFine) <= 642_000_000_000_000
    ensures 30_654_000_000_000_000 <= ScaleScaled(c, tFine) <= 41_404_000_000_000_000
  {
    BoundsWithin(c, tFine, 332800);
  }

  lemma BoundsWithin(c: Calib, tFine: int, r: int)
    requires PressureSafe(c) && -r <= tFine - 128000 <= r
    ensures var bound := 512 * (r * r) + 512 * 0x2_0000 * r + 16384 * 0x8_0000_0000;
      -bound <= OffsetScaled(c, tFine) <= bound
    ensures var bound := 8192 * (r * r) + 12800 * 0x10_0000 * r;
      -bound <= ScaleScaled(c, tFine) - 0x80_0000_0000_0000 <= bound
  {
    var d := tFine - 128000;
    SquareBound(d, r);
    Product(d * d, c.P6, r * r, 512);
    Product(d, c.P5, r, 512);
    Product(d * d, c.P3, r * r, 8192);
    Product(d, c.P2, r, 12800);
  }

  lemma QuotientOnScale(c: Calib, tFine: int, raw: int)
    requires PressureSafe(c) && FineRange(tFine)
    ensures ExactScale(c, tFine) > 0.0
    ensures ExactQuotient(c, tFine, raw) * Denominator(c, tFine) as real ==
      Bracket(raw, OffsetScaled(c, tFine)) as real * 104857600000.0
  {
    ScaledBounds(c, tFine);
    QuotientOnPositiveScale(c, tFine, raw);
  }

  lemma QuotientOnPositiveScale(c: Calib, tFine: int, raw: int)
    requires ScaleScaled(c, tFine) > 0 && c.P1 > 0
    ensures ExactScale(c, tFine) > 0.0
    ensures ExactQuotient(c, tFine, raw) * Denominator(c, tFine) as real ==
      Bracket(raw, OffsetScaled(c, tFine)) as real * 104857600000.0
  {
    ScaleOnScale(c, tFine);
    OffsetOnScale(c, tFine);
    PositiveProduct(ScaleScaled(c, tFine), c.P1);
    hide ExactOffset, ExactScale, OffsetScaled, ScaleScaled;
    var scale, q := ExactScale(c, tFine), ExactQuotient(c, tFine, raw);
    var bracket := 1048576.0 - raw as real - ExactOffset(c, tFine) / 4096.0;
    assert bracket * 2147483648.0 == Bracket(raw, OffsetScaled(c, tFine)) as real;
    assert q * scale == bracket * 6250.0;
  }

  lemma PositiveProduct(x: int, y: int)
    requires x > 0 && y > 0
    ensures x * y > 0
  {
  }

  /** The correction keeps a pressure of 3000 Pa or more positive. */
  lemma CorrectedPositive(c: Calib, q: real)
    requires 3000.0 <= q <= 400000.0
    ensures 700.0 <= Corrected(c, q) <= 1000000.0
  {
    var p9, p8, qq := c.P9 as real, c.P8 as real, q * q;
    SquareBelowChord(q, qq);
    Within(p9, qq, 32768.0, qq, SquareTerm(c.P9, q), 32768.0 * qq);
    Within(q, p8, q, 32768.0, LinearTerm(c.P8, q), 32768.0 * q);
    PositiveSum(q, qq, SquareTerm(c.P9, q), LinearTerm(c.P8, q), c.P7);
  }

  lemma SquareBelowChord(q: real, qq: real)
    requires 3000.0 <= q <= 400000.0 && qq == q * q
    ensures 0.0 <= qq <= 403000.0 * q - 1200000000.0
  {
    Ordered(q - 3000.0, q, 400000.0, qq - 3000.0 * q, 400000.0 * q - 1200000000.0);
    Ordered(q, 0.0, q, 0.0, qq);
  }

  lemma PositiveSum(q: real, qq: real, x1: real, x2: real, P7: s16)
    requires 3000.0 <= q <= 400000.0 && 0.0 <= qq <= 403000.0 * q - 1200000000.0
    requires -32768.0 * qq <= x1 <= 32768.0 * qq && -32768.0 * q <= x2 <= 32768.0 * q
    ensures 700.0 <= CorrectBy(q, x1, x2, P7) <= 1000000.0
  {
  }

  /** At 25 degrees the temperature terms vanish. */
  lemma QuotientAtReference(c: Calib, raw: int)
    requires c.P1 > 0
    ensures ExactQuotient(c, 128000, raw) == (1048576.0 - raw as real - 16.0 * c.P4 as real) * 6250.0 / c.P1 as real
  {
    assert 128000 as real / 2.0 - 64000.0 == 0.0;
  }
}
