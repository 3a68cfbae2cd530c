/** How far the exact pressure moves when the fine temperature is off by the rounding of the temperature stage. */
module PressureShift {
  import opened Machine
  import opened Calibration
  import opened Bounds
  import opened PressureExact

  lemma SquareShift(d: int, h: int)
    requires -370_727 <= d <= 370_727 && -26 <= h <= 26
    ensures -19_278_480 <= (d + h) * (d + h) - d * d <= 19_278_480
  {
    assert (d + h) * (d + h) - d * d == h * (2 * d + h);
    Product(h, 2 * d + h, 26, 741_480);
  }

  lemma OffsetShift(c: Calib, t: int, t': int)
    requires PressureSafe(c) && FineRange(t) && -26 <= t' - t <= 26
    ensures -11_620_000_000 <= OffsetScaled(c, t') - OffsetScaled(c, t) <= 11_620_000_000
  {
    var d, d' := t - 128000, t' - 128000;
    SquareShift(d, d' - d);
    Product(d' * d' - d * d, c.P6, 19_278_480, 512);
    Product(d' - d, c.P5, 26, 512);
    assert (d' * d' - d * d) * c.P6 == d' * d' * c.P6 - d * d * c.P6;
    assert (d' - d) * c.P5 == d' * c.P5 - d * c.P5;
  }

  lemma ScaleShift(c: Calib, t: int, t': int)
    requires PressureSafe(c) && FineRange(t) && -26 <= t' - t <= 26
    ensures -507_000_000_000 <= ScaleScaled(c, t') - ScaleScaled(c, t) <= 507_000_000_000
    ensures ScaleScaled(c, t') >= 29_926_000_000_000_000
  {
    var d, d' := t - 128000, t' - 128000;
    SquareShift(d, d' - d);
    Product(d' * d' - d * d, c.P3, 19_278_480, 8192);
    Product(d' - d, c.P2, 26, 12800);
    assert (d' * d' - d * d) * c.P3 == d' * d' * c.P3 - d * d * c.P3;
    assert (d' - d) * c.P2 == d' * c.P2 - d * c.P2;
    ScaledBounds(c, t);
  }

  lemma DenominatorShift(c: Calib, t: int, t': int)
    requires PressureSafe(c) && FineRange(t) && -26 <= t' - t <= 26
    ensures -507_000_000_000 * c.P1 <= Denominator(c, t') - Denominator(c, t) <= 507_000_000_000 * c.P1
    ensures Denominator(c, t') >= 29_926_000_000_000_000 * c.P1
  {
    ScaleShift(c, t, t');
    hide ScaleScaled;
    var s, s' := ScaleScaled(c, t), ScaleScaled(c, t');
    Between(s' - s, -507_000_000_000, 507_000_000_000, c.P1);
    Scaled(29_926_000_000_000_000, s', c.P1);
    assert (s' - s) * c.P1 == s' * c.P1 - s * c.P1;
  }

  lemma QuotientMoves(q: real, q': real, s: real, s': real, qs: real, qs': real, P1: real)
    requires -185000.0 <= q <= 185000.0 && P1 >= 25000.0 && qs == q * s && qs' == q' * s'
    requires -507000000000.0 * P1 <= s' - s <= 507000000000.0 * P1 && s' >= 29926000000000000.0 * P1
    requires -1218500000000000000000.0 <= qs' - qs <= 1218500000000000000000.0
    ensures -4.8 < q' - q < 4.8
  {
    var turn, move := q * (s' - s), (q' - q) * s';
    Within(q, s' - s, 185000.0, 507000000000.0 * P1, turn, 93795000000000000.0 * P1);
    assert move == qs' - qs - turn;
    Cancel(s', q' - q, 4.8, move, 4.8 * s');
    Cancel(s', -4.8, q' - q, -4.8 * s', move);
  }

  lemma QuotientShift(c: Calib, t: int, t': int, raw: u20)
    requires PressureSafe(c) && FineRange(t) && -26 <= t' - t <= 26
    requires -185000.0 <= ExactQuotient(c, t, raw) <= 185000.0
    ensures ExactScale(c, t) > 0.0 && ExactScale(c, t') > 0.0
    ensures -4.8 < ExactQuotient(c, t', raw) - ExactQuotient(c, t, raw) < 4.8
  {
    hide ExactQuotient, ExactScale, ScaleScaled, OffsetScaled, Denominator, FineRange;
    ScaleShift(c, t, t');
    DenominatorShift(c, t, t');
    OffsetShift(c, t, t');
    QuotientOnScale(c, t, raw);
    QuotientOnPositiveScale(c, t', raw);
    var b, b' := Bracket(raw, OffsetScaled(c, t)), Bracket(raw, OffsetScaled(c, t'));
    hide PressureSafe;
    QuotientMoves(ExactQuotient(c, t, raw), ExactQuotient(c, t', raw), Denominator(c, t) as real,
      Denominator(c, t') as real, b as real * 104857600000.0, b' as real * 104857600000.0, c.P1 as real);
  }

  lemma CorrectedShift(c: Calib, q: real, q': real)
    requires -185000.0 <= q <= 185000.0 && -4.8 <= q' - q <= 4.8
    ensures -6.8 < Corrected(c, q') - Corrected(c, q) < 6.8
  {
    var p9, p8, gap := c.P9 as real, c.P8 as real, q' * q' - q * q;
    SquareGap(q', q, 4.8, 370005.0);
    var square := SquareTerm(c.P9, q') - SquareTerm(c.P9, q);
    assert square == p9 * gap;
    Within(p9, gap, 32768.0, 1776024.0, square, 58196754432.0);
    var linear := LinearTerm(c.P8, q') - LinearTerm(c.P8, q);
    assert linear == p8 * (q' - q);
    Within(p8, q' - q, 32768.0, 4.8, linear, 157286.4);
  }

  /** The exact pressures at two fine temperatures no further apart differ by less than 6.8 Pa. */
  lemma ExactPressureShift(c: Calib, t: int, t': int, raw: u20)
    requires PressureSafe(c) && FineRange(t) && -26 <= t' - t <= 26
    requires -185000.0 <= ExactQuotient(c, t, raw) <= 185000.0
    ensures -6.8 < ExactPressure(c, t', raw) - ExactPressure(c, t, raw) < 6.8
  {
    hide ExactQuotient, ExactScale, Corrected;
    QuotientShift(c, t, t', raw);
    CorrectedShift(c, ExactQuotient(c, t, raw), ExactQuotient(c, t', raw));
  }
}
