/**
 `bmp280_compensate_pressure_int32`, the form that the application calls: that it does not
 overflow, and how far it is from the exact formula.
 */
module PressureInt32 {
  import opened Machine
  import opened Calibration
  import opened Bounds
  import opened PressureExact

  function Offset32(c: Calib, tFine: s32): Checked<s32> {
    var x1 :- Int32(tFine / 2 - 64000);
    var square :- Int32(x1 / 4 * (x1 / 4));
    var x2 :- Int32(square / 0x800 * c.P6);
    var b :- Int32(x1 * c.P5);
    var b' :- Int32(b * 2);
    var x2' :- Int32(x2 + b');
    var p4 :- Int32(c.P4 * 0x1_0000);
    Int32(x2' / 4 + p4)
  }

  function Scale32(c: Calib, tFine: s32): Checked<s32> {
    var x1 :- Int32(tFine / 2 - 64000);
    var square :- Int32(x1 / 4 * (x1 / 4));
    var a :- Int32(c.P3 * (square / 0x2000));
    var b :- Int32(c.P2 * x1);
    var y :- Int32(a / 8 + b / 2);
    var s :- Int32(32768 + y / 0x4_0000);
    var p :- Int32(s * c.P1);
    Defined(p / 0x8000)
  }

  /** The numerator is computed in `u32`, where a negative bracket wraps. */
  function Numerator32(raw: s32, x2: s32): Checked<u32> {
    var h :- Int32(0x10_0000 - raw);
    Defined(U32(U32(U32(h) - x2 / 0x1000) * 3125))
  }

  /** The division is split so that doubling the numerator does not wrap. */
  function Divide32(p: u32, x1: u32): u32
    requires x1 != 0
  {
    if p < 0x8000_0000 then U32(p * 2) / x1 else U32(p / x1 * 2)
  }

  function Corrected32(c: Calib, p: u32): Checked<u32> {
    var m := S32(U32(p / 8 * (p / 8)) / 0x2000);
    var a :- Int32(c.P9 * m);
    var b :- Int32(S32(p / 4) * c.P8);
    var s :- Int32(a / 0x1000 + b / 0x2000);
    var s' :- Int32(s + c.P7);
    var r :- Int32(S32(p) + s' / 16);
    Defined(U32(r))
  }

  function Pressure32(c: Calib, tFine: s32, raw: s32): Checked<u32> {
    var x2 :- Offset32(c, tFine);
    var x1 :- Scale32(c, tFine);
    var p :- Numerator32(raw, x2);
    if x1 == 0 then Defined(0) else Corrected32(c, Divide32(p, U32(x1)))
  }

  // ---- the same shifts and products over unbounded integers

  function IdealOffset(c: Calib, x1: int): int {
    (x1 / 4 * (x1 / 4) / 0x800 * c.P6 + x1 * c.P5 * 2) / 4 + c.P4 * 0x1_0000
  }

  function IdealScale(c: Calib, x1: int): int {
    (32768 + (c.P3 * (x1 / 4 * (x1 / 4) / 0x2000) / 8 + c.P2 * x1 / 2) / 0x4_0000) * c.P1 / 0x8000
  }

  function X1(tFine: int): int {
    tFine / 2 - 64000
  }

  /** The steps before the division do not overflow: a range of fine temperatures, and one product. */
  predicate StageFits(c: Calib, tFine: int) {
    FineRange(tFine) && InS32(c.P2 * X1(tFine))
  }

  lemma OperatingFits(c: Calib, tFine: int)
    requires PressureSafe(c) && OperatingTFine(tFine)
    ensures StageFits(c, tFine)
  {
    Product(c.P2, X1(tFine), 12800, 166400);
  }

  lemma QuarterSquareFits(tFine: int)
    ensures var k := X1(tFine) / 4;
      (InS32(k * k) <==> FineRange(tFine)) && (FineRange(tFine) ==> 0 <= k * k <= 0x7FFE_A810)
  {
    var k := X1(tFine) / 4;
    if FineRange(tFine) {
      SquareBound(k, 46340);
    } else if k > 0 {
      Product(46341, 46341, k, k);
    } else {
      Product(46341, 46341, -k, -k);
      assert -k * -k == k * k;
    }
  }

  lemma OffsetDefinedExactly(c: Calib, tFine: s32)
    requires PressureSafe(c)
    ensures Offset32(c, tFine) == if FineRange(tFine) then Defined(IdealOffset(c, X1(tFine))) else Undefined
    ensures FineRange(tFine) ==> -1_255_500_000 <= IdealOffset(c, X1(tFine)) <= 1_255_500_000
  {
    var x1 := X1(tFine);
    QuarterSquareFits(tFine);
    if FineRange(tFine) {
      Product(x1 / 4 * (x1 / 4) / 0x800, c.P6, 1_048_533, 512);
      Product(x1, c.P5, 185_363, 512);
    }
  }

  lemma ScaleDefinedExactly(c: Calib, tFine: s32)
    requires PressureSafe(c)
    ensures Scale32(c, tFine) == if StageFits(c, tFine) then Defined(IdealScale(c, X1(tFine))) else Undefined
  {
    var x1 := X1(tFine);
    QuarterSquareFits(tFine);
    if StageFits(c, tFine) {
      var f := x1 / 4 * (x1 / 4) / 0x2000;
      Product(c.P3, f, 8192, 262_133);
      ScaleSumFits(c.P3 * f, c.P2 * x1, c.P1);
    }
  }

  lemma ScaleSumFits(a: s32, b: s32, P1: u16)
    requires 25000 <= P1 <= 46000
    ensures InS32(a / 8 + b / 2) && InS32((32768 + (a / 8 + b / 2) / 0x4_0000) * P1)
  {
    Product(32768 + (a / 8 + b / 2) / 0x4_0000, P1, 38_000, 46000);
  }

  // ---- rounding

  /** The eighth of `d`, squared and truncated, against the square of `d`. */
  lemma SquareRounding(d: int, s: int, k: int)
    requires -370_728 <= d <= 370_728 && s == d / 8 && k > 0
    ensures -5_191_000 <= d * d - 64 * k * (s * s / k) <= 5_191_000 + 64 * k
  {
    var r := d % 8;
    assert d == 8 * s + r;
    assert d * d == 64 * (s * s) + 16 * (s * r) + r * r;
    Product(s, r, 46341, 7);
    SquareBound(r, 7);
    var q := s * s / k;
    assert s * s == k * q + s * s % k;
    assert 64 * k * q == 64 * (k * q);
  }

  lemma OffsetRounding(c: Calib, tFine: int)
    requires PressureSafe(c) && FineRange(tFine)
    ensures -2_800_000_000 <= OffsetScaled(c, tFine) - 0x8_0000 * IdealOffset(c, X1(tFine)) <= 2_800_000_000
  {
    var d, x1 := tFine - 128000, X1(tFine);
    assert x1 / 4 == d / 8 && 0 <= d - 2 * x1 <= 1;
    var f := x1 / 4 * (x1 / 4) / 0x800;
    SquareRounding(d, x1 / 4, 0x800);
    var e := d * d - 0x2_0000 * f;
    Product(e, c.P6, 5_323_000, 512);
    Product(d - 2 * x1, c.P5, 1, 512);
    assert d * d * c.P6 == 0x2_0000 * (f * c.P6) + e * c.P6 by { Expand(f, 0x2_0000, e, c.P6); }
    assert d * c.P5 == 2 * (x1 * c.P5) + (d - 2 * x1) * c.P5 by { Expand(x1, 2, d - 2 * x1, c.P5); }
    OffsetSum(d * d * c.P6, d * c.P5, f * c.P6, x1 * c.P5, e * c.P6, (d - 2 * x1) * c.P5, c.P4);
  }

  lemma Expand(x: int, k: int, e: int, t: int)
    ensures (k * x + e) * t == k * (x * t) + e * t
  {
  }

  lemma OffsetSum(a: int, b: int, a': int, b': int, ea: int, eb: int, P4: int)
    requires a == 0x2_0000 * a' + ea && -5_323_000 * 512 <= ea <= 5_323_000 * 512
    requires b == 2 * b' + eb && -512 <= eb <= 512
    ensures -2_800_000_000 <= a + b * 0x2_0000 + P4 * 0x8_0000_0000
      - 0x8_0000 * ((a' + b' * 2) / 4 + P4 * 0x1_0000) <= 2_800_000_000
  {
  }

  lemma ScaleRounding(c: Calib, tFine: int)
    requires PressureSafe(c) && FineRange(tFine)
    ensures -2_810_000_000_000_000 <= Denominator(c, tFine) - 0x80_0000_0000_0000 * IdealScale(c, X1(tFine))
    ensures Denominator(c, tFine) - 0x80_0000_0000_0000 * IdealScale(c, X1(tFine))
      <= 0x80_0000_0000_0000 + 1_160_000_000_000 * c.P1
  {
    var d, x1 := tFine - 128000, X1(tFine);
    assert x1 / 4 == d / 8 && 0 <= d - 2 * x1 <= 1;
    var f := x1 / 4 * (x1 / 4) / 0x2000;
    SquareRounding(d, x1 / 4, 0x2000);
    var e := d * d - 0x8_0000 * f;
    Product(e, c.P3, 5_716_000, 8192);
    Product(d - 2 * x1, c.P2, 1, 12800);
    var y := (c.P3 * f / 8 + c.P2 * x1 / 2) / 0x4_0000;
    assert d * d * c.P3 == 0x8_0000 * (c.P3 * f) + e * c.P3 by { Expand(f, 0x8_0000, e, c.P3); }
    assert d * c.P2 == 2 * (c.P2 * x1) + (d - 2 * x1) * c.P2 by { Expand(x1, 2, d - 2 * x1, c.P2); }
    var rest := ScaleScaled(c, tFine) - 0x100_0000_0000 * (32768 + y);
    ScaleSum(d * d * c.P3, d * c.P2, c.P3 * f, c.P2 * x1, e * c.P3, (d - 2 * x1) * c.P2);
    assert -61_000_000_000 <= rest <= 1_161_000_000_000;
    Between(rest, -61_000_000_000, 1_160_000_000_000, c.P1);
    assert ScaleScaled(c, tFine) * c.P1 == 0x100_0000_0000 * ((32768 + y) * c.P1) + rest * c.P1 by {
      Expand(32768 + y, 0x100_0000_0000, rest, c.P1);
    }
    ScaleTotal((32768 + y) * c.P1, rest * c.P1, c.P1);
  }

  lemma ScaleTotal(n: int, rest: int, P1: int)
    requires -61_000_000_000 * P1 <= rest <= 1_160_000_000_000 * P1 && P1 <= 46000
    ensures -2_810_000_000_000_000 <= 0x100_0000_0000 * n + rest - 0x80_0000_0000_0000 * (n / 0x8000)
      <= 0x80_0000_0000_0000 + 1_160_000_000_000 * P1
  {
  }

  lemma ScaleSum(a: int, b: int, a': int, b': int, ea: int, eb: int)
    requires a == 0x8_0000 * a' + ea && -5_716_000 * 8192 <= ea <= 5_716_000 * 8192
    requires b == 2 * b' + eb && -12800 <= eb <= 12800
    ensures -61_000_000_000 <= 0x80_0000_0000_0000 + a + b * 0x10_0000
      - 0x100_0000_0000 * (32768 + (a' / 8 + b' / 2) / 0x4_0000) <= 1_161_000_000_000
  {
  }

  /** The bracket of the numerator before it is converted to `u32`. */
  function Counts(raw: int, x2: int): int {
    0x10_0000 - raw - x2 / 0x1000
  }

  /** Counts of pressure left after the offset; the code multiplies them by 3125 in `u32`. */
  function NetCounts(c: Calib, tFine: int, raw: int): int {
    Counts(raw, IdealOffset(c, X1(tFine)))
  }

  lemma BracketRounding(raw: int, offset: int, x2: int)
    requires -2_800_000_000 <= offset - 0x8_0000 * x2 <= 2_800_000_000
    ensures -4_950_000_000 <= Bracket(raw, offset) - 0x8000_0000 * Counts(raw, x2) <= 2_800_000_000
  {
  }

  /**
   The split division is exact below the split; above it, exactly when the remainder is less than
   half the divisor, and one too small otherwise. Only a divisor of 1 makes it wrap.
   */
  lemma SplitDivision(p: u32, x: u32)
    requires x > 0
    ensures Divide32(p, x) == 2 * p / x <==> p < 0x8000_0000 || (x > 1 && 2 * (p % x) < x)
    ensures p >= 0x8000_0000 && x > 1 && 2 * (p % x) >= x ==> Divide32(p, x) == 2 * p / x - 1
    ensures p >= 0x8000_0000 && x == 1 ==> Divide32(p, x) == 2 * p - 0x1_0000_0000
  {
    DoubledQuotient(p, x);
    if x > 1 {
      HalfBound(p, x);
    }
  }

  lemma HalfBound(p: u32, x: u32)
    requires x > 1
    ensures 0 <= p / x * 2 <= p
  {
    assert p == x * (p / x) + p % x;
    Between(2, 2, x, p / x);
  }

  lemma DoubledQuotient(p: nat, x: int)
    requires x > 0
    ensures 2 * p / x == p / x * 2 + if 2 * (p % x) >= x then 1 else 0
  {
    var k, r := p / x, p % x;
    assert p == x * k + r;
    assert 2 * p == x * (2 * k) + 2 * r;
    assert x * (2 * k + 1) == x * (2 * k) + x;
    if 2 * r < x {
      QuotientIs(2 * p, x, 2 * k, 2 * r);
    } else {
      QuotientIs(2 * p, x, 2 * k + 1, 2 * r - x);
    }
  }

  lemma QuotientIs(n: int, x: int, k: int, r: int)
    requires x > 0 && n == x * k + r && 0 <= r < x
    ensures n / x == k
  {
    assert x * (n / x - k) == x * (n / x) - x * k;
    if n / x < k {
      Between(1, 1, k - n / x, x);
    } else if n / x > k {
      Between(1, 1, n / x - k, x);
    }
  }

  lemma SplitDivisionMonotone(p: u32, p': u32, x: u32)
    requires x > 1 && p <= p' && (p < 0x8000_0000 <==> p' < 0x8000_0000)
    ensures Divide32(p, x) <= Divide32(p', x)
  {
    HalfBound(p, x);
    HalfBound(p', x);
    QuotientMonotone(p, p', x);
    QuotientMonotone(2 * p, 2 * p', x);
  }

  lemma QuotientMonotone(p: nat, p': nat, x: int)
    requires x > 0 && p <= p'
    ensures p / x <= p' / x
  {
    assert x * (p / x - p' / x) == x * (p / x) - x * (p' / x);
    if p / x > p' / x {
      Between(1, 1, p / x - p' / x, x);
    }
  }

  lemma QuotientError32(q: real, p: real, x: real, w: real, n: real)
    requires 0.0 <= q <= 185000.0 && 20764.0 <= x
    requires -0.078 <= w - x <= 0.000087 * w
    requires q * w - 8150.0 <= n <= q * w + 14407.0
    requires p * x <= n < p * x + 2.0 * x
    ensures -3.2 < p - q < 16.9
  {
    var qx, qw, px := q * x, q * w, p * x;
    Ordered(q, w - x, 0.0000871 * x, qw - qx, 0.0000871 * qx);
    Ordered(q, -0.078, w - x, -0.078 * q, qw - qx);
    Ordered(x, q, 185000.0, qx, 185000.0 * x);
    Cancel(x, q - 3.2, p, qx - 3.2 * x, px);
    Cancel(x, p, q + 16.9, px, qx + 16.9 * x);
  }

  function IdealCorrected(c: Calib, p: int): int {
    IdealCorrectBy(p, c.P9 * SquareShifted(p), p / 4 * c.P8, c.P7)
  }

  function SquareShifted(p: int): int {
    p / 8 * (p / 8) / 0x2000
  }

  function IdealCorrectBy(p: int, square: int, linear: int, P7: int): int {
    p + (square / 0x1000 + linear / 0x2000 + P7) / 16
  }

  /** The two products of the correction fit. */
  predicate CorrectionFits(c: Calib, p: int) {
    InS32(c.P9 * SquareShifted(p)) && InS32(p / 4 * c.P8)
  }

  lemma CorrectedDefinedExactly(c: Calib, p: int)
    requires 0 <= p <= 414_000
    ensures Corrected32(c, p) == if CorrectionFits(c, p) then Defined(U32(IdealCorrected(c, p))) else Undefined
  {
    EighthSquaredFits(p);
  }

  lemma CorrectedDefined(c: Calib, p: int)
    requires 0 <= p <= 185_100
    ensures Corrected32(c, p) == Defined(U32(IdealCorrected(c, p)))
  {
    hide SquareShifted;
    CorrectedDefinedExactly(c, p);
    SquareOfEighth(p);
    SquareBound(p, 185_100);
    Product(c.P9, SquareShifted(p), 0x8000, 65500);
    Product(p / 4, c.P8, 46275, 0x8000);
  }

  lemma EighthSquaredFits(p: int)
    requires 0 <= p <= 414_000
    ensures S32(U32(p / 8 * (p / 8)) / 0x2000) == SquareShifted(p) && 0 <= SquareShifted(p)
  {
    SquareBound(p / 8, 51750);
  }

  lemma SquareOfEighth(p: int)
    requires 0 <= p <= 185_100
    ensures 0 <= p * p - 0x8_0000 * SquareShifted(p) <= 3_120_000
  {
    var e, r := p / 8, p % 8;
    assert p == 8 * e + r;
    assert p * p == 64 * (e * e) + 16 * (e * r) + r * r;
    Product(e, r, 23138, 7);
    SquareBound(r, 7);
    assert 0 <= e * r;
  }

  lemma SquareTermError(P9: s16, p: int, m: int, q: real)
    requires 0 <= p <= 185_100 && -3.2 <= p as real - q <= 16.9 && q >= 0.0
    requires 0 <= p * p - 0x8_0000 * m <= 3_120_000
    ensures -205127680000.0 <= 524288.0 * (P9 * m) as real - SquareTerm(P9, q) <= 205127680000.0
  {
    var rm, p9 := m as real, P9 as real;
    SquareShiftError(p, m, q);
    var gap := 524288.0 * rm - q * q;
    Within(p9, gap, 32768.0, 6260000.0, 524288.0 * (P9 * m) as real - SquareTerm(P9, q), 205127680000.0);
  }

  lemma SquareShiftError(p: int, m: int, q: real)
    requires 0 <= p <= 185_100 && -3.2 <= p as real - q <= 16.9 && q >= 0.0
    requires 0 <= p * p - 0x8_0000 * m <= 3_120_000
    ensures -6260000.0 <= 524288.0 * m as real - q * q <= 6260000.0
  {
    var pp := p * p;
    SquareCast(p);
    SquareGapTight(p as real, q);
    ShiftSum(pp, m, q * q);
  }

  lemma ShiftSum(pp: int, m: int, qq: real)
    requires -2000000.0 <= pp as real - qq <= 6260000.0 && 0 <= pp - 0x8_0000 * m <= 3_120_000
    ensures -6260000.0 <= 524288.0 * m as real - qq <= 6260000.0
  {
  }

  lemma SquareGapTight(p: real, q: real)
    requires 0.0 <= p <= 185100.0 && -3.2 <= p - q <= 16.9 && q >= 0.0
    ensures -2000000.0 <= p * p - q * q <= 6260000.0
  {
    var d, sum := p - q, p + q;
    var gap := d * sum;
    assert gap == p * p - q * q;
    Ordered(sum, d, 16.9, gap, 16.9 * sum);
    Ordered(sum, -3.2, d, -3.2 * sum, gap);
  }

  lemma LinearTermError(P8: s16, p: int, n: int, q: real)
    requires -3.2 <= p as real - q <= 16.9 && 0 <= p - 4 * n <= 3
    ensures -553779.2 <= 4.0 * (n * P8) as real - LinearTerm(P8, q) <= 553779.2
  {
    Within(P8 as real, 4.0 * n as real - q, 32768.0, 16.9, 4.0 * (n * P8) as real - LinearTerm(P8, q), 553779.2);
  }

  lemma CorrectionSum(p: int, a: int, e: int, P7: int, q: real, x1: real, x2: real)
    requires -3.2 <= p as real - q <= 16.9
    requires -205127680000.0 <= 524288.0 * a as real - x1 <= 205127680000.0
    requires -553779.2 <= 4.0 * e as real - x2 <= 553779.2
    ensures -12.0 <= IdealCorrectBy(p, a, e, P7) as real - CorrectBy(q, x1, x2, P7) <= 24.0
  {
  }

  lemma TermErrors(c: Calib, p: int, m: int, n: int, q: real)
    requires 0 <= p <= 185_100 && -3.2 <= p as real - q <= 16.9 && q >= 0.0
    requires 0 <= p * p - 0x8_0000 * m <= 3_120_000 && 0 <= p - 4 * n <= 3
    ensures -12.0 <= IdealCorrectBy(p, c.P9 * m, n * c.P8, c.P7) as real - Corrected(c, q) <= 24.0
  {
    SquareTermError(c.P9, p, m, q);
    LinearTermError(c.P8, p, n, q);
    CorrectionSum(p, c.P9 * m, n * c.P8, c.P7, q, SquareTerm(c.P9, q), LinearTerm(c.P8, q));
  }

  lemma CorrectionError(c: Calib, p: int, q: real)
    requires 0 <= p <= 185_100 && -3.2 <= p as real - q <= 16.9 && q >= 0.0
    ensures -12.0 <= IdealCorrected(c, p) as real - Corrected(c, q) <= 24.0
  {
    SquareOfEighth(p);
    TermErrors(c, p, SquareShifted(p), p / 4, q);
  }

  /** The integer scale against the exact one, `s / 2^55`, as a relative error. */
  lemma RelativeScale(s: int, x: int, scale: int, P1: int)
    requires 25000 <= P1 <= 46000 && s == scale * P1 && 29_927_000_000_000_000 <= scale <= 42_131_000_000_000_000
    requires -2_810_000_000_000_000 <= s - 0x80_0000_0000_0000 * x <= 0x80_0000_0000_0000 + 1_160_000_000_000 * P1
    ensures 20764 <= x <= 54000
    ensures var w := s as real / 36028797018963968.0;
      -0.078 <= w - x as real <= 0.000087 * w
  {
    Between(scale, 29_927_000_000_000_000, 42_131_000_000_000_000, P1);
  }

  lemma CountsFromBracket(q: real, s: int, bracket: int, b: int)
    requires q * s as real == bracket as real * 104857600000.0
    requires -4_950_000_000 <= bracket - 0x8000_0000 * b <= 2_800_000_000
    ensures var w := s as real / 36028797018963968.0;
      q * w - 8150.0 <= 6250.0 * b as real <= q * w + 14407.0
  {
    var w := s as real / 36028797018963968.0;
    assert q * w * 36028797018963968.0 == q * s as real;
  }

  lemma NumeratorDefined(raw: u20, x2: s32)
    requires 0 <= Counts(raw, x2) <= 1_374_000
    ensures Numerator32(raw, x2) == Defined(Counts(raw, x2) * 3125)
  {
    var h: int, b := 0x10_0000 - raw, Counts(raw, x2);
    assert U32(h) == h && U32(b) == b && U32(b * 3125) == b * 3125;
  }

  lemma DivideRounding(p: u32, x: u32)
    requires x > 1
    ensures x * Divide32(p, x) <= 2 * p < x * Divide32(p, x) + 2 * x
  {
    DivideCases(p, x);
    hide Divide32;
    DivFloor(p, x);
    DivFloor(2 * p, x);
    Doubling(x, p / x);
  }

  lemma DivideCases(p: u32, x: u32)
    requires x > 1
    ensures Divide32(p, x) == if p < 0x8000_0000 then 2 * p / x else p / x * 2
  {
    HalfBound(p, x);
  }

  lemma Doubling(x: int, k: int)
    ensures x * (k * 2) == 2 * (x * k)
  {
  }

  lemma DivideError(q: real, s: int, bracket: int, b: int, x: int, w: real)
    requires w == s as real / 36028797018963968.0 && 3000.0 <= q <= 185000.0
    requires q * s as real == bracket as real * 104857600000.0
    requires -4_950_000_000 <= bracket - 0x8000_0000 * b <= 2_800_000_000
    requires 20764 <= x <= 54000 && -0.078 <= w - x as real <= 0.000087 * w
    requires b <= 1_374_000
    ensures 0 <= b && -3.2 < Divide32(b * 3125, x) as real - q < 16.9
  {
    hide Divide32;
    CountsFromBracket(q, s, bracket, b);
    Ordered(w, 3000.0, q, 3000.0 * w, q * w);
    DivideRounding(b * 3125, x);
    DivideErrorAt(q, b, x, Divide32(b * 3125, x), w, x * Divide32(b * 3125, x));
  }

  lemma DivideErrorAt(q: real, b: int, x: int, p: int, w: real, xp: int)
    requires 0.0 <= q <= 185000.0 && 20764 <= x && -0.078 <= w - x as real <= 0.000087 * w
    requires q * w - 8150.0 <= 6250.0 * b as real <= q * w + 14407.0
    requires xp == x * p && xp <= 2 * (b * 3125) < xp + 2 * x
    ensures -3.2 < p as real - q < 16.9
  {
    assert xp as real == p as real * x as real;
    QuotientError32(q, p as real, x as real, w, 6250.0 * b as real);
  }

  lemma ScaleError(c: Calib, tFine: int)
    requires PressureSafe(c) && FineRange(tFine)
    ensures var w, x := Denominator(c, tFine) as real / 36028797018963968.0, IdealScale(c, X1(tFine));
      20764 <= x <= 54000 && -0.078 <= w - x as real <= 0.000087 * w
  {
    ScaledBounds(c, tFine);
    ScaleRounding(c, tFine);
    RelativeScale(Denominator(c, tFine), IdealScale(c, X1(tFine)), ScaleScaled(c, tFine), c.P1);
  }

  lemma CountsError(c: Calib, tFine: int, raw: u20)
    requires PressureSafe(c) && FineRange(tFine)
    ensures var b := Counts(raw, IdealOffset(c, X1(tFine)));
      -4_950_000_000 <= Bracket(raw, OffsetScaled(c, tFine)) - 0x8000_0000 * b <= 2_800_000_000 && b <= 1_374_000
  {
    ScaledBounds(c, tFine);
    OffsetRounding(c, tFine);
    BracketRounding(raw, OffsetScaled(c, tFine), IdealOffset(c, X1(tFine)));
  }

  /** The quotient of the 32-bit form, before its correction, is within 16.9 Pa of the exact one. */
  lemma QuotientAccurate(c: Calib, tFine: int, raw: u20)
    requires PressureSafe(c) && FineRange(tFine) && 3000.0 <= ExactQuotient(c, tFine, raw) <= 185000.0
    ensures var b, x := Counts(raw, IdealOffset(c, X1(tFine))), IdealScale(c, X1(tFine));
      && 0 <= b <= 1_374_000
      && 20764 <= x <= 54000
      && -3.2 < Divide32(b * 3125, x) as real - ExactQuotient(c, tFine, raw) < 16.9
  {
    hide *;
    QuotientOnScale(c, tFine, raw);
    CountsError(c, tFine, raw);
    ScaleError(c, tFine);
    DivideError(ExactQuotient(c, tFine, raw), Denominator(c, tFine), Bracket(raw, OffsetScaled(c, tFine)),
      Counts(raw, IdealOffset(c, X1(tFine))), IdealScale(c, X1(tFine)),
      Denominator(c, tFine) as real / 36028797018963968.0);
  }

  lemma FromQuotient(c: Calib, b: int, x: int, q: real)
    requires 3000.0 <= q <= 185000.0 && 0 <= b <= 1_374_000 && 20764 <= x <= 54000
    requires -3.2 < Divide32(b * 3125, x) as real - q < 16.9
    ensures var r := Corrected32(c, Divide32(b * 3125, x));
      r.Defined? && -12.0 <= r.value as real - Corrected(c, q) <= 24.0
  {
    hide Divide32, Corrected32, IdealCorrected, Corrected;
    var p := Divide32(b * 3125, x);
    CorrectedDefined(c, p);
    CorrectionError(c, p, q);
    CorrectedPositive(c, q);
  }

  /**
   Wherever the first steps do not overflow, and over quotients of 3000 to 185000 Pa: no later step
   overflows, and the result is at most 12 Pa below and 24 Pa above the exact pressure.
   */
  lemma Pressure32Accurate(c: Calib, tFine: s32, raw: u20)
    requires PressureSafe(c) && StageFits(c, tFine) && 3000.0 <= ExactQuotient(c, tFine, raw) <= 185000.0
    ensures Pressure32(c, tFine, raw).Defined?
    ensures -12.0 <= Pressure32(c, tFine, raw).value as real - ExactPressure(c, tFine, raw) <= 24.0
  {
    hide IdealOffset, IdealScale, Offset32, Scale32, Numerator32, Divide32, Corrected32, Counts;
    hide Corrected, ExactScale, ExactQuotient;
    OffsetDefinedExactly(c, tFine);
    ScaleDefinedExactly(c, tFine);
    QuotientOnScale(c, tFine, raw);
    QuotientAccurate(c, tFine, raw);
    NumeratorDefined(raw, IdealOffset(c, X1(tFine)));
    var b, x := Counts(raw, IdealOffset(c, X1(tFine))), IdealScale(c, X1(tFine));
    FromQuotient(c, b, x, ExactQuotient(c, tFine, raw));
  }
}
