/**
 `bmp280_compensate_temperature_int32`: when it overflows, how far it is from the exact formula,
 and when it is monotone in the raw reading.
 */
module TemperatureInt32 {
  import opened Machine
  import opened Calibration
  import opened Bounds

  /** The fine temperature, in 1/5120 of a degree. */
  function TFine32(c: Calib, raw: s32): Checked<s32> {
    var twiceT1 :- Int32(c.T1 * 2);
    var a :- Int32(raw / 8 - twiceT1);
    var x1 :- Int32(a * c.T2);
    var k :- Int32(raw / 16 - c.T1);
    var square :- Int32(k * k);
    var x2 :- Int32(square / 4096 * c.T3);
    Int32(x1 / 2048 + x2 / 16384)
  }

  /** The temperature in hundredths of a degree. */
  function Temperature32(c: Calib, raw: s32): Checked<s32> {
    var tFine :- TFine32(c, raw);
    var x5 :- Int32(tFine * 5);
    var rounded :- Int32(x5 + 128);
    Defined(rounded / 256)
  }

  /** It is `t_fine * 5 / 256` rounded to the nearest integer, ties upwards. */
  lemma TemperatureRounds(c: Calib, raw: s32)
    requires Temperature32(c, raw).Defined?
    ensures TFine32(c, raw).Defined?
    ensures -128 < 256 * Temperature32(c, raw).value - 5 * TFine32(c, raw).value <= 128
  {
    hide TFine32;
  }

  /** The largest distance of `raw >> 4` from `T1`. */
  function Reach(c: Calib): nat {
    if 2 * c.T1 <= 0xFFFF then 0xFFFF - c.T1 else c.T1
  }

  /** The products of the temperature stage fit at the ends of the raw range. */
  predicate TemperatureSafe(c: Calib) {
    && InS32(-2 * c.T1 * c.T2)
    && InS32((0x1FFFF - 2 * c.T1) * c.T2)
    && InS32(Reach(c) * Reach(c))
    && InS32(Reach(c) * Reach(c) / 4096 * c.T3)
  }

  // ---- overflow

  function Linear(a: int, T2: int): int {
    a * T2 / 2048
  }

  function Quadratic(k: int, T3: int): int {
    k * k / 4096 * T3 / 16384
  }

  /** The same shifts and products over unbounded integers. */
  function IdealTFine(c: Calib, raw: int): int {
    Linear(raw / 8 - 2 * c.T1, c.T2) + Quadratic(raw / 16 - c.T1, c.T3)
  }

  lemma SafeIsDefined(c: Calib, raw: u20)
    requires TemperatureSafe(c)
    ensures TFine32(c, raw) == Defined(IdealTFine(c, raw))
    ensures -0x12_0000 <= IdealTFine(c, raw) <= 0x12_0000
  {
    LinearFits(c, raw);
    QuadraticFits(c, raw);
  }

  lemma DefinedIsIdeal(c: Calib, raw: u20)
    requires TFine32(c, raw).Defined?
    ensures TFine32(c, raw).value == IdealTFine(c, raw)
  {
  }

  lemma LinearFits(c: Calib, raw: u20)
    requires TemperatureSafe(c)
    ensures InS32((raw / 8 - 2 * c.T1) * c.T2)
  {
    Between(raw / 8 - 2 * c.T1, -2 * c.T1, 0x1FFFF - 2 * c.T1, c.T2);
  }

  lemma QuadraticFits(c: Calib, raw: u20)
    requires TemperatureSafe(c)
    ensures var k := raw / 16 - c.T1;
      InS32(k * k) && InS32(k * k / 4096 * c.T3)
  {
    var k, r := raw / 16 - c.T1, Reach(c);
    SquareBound(k, r);
    Between(k * k / 4096, 0, r * r / 4096, c.T3);
  }

  lemma TemperatureDefined(c: Calib, raw: u20)
    requires TemperatureSafe(c)
    ensures Temperature32(c, raw) == Defined((IdealTFine(c, raw) * 5 + 128) / 256)
  {
    SafeIsDefined(c, raw);
  }

  lemma DefinedAtZero(c: Calib)
    requires TFine32(c, 0).Defined?
    ensures InS32(-2 * c.T1 * c.T2)
    ensures 2 * c.T1 > 0xFFFF ==> InS32(Reach(c) * Reach(c)) && InS32(Reach(c) * Reach(c) / 4096 * c.T3)
  {
    assert (0 - c.T1) * (0 - c.T1) == c.T1 * c.T1;
  }

  lemma DefinedAtTop(c: Calib)
    requires TFine32(c, 0xF_FFFF).Defined?
    ensures InS32((0x1FFFF - 2 * c.T1) * c.T2)
    ensures 2 * c.T1 <= 0xFFFF ==> InS32(Reach(c) * Reach(c)) && InS32(Reach(c) * Reach(c) / 4096 * c.T3)
  {
  }

  /** No raw reading makes the computation overflow exactly when the trimming values are safe. */
  lemma DefinedExactlyWhenSafe(c: Calib)
    ensures (forall raw: u20 :: Temperature32(c, raw).Defined?) <==> TemperatureSafe(c)
  {
    if TemperatureSafe(c) {
      forall raw: u20 ensures Temperature32(c, raw).Defined? { TemperatureDefined(c, raw); }
    } else if Temperature32(c, 0).Defined? && Temperature32(c, 0xF_FFFF).Defined? {
      DefinedAtZero(c);
      DefinedAtTop(c);
      assert false;
    }
  }

  // ---- accuracy

  // The steps of `bmp280_compensate_temperature_double`, over exact rationals.

  function ExactTFine(c: Calib, raw: int): real {
    var x1 := (raw as real / 16384.0 - c.T1 as real / 1024.0) * c.T2 as real;
    var y := raw as real / 131072.0 - c.T1 as real / 8192.0;
    var x2 := y * y * c.T3 as real;
    x1 + x2
  }

  /** In degrees. */
  function ExactTemperature(c: Calib, raw: int): real {
    ExactTFine(c, raw) / 5120.0
  }

  /** C conversion of a `double` to an integer: it truncates towards zero. */
  function Truncated(x: real): int {
    if x >= 0.0 then x.Floor else -((-x).Floor)
  }

  /** The fine temperature that the `double` form leaves for the pressure stage. */
  function DoubleTFine(c: Calib, raw: int): int {
    Truncated(ExactTFine(c, raw))
  }

  lemma ExactTemperatureScaled(c: Calib, raw: int)
    ensures var u := raw - 16 * c.T1;
      ExactTemperature(c, raw) * 87960930222080.0 == (u * c.T2 * 0x10_0000 + u * u * c.T3) as real
  {
    var u := raw - 16 * c.T1;
    var ru, t2, t3 := u as real, c.T2 as real, c.T3 as real;
    assert raw as real / 16384.0 - c.T1 as real / 1024.0 == ru / 16384.0;
    assert raw as real / 131072.0 - c.T1 as real / 8192.0 == ru / 131072.0;
    assert (u * c.T2) as real == ru * t2;
    assert (u * u) as real == ru * ru;
    assert (u * u * c.T3) as real == (u * u) as real * t3;
  }

  lemma FloorFacts(raw: int, T1: int)
    ensures var u := raw - 16 * T1;
      0 <= u - 8 * (raw / 8 - 2 * T1) <= 7 && 0 <= u - 16 * (raw / 16 - T1) <= 15
  {
  }

  /** The linear term loses at most seven eighths of a count times `T2`, and one floor. */
  lemma LinearError(u: int, a: int, T2: int)
    requires 0 <= u - 8 * a <= 7 && -0x8000 <= T2 <= 0x8000
    ensures -229376 <= u * T2 - 16384 * (a * T2 / 2048) <= 229376 + 16384
  {
    var r := u - 8 * a;
    assert u * T2 == 8 * (a * T2) + r * T2;
    Between(T2, -0x8000, 0x8000, r);
  }

  lemma SquareError(u: int, k: int, r: int)
    requires 0 <= u - 16 * k <= 15 && -r <= k <= r
    ensures -480 * r <= u * u - 0x10_0000 * (k * k / 4096) <= 480 * r + 225 + 0x10_0000
  {
    var e := u - 16 * k;
    ExpandSquare(k, e);
    Between(k, -r, r, e);
    SquareBound(e, 15);
    Between(e, 0, 15, r);
    var kk, ke := k * k, k * e;
    assert kk == 4096 * (kk / 4096) + kk % 4096;
    assert u * u == 256 * kk + 32 * ke + e * e;
    assert -15 * r <= ke <= 15 * r;
  }

  lemma ExpandSquare(k: int, e: int)
    ensures (16 * k + e) * (16 * k + e) == 256 * (k * k) + 32 * (k * e) + e * e
  {
  }

  /** The square test limits `T3`, and `T3` times the reach, however the sensor is trimmed. */
  lemma SafeT3(c: Calib)
    requires TemperatureSafe(c)
    ensures -0x2000 <= c.T3 <= 0x2000
    ensures -0x1000_0000 <= Reach(c) * c.T3 <= 0x1000_0000
  {
    var r := Reach(c);
    var top := r * r / 4096;
    assert top >= 8 * r by { SquareAtLeast(r); }
    Between(0x4_0000, 0, top, c.T3);
    Between(8 * r, 0, top, c.T3);
    assert 8 * r * c.T3 == 8 * (r * c.T3);
  }

  lemma SquareAtLeast(r: int)
    requires r >= 0x8000
    ensures r * r >= 0x8000 * r
  {
  }

  lemma QuadraticError(u: int, k: int, r: int, T3: int)
    requires 0 <= u - 16 * k <= 15 && -r <= k <= r
    requires -0x2000 <= T3 <= 0x2000 && -0x1000_0000 <= r * T3 <= 0x1000_0000 && r >= 0
    ensures -155_000_000_000 <= u * u * T3 - 0x4_0000_0000 * (k * k / 4096 * T3 / 16384) <= 155_000_000_000
  {
    SquareError(u, k, r);
    var uu, m := u * u, k * k / 4096;
    var e := uu - 0x10_0000 * m;
    var bound := 480 * r + 225 + 0x10_0000;
    Between(e, -bound, bound, T3);
    assert bound * T3 == 480 * (r * T3) + 1048801 * T3 by { Distribute(r, T3, 480, 1048801); }
    assert uu * T3 == 0x10_0000 * (m * T3) + e * T3 by { Distribute(m, T3, 0x10_0000, e); }
    assert (-bound) * T3 == -(bound * T3);
  }

  lemma Distribute(x: int, t: int, f: int, y: int)
    ensures (f * x + y) * t == f * (x * t) + y * t
  {
  }

  lemma ErrorOnScale(c: Calib, raw: u20)
    requires TemperatureSafe(c)
    ensures var u := raw - 16 * c.T1;
      var exact := u * c.T2 * 0x10_0000 + u * u * c.T3;
      -430_000_000_000 < exact - 0x4_0000_0000 * IdealTFine(c, raw) < 430_000_000_000
  {
    var u, a, k := raw - 16 * c.T1, raw / 8 - 2 * c.T1, raw / 16 - c.T1;
    FloorFacts(raw, c.T1);
    LinearError(u, a, c.T2);
    SafeT3(c);
    QuadraticError(u, k, Reach(c), c.T3);
  }

  /** For every safe sensor and raw reading the result is within 0.01 degrees of the exact one. */
  lemma TemperatureAccurate(c: Calib, raw: u20)
    requires TemperatureSafe(c)
    ensures Temperature32(c, raw).Defined?
    ensures -1.0 < Temperature32(c, raw).value as real - 100.0 * ExactTemperature(c, raw) < 1.0
  {
    TemperatureDefined(c, raw);
    ErrorOnScale(c, raw);
    ExactTemperatureScaled(c, raw);
  }

  /** The two forms leave fine temperatures that differ by at most 26, half a hundredth of a degree. */
  lemma TFinesAgree(c: Calib, raw: u20)
    requires TemperatureSafe(c)
    ensures TFine32(c, raw).Defined? && -26 <= DoubleTFine(c, raw) - TFine32(c, raw).value <= 26
  {
    SafeIsDefined(c, raw);
    ErrorOnScale(c, raw);
    ExactTemperatureScaled(c, raw);
    hide TFine32, IdealTFine, ExactTFine;
    TruncatedClose(ExactTFine(c, raw));
  }

  lemma TruncatedClose(x: real)
    ensures -1.0 < Truncated(x) as real - x < 1.0
    ensures x >= 0.0 ==> 0.0 <= Truncated(x) as real <= x
    ensures x < 0.0 ==> x <= Truncated(x) as real <= 0.0
  {
  }

  // ---- monotonicity

  function Abs(x: int): nat {
    if x < 0 then -x else x
  }

  /** What the quadratic term can lose when `raw >> 4` moves on by one. */
  function Loss(reach: nat, T3: int): nat
    ensures Loss(reach, T3) >= 1
  {
    (2 * reach / 4096 + 1) * Abs(T3) / 16384 + 1
  }

  function StepLoss(c: Calib): nat {
    Loss(Reach(c), c.T3)
  }

  lemma QuadraticStep(k: int, k': int, r: nat, T3: int)
    requires 0 <= r + k && k < r && k' == k + 1
    ensures Quadratic(k', T3) >= Quadratic(k, T3) - Loss(r, T3)
  {
    assert k' * k' == k * k + 2 * k + 1;
    var m, m', d := k * k / 4096, k' * k' / 4096, 2 * r / 4096 + 1;
    ShiftedGap(m, m', d, T3);
  }

  lemma ShiftedGap(m: int, m': int, d: int, t: int)
    requires -d <= m' - m <= d
    ensures m' * t / 16384 >= m * t / 16384 - (d * Abs(t) / 16384 + 1)
  {
    Product(m - m', t, d, Abs(t));
    assert (m - m') * t == m * t - m' * t;
  }

  lemma LinearStep(a: int, a': int, T2: int)
    requires T2 >= 0 && a <= a'
    ensures Linear(a', T2) >= Linear(a, T2)
    ensures a' == a + 1 ==> Linear(a', T2) >= Linear(a, T2) + T2 / 2048
  {
    var x, x' := a * T2, a' * T2;
    assert x <= x' by { Between(a, a, a', T2); }
    assert (a + 1) * T2 == x + T2;
  }

  /** What the linear term gains when `raw >> 4` moves on from `j`, and what the quadratic term loses. */
  function Gain(c: Calib, j: int): int {
    Linear(2 * j + 2 - 2 * c.T1, c.T2) - Linear(2 * j + 1 - 2 * c.T1, c.T2)
  }

  function Drop(c: Calib, j: int): int {
    Quadratic(j - c.T1, c.T3) - Quadratic(j + 1 - c.T1, c.T3)
  }

  predicate GainsCoverDrops(c: Calib) {
    c.T2 >= 0 && forall j: nat | j < 0xFFFF :: Gain(c, j) >= Drop(c, j)
  }

  lemma BoundaryStep(c: Calib, j: int)
    ensures IdealTFine(c, 16 * j + 16) - IdealTFine(c, 16 * j + 15) == Gain(c, j) - Drop(c, j)
  {
    hide Linear, Quadratic;
    assert (16 * j + 16) / 8 == 2 * j + 2 && (16 * j + 15) / 8 == 2 * j + 1;
    assert (16 * j + 16) / 16 == j + 1 && (16 * j + 15) / 16 == j;
  }

  lemma TFineStep(c: Calib, raw: u20)
    requires GainsCoverDrops(c) && raw < 0xF_FFFF
    ensures IdealTFine(c, raw) <= IdealTFine(c, raw + 1)
  {
    hide Linear, Quadratic, Gain, Drop;
    var j := raw / 16;
    if raw == 16 * j + 15 {
      BoundaryStep(c, j);
    } else {
      LinearStep(raw / 8 - 2 * c.T1, (raw + 1) / 8 - 2 * c.T1, c.T2);
    }
  }

  lemma {:induction false} TFineMonotone(c: Calib, lo: u20, hi: u20)
    requires GainsCoverDrops(c) && lo <= hi
    ensures IdealTFine(c, lo) <= IdealTFine(c, hi)
    decreases hi - lo
  {
    if lo < hi {
      TFineStep(c, lo);
      TFineMonotone(c, lo + 1, hi);
    }
  }

  /** If every gain covers its drop, neither result falls as the raw reading rises. */
  lemma TemperatureMonotone(c: Calib, lo: u20, hi: u20)
    requires TemperatureSafe(c) && GainsCoverDrops(c) && lo <= hi
    ensures TFine32(c, lo).Defined? && TFine32(c, hi).Defined?
    ensures TFine32(c, lo).value <= TFine32(c, hi).value
    ensures Temperature32(c, lo).Defined? && Temperature32(c, hi).Defined?
    ensures Temperature32(c, lo).value <= Temperature32(c, hi).value
  {
    SafeIsDefined(c, lo);
    SafeIsDefined(c, hi);
    TFineMonotone(c, lo, hi);
  }

  predicate Rises(lo: Checked<s32>, hi: Checked<s32>) {
    lo.Defined? && hi.Defined? && lo.value <= hi.value
  }

  /** On which of all sensors `t_fine` never falls: those that neither overflow nor lose more than they gain. */
  lemma TFineMonotoneExactly(c: Calib)
    ensures (forall lo: u20, hi: u20 | lo <= hi :: Rises(TFine32(c, lo), TFine32(c, hi)))
      <==> TemperatureSafe(c) && GainsCoverDrops(c)
  {
    hide TFine32;
    if TemperatureSafe(c) && GainsCoverDrops(c) {
      forall lo: u20, hi: u20 | lo <= hi ensures Rises(TFine32(c, lo), TFine32(c, hi)) {
        TemperatureMonotone(c, lo, hi);
      }
    } else if forall lo: u20, hi: u20 | lo <= hi :: Rises(TFine32(c, lo), TFine32(c, hi)) {
      assert Rises(TFine32(c, 0), TFine32(c, 0xF_FFFF));
      DefinedAtZero(c);
      DefinedAtTop(c);
      FallsSomewhere(c);
      assert false;
    }
  }

  /** A negative `T2` falls at the middle of the range, an uncovered drop at its boundary of `raw >> 4`. */
  lemma FallsSomewhere(c: Calib)
    requires TemperatureSafe(c) && !GainsCoverDrops(c)
    ensures exists lo: u20, hi: u20 | lo <= hi :: !Rises(TFine32(c, lo), TFine32(c, hi))
  {
    hide TFine32, Gain, Drop, IdealTFine;
    var lo: u20, hi: u20;
    if c.T2 < 0 {
      lo, hi := 16 * c.T1, 16 * c.T1 + 8;
      MiddleFalls(c);
    } else {
      var j: nat :| j < 0xFFFF && Gain(c, j) < Drop(c, j);
      lo, hi := 16 * j + 15, 16 * j + 16;
      BoundaryStep(c, j);
    }
    SafeIsDefined(c, lo);
    SafeIsDefined(c, hi);
    assert !Rises(TFine32(c, lo), TFine32(c, hi));
  }

  lemma MiddleFalls(c: Calib)
    requires c.T2 < 0
    ensures IdealTFine(c, 16 * c.T1 + 8) < IdealTFine(c, 16 * c.T1)
  {
    assert (16 * c.T1 + 8) / 8 == 2 * c.T1 + 1 && (16 * c.T1 + 8) / 16 == c.T1;
    assert Linear(1, c.T2) < 0 && Linear(0, c.T2) == 0;
  }

  // ---- monotonicity of the returned temperature

  function Hundredths(tFine: int): int {
    (tFine * 5 + 128) / 256
  }

  /** The rounding hides drops of `t_fine`; what is left is one test for each step of `raw >> 3`. */
  predicate BlocksRise(c: Calib) {
    forall i: nat | i < 0x1_FFFF :: Hundredths(BlockTFine(c, i)) <= Hundredths(BlockTFine(c, i + 1))
  }

  /** The fine temperature of the eight readings with `raw >> 3 == i`. */
  function BlockTFine(c: Calib, i: int): int {
    Linear(i - 2 * c.T1, c.T2) + Quadratic(i / 2 - c.T1, c.T3)
  }

  lemma TemperatureOfBlock(c: Calib, raw: u20)
    requires TemperatureSafe(c)
    ensures Temperature32(c, raw) == Defined(Hundredths(BlockTFine(c, raw / 8)))
  {
    TemperatureDefined(c, raw);
    assert raw / 8 / 2 == raw / 16;
  }

  lemma {:induction false} BlocksMonotone(c: Calib, i: nat, i': nat)
    requires BlocksRise(c) && i <= i' <= 0x1_FFFF
    ensures Hundredths(BlockTFine(c, i)) <= Hundredths(BlockTFine(c, i'))
    decreases i' - i
  {
    hide BlockTFine, Hundredths;
    if i < i' {
      BlocksMonotone(c, i + 1, i');
    }
  }

  lemma BlocksFall(c: Calib)
    requires TemperatureSafe(c) && !BlocksRise(c)
    ensures exists lo: u20, hi: u20 | lo <= hi :: !Rises(Temperature32(c, lo), Temperature32(c, hi))
  {
    hide TemperatureSafe, Temperature32, BlockTFine, Hundredths;
    var i: nat :| i < 0x1_FFFF && Hundredths(BlockTFine(c, i)) > Hundredths(BlockTFine(c, i + 1));
    var lo: u20, hi: u20 := 8 * i, 8 * i + 8;
    assert lo / 8 == i && hi / 8 == i + 1;
    TemperatureOfBlock(c, lo);
    TemperatureOfBlock(c, hi);
    assert !Rises(Temperature32(c, lo), Temperature32(c, hi));
  }

  /** On which of all sensors the returned temperature never falls. */
  lemma TemperatureMonotoneExactly(c: Calib)
    ensures (forall lo: u20, hi: u20 | lo <= hi :: Rises(Temperature32(c, lo), Temperature32(c, hi)))
      <==> TemperatureSafe(c) && BlocksRise(c)
  {
    hide TemperatureSafe, Temperature32, BlocksRise, BlockTFine, Hundredths;
    if !TemperatureSafe(c) {
      DefinedExactlyWhenSafe(c);
      var raw: u20 :| !Temperature32(c, raw).Defined?;
      assert !Rises(Temperature32(c, raw), Temperature32(c, raw));
    } else if BlocksRise(c) {
      forall lo: u20, hi: u20 | lo <= hi ensures Rises(Temperature32(c, lo), Temperature32(c, hi)) {
        TemperatureOfBlock(c, lo);
        TemperatureOfBlock(c, hi);
        BlocksMonotone(c, lo / 8, hi / 8);
      }
    } else {
      BlocksFall(c);
    }
  }

  /** With a `T2` that is not negative a block with an even number never starts lower, so half of the tests remain. */
  lemma BlocksRiseAtBoundaries(c: Calib)
    requires c.T2 >= 0
    ensures BlocksRise(c) <==> forall j: nat | j < 0xFFFF ::
      Hundredths(BlockTFine(c, 2 * j + 1)) <= Hundredths(BlockTFine(c, 2 * j + 2))
  {
    hide Hundredths, BlockTFine;
    if forall j: nat | j < 0xFFFF :: Hundredths(BlockTFine(c, 2 * j + 1)) <= Hundredths(BlockTFine(c, 2 * j + 2)) {
      forall i: nat | i < 0x1_FFFF ensures Hundredths(BlockTFine(c, i)) <= Hundredths(BlockTFine(c, i + 1)) {
        var j := i / 2;
        if i == 2 * j {
          WithinBoundaries(c, j);
        } else {
          assert i == 2 * j + 1 && i + 1 == 2 * j + 2;
        }
      }
    } else {
      var j: nat :| j < 0xFFFF && Hundredths(BlockTFine(c, 2 * j + 1)) > Hundredths(BlockTFine(c, 2 * j + 2));
      var i := 2 * j + 1;
      assert i + 1 == 2 * j + 2;
    }
  }

  lemma WithinBoundaries(c: Calib, j: nat)
    requires c.T2 >= 0
    ensures Hundredths(BlockTFine(c, 2 * j)) <= Hundredths(BlockTFine(c, 2 * j + 1))
  {
    assert 2 * j / 2 == j && (2 * j + 1) / 2 == j;
    LinearStep(2 * j - 2 * c.T1, 2 * j + 1 - 2 * c.T1, c.T2);
    hide Linear, Quadratic;
  }

  /** A gain that covers the largest drop covers them all. */
  lemma LossCoversDrops(c: Calib)
    requires c.T2 / 2048 >= StepLoss(c)
    ensures GainsCoverDrops(c)
  {
    forall j: nat | j < 0xFFFF ensures Gain(c, j) >= Drop(c, j) {
      hide Linear, Quadratic, Loss;
      LinearStep(2 * j + 1 - 2 * c.T1, 2 * j + 2 - 2 * c.T1, c.T2);
      QuadraticStep(j - c.T1, j + 1 - c.T1, Reach(c), c.T3);
    }
  }

  /**
   In plain numbers: a `T2` of 18432 or more suffices for every sensor, one of 12288 or more when
   `T3` lies between -4096 and 4096.
   */
  lemma LargeT2IsMonotone(c: Calib)
    requires TemperatureSafe(c)
    requires c.T2 >= 18432 || (c.T2 >= 12288 && -4096 <= c.T3 <= 4096)
    ensures GainsCoverDrops(c)
  {
    SafeT3(c);
    hide Loss, GainsCoverDrops;
    LossBound(Reach(c), c.T3);
    assert Reach(c) <= 46340 by { SquareExceeds(Reach(c)); }
    LossCoversDrops(c);
  }

  lemma SquareExceeds(r: nat)
    ensures r > 46340 ==> r * r > 0x7FFF_FFFF
  {
    if r > 46340 {
      Between(r, 46341, r, r);
    }
  }

  lemma LossBound(r: nat, T3: int)
    requires -0x2000 <= T3 <= 0x2000 && -0x1000_0000 <= r * T3 <= 0x1000_0000
    ensures Loss(r, T3) <= 9
    ensures r <= 46340 && -4096 <= T3 <= 4096 ==> Loss(r, T3) <= 6
  {
    var t, d := Abs(T3), 2 * r / 4096;
    AbsProduct(r, T3);
    LossProduct(r, t, d);
    assert (d + 1) * t == d * t + t;
  }

  lemma AbsProduct(r: nat, T3: int)
    requires -0x1000_0000 <= r * T3 <= 0x1000_0000
    ensures r * Abs(T3) <= 0x1000_0000
  {
    assert r * -T3 == -(r * T3);
  }

  lemma LossProduct(r: nat, t: nat, d: nat)
    requires d == 2 * r / 4096 && r * t <= 0x1000_0000
    ensures d * t <= 0x2_0000
    ensures r <= 46340 ==> d * t <= 22 * t
  {
    Scaled(2048 * d, r, t);
    assert 2048 * d * t == 2048 * (d * t);
    if r <= 46340 {
      Scaled(d, 22, t);
    }
  }

  /** A safe sensor with a small `T2`: one count up, and `t_fine` drops by 7. */
  lemma SmallT2CanFall(c: Calib)
    requires c.T1 == 32768 && c.T2 == 2048 && c.T3 == -8192
    ensures TemperatureSafe(c)
    ensures TFine32(c, 0xF_FFEF).Defined? && TFine32(c, 0xF_FFF0).Defined?
    ensures TFine32(c, 0xF_FFF0).value == TFine32(c, 0xF_FFEF).value - 7
  {
    assert Reach(c) * Reach(c) == 0x4000_0000;
    FallingValues();
    hide Linear, Quadratic, TFine32;
    SafeIsDefined(c, 0xF_FFEF);
    SafeIsDefined(c, 0xF_FFF0);
  }

  lemma FallingValues()
    ensures Linear(65533, 2048) == 65533 && Linear(65534, 2048) == 65534
    ensures Quadratic(32766, -8192) == -131056 && Quadratic(32767, -8192) == -131064
  {
  }
}
