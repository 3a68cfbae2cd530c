/** The two integer forms of the pressure compensation, against each other. */
module PressureForms {
  import opened Machine
  import opened Calibration
  import opened PressureExact
  import Int32Form = PressureInt32
  import Int64Form = PressureInt64

  /** Both forms are defined, and the Q24.8 result divided by 256 is within 25 Pa of the 32-bit one. */
  lemma FormsAgree(c: Calib, tFine: s32, raw: u20)
    requires PressureSafe(c) && OperatingTFine(tFine) && 3000.0 <= ExactQuotient(c, tFine, raw) <= 185000.0
    ensures Int32Form.Pressure32(c, tFine, raw).Defined? && Int64Form.Pressure64(c, tFine, raw).Defined?
    ensures var p32, p64 := Int32Form.Pressure32(c, tFine, raw).value, Int64Form.Pressure64(c, tFine, raw).value;
      -25.0 < p32 as real - p64 as real / 256.0 < 25.0
  {
    hide *;
    Int32Form.OperatingFits(c, tFine);
    Int32Form.Pressure32Accurate(c, tFine, raw);
    Int64Form.Pressure64Accurate(c, tFine, raw);
    Int64Form.Pressure64NoWrap(c, tFine, raw);
  }
}
