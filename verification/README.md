# Air monitor drivers: verified model

A Dafny model of the three drivers of the ESP32 air monitor whose code decides anything: the
BMP280 pressure sensor's fixed-point compensation and register handling
(`lib/bosch_bmp280/bosch_bmp280.c`), the loop that reads a pressure worth publishing
(`lib/pressure/pressure.c`), and the CO2 sensor's frame check and loop (`lib/co2/co2.c`).
`dafny verify dfyconfig.toml` checks the whole project.

## What is proved

**Arithmetic.** The driver holds one formula in three renderings: 32-bit, 64-bit (Q24.8) and
`double`. The third, over exact rationals, is the specification of the other two.

- *Temperature.* No step overflows on any of the 2^20 raw readings exactly when four products fit, a test
  on the trimming values alone (`TemperatureSafe`). For every sensor that passes, the result is within
  0.01 degrees of the exact one. Over all sensors, `t_fine` never falls as the raw reading rises **if and
  only if** the sensor passes, `T2` is not negative, and at each of the 65535 steps of `raw >> 4` the
  linear gain covers the quadratic drop; a `T2` of 18432 achieves that on every sensor that passes, and
  `SmallT2CanFall` is a sensor that does not. The returned temperature, whose rounding hides small drops,
  has its own exact test, at the same 65535 steps when `T2` is not negative.
- *64-bit pressure.* For every operating temperature and every `P1` from 7200 on, whatever `P2` to
  `P9` are, no step overflows on any raw reading exactly when three products fit. On the trimming
  values of `PressureSafe`, for every raw reading, the result is within 1/8 Pa of the exact one **if and only
  if** the value converted to `u32` is not negative (`NegativePressureWraps` is a reading where it is negative), and
  from 3000 to 220000 Pa it falls strictly with every raw count, although its correction term jumps.
- *32-bit pressure*, the form the application calls. On `PressureSafe` and over every fine temperature
  whatever, no step overflows on any raw reading **if and only if** the fine temperature lies in
  -242720 to 498727 (about -47.4 to 97.4 degrees), one product fits, and the two products of the correction
  fit at one reading, the one with the largest quotient. Wherever the first steps fit, and from 3000 to
  185000 Pa, the result lies between 12 Pa below and 24 Pa above the exact one, and no division is by zero.
  There it does not always fall as the raw count rises, but never rises by more than 3 Pa, and
  `RisesByThree` is a sensor where one count more does raise it by 3.
- *End to end.* On sensors safe for both stages, wherever the first steps fit and from 3000 to 185000 Pa, the
  reading is within 0.01 degrees, and between 19 Pa below and 31 Pa above, of the two `double` forms one after
  the other, the pressure from their own fine temperature (`SampleMeetsDouble`).
- *Failed transfers.* A failed transfer is computed with as six zero bytes. On every ordinary temperature
  trimming those lie far below that range, and the computation overflows (`FailedTransferOverflows`);
  `SampleDefinedExactly` is the exact condition for any frame.
- *Published values.* The 32-bit form has no guard against a bracket below zero, which wraps in
  `u32` and can come out as an ordinary pressure (`WrappedBracketPublishes`: a frame that is accepted as
  1088.12 hPa from a bracket of -262143 counts). On the trimming values of `PressureSafe`, a value that
  `read_pressure` publishes of a reading that does not overflow is within 0.24 hPa of the exact one
  **if and only if** that bracket is not negative, whatever the temperature; on a sensor that is safe for
  temperatures too, the same holds end to end with 0.31 hPa. Both conditions matter: a
  divisor of 1 wraps over a positive bracket (`UnitDivisorPublishes`), and C gives an overflowed reading
  no value at all, which is what a failed transfer yields on ordinary sensors.

**Registers.** The driver caches the two oversampling codes; some calls replace a slice of the control
register, others rebuild the byte from the cache. On a bus without faults, and from agreement of cache and
register, every ordinary call is an update of one setting (of two for a work mode), over whole runs. Over a
bus that fails at will, a call loses the agreement of cache and register exactly when it is one of seven
listed cases: failures, codes of more than three bits, a reset and a raw access. One successful work-mode
call restores it, and one successful power-mode or forced call restores it exactly when the cached codes fit
their three bits. Over every run without a reset or a raw write, each field of the config register holds the
value last stored with a success report. When its calls report success, `pressure_setup` ends in one
configuration from any register and cache content.

**Loops.** `read_pressure` and `co2_read` are proved over every start of what their sensor delivers, failed
transfers included, and `read_pressure` for any values with which the machine goes on after an overflow. When
the loops end, how often the sensor is reset and which commands are sent is stated in the numbers and bytes
that were read. On a bus without faults the registers have known values after any number of resets, and on
safe sensors the verdict of a round follows the exact pressure of its frame.

## How C is modelled

- Machine integers are subsets of `int`. The outcome of a signed operation is `Defined` when its exact
  result is representable and `Undefined` otherwise, as C gives signed overflow no meaning; unsigned
  operations wrap. `>>` rounds towards minus infinity, `<<` of a signed value is a multiplication
  (strictly, C leaves it undefined for a negative value), `/` truncates, and a `u32` converts to `s32`
  in two's complement.
- C gives a program no meaning after an overflow. The model of `read_pressure` takes the mildest reading of
  that: the overflowed computation yields some pressure and temperature, which are a parameter of the round.
  The statements about the loop hold for all of them, those about accuracy for readings that do not overflow.
- In the methods an operation that can never overflow is an assignment to an `s32` or `s64` variable,
  which Dafny proves to fit.
- A register bus transaction succeeds or fails as a script says; the script is arbitrary. A failed write
  leaves the sensor unchanged, a failed read leaves the caller's buffer unchanged. What a soft reset leaves
  in the two registers is arbitrary.
- A data transfer (six bytes of readings, 24 trimming bytes, the chip id, a UART read) is a parameter: the
  bytes delivered, or the failure. The endless loops run over an arbitrary finite start of what will be
  delivered and report the index at which they left it.
- Status codes are `Success`, `BusError` and `OutOfRange`; the numeric value of the platform's `FAIL` is
  not part of this model.

## Where the code and its comments differ

- The comments of the oversampling setters list codes 0 to 7. The code accepts any byte, caches it whole
  and writes three bits; `CoherenceStep` has the exact condition and `WideCodeCorrupts` the consequence.
- The comments of the oversampling getters describe a read. After a failed transfer the code stores 0 in
  the cache.
- The comment "check overflow" stands before the split of the division. The split does not wrap for any
  divisor but 1, and gives `floor(2p / x)` exactly under the condition of `SplitDivision`; nothing checks
  the bracket before it.
- `bmp280_read_pressure_temperature` returns the bus result, but `read_pressure` only logs it: after a failed
  transfer it goes on with six zero bytes. On ordinary sensors a square overflows on them
  (`FailedTransferOverflows`), and what is judged then is whatever the overflow leaves. After a failed read of
  the trimming values a reading is accepted in no other way (`UnreadCalibration`).

## Model

| member | source | states |
|---|---|---|
| TemperatureInt32.SafeIsDefined | lib/bosch_bmp280/bosch_bmp280.c:188-207 | on a safe sensor no step overflows on any raw reading, the result is the one over unbounded integers, and it stays within 2^20 + 2^17 |
| TemperatureInt32.DefinedExactlyWhenSafe | lib/bosch_bmp280/bosch_bmp280.c:183-213 | all 2^20 raw readings are free of overflow if and only if the sensor is safe |
| TemperatureInt32.TemperatureAccurate | lib/bosch_bmp280/bosch_bmp280.c:183-213 | on every safe sensor and raw reading the result is less than 0.01 degrees from the exact formula |
| TemperatureInt32.TemperatureRounds | lib/bosch_bmp280/bosch_bmp280.c:209-210 | the temperature is `t_fine` * 5 / 256 rounded to the nearest integer, ties upwards |
| TemperatureInt32.TFineMonotoneExactly | lib/bosch_bmp280/bosch_bmp280.c:190-207 | over all sensors: all readings are free of overflow and `t_fine` never falls as the raw reading rises, if and only if the sensor is safe, T2 is not negative and every linear gain covers its quadratic drop |
| TemperatureInt32.TemperatureMonotoneExactly | lib/bosch_bmp280/bosch_bmp280.c:190-213 | the same for the returned temperature: if and only if the sensor is safe and the rounded values of the steps of `raw >> 3` do not fall |
| TemperatureInt32.BlocksRiseAtBoundaries | lib/bosch_bmp280/bosch_bmp280.c:190-213 | when T2 is not negative, the rounded values need be compared at the 65535 steps of `raw >> 4` only |
| TemperatureInt32.TemperatureMonotone | lib/bosch_bmp280/bosch_bmp280.c:190-213 | gains that cover their drops are enough for the returned temperature as well |
| TemperatureInt32.TFinesAgree | lib/bosch_bmp280/bosch_bmp280.c:1342-1362 | the integer and the `double` form leave fine temperatures that differ by at most 26 |
| TemperatureInt32.LossCoversDrops | lib/bosch_bmp280/bosch_bmp280.c:190-207 | one bound on the drops, from the largest distance of the reading from T1, covers all 65535 steps |
| TemperatureInt32.LargeT2IsMonotone | lib/bosch_bmp280/bosch_bmp280.c:190-207 | the gains cover the drops for every safe sensor with T2 from 18432, and from 12288 when T3 is within 4096 |
| TemperatureInt32.SmallT2CanFall | lib/bosch_bmp280/bosch_bmp280.c:190-210 | a safe sensor on which `t_fine` falls by 7 when the raw reading rises by 1 |
| PressureExact.QuotientOnScale | lib/bosch_bmp280/bosch_bmp280.c:1385-1401 | the divisor is positive, and the exact quotient is the ratio of two integers on the scale of the 64-bit form |
| PressureExact.CorrectedPositive | lib/bosch_bmp280/bosch_bmp280.c:1404-1408 | whatever P7 to P9 are, a quotient from 3000 to 400000 Pa is corrected to between 700 and 1000000 Pa |
| PressureInt64.Pressure64DefinedExactly | lib/bosch_bmp280/bosch_bmp280.c:1436-1477 | for any trimming values with P1 from 7200 and any operating temperature, all raw readings are free of overflow if and only if three products fit |
| PressureInt64.SafeFits | lib/bosch_bmp280/bosch_bmp280.c:1436-1477 | those products fit on the trimming values of `PressureSafe` |
| PressureInt64.ScaleError | lib/bosch_bmp280/bosch_bmp280.c:1445-1452 | the integer divisor is at most 2 units below 2^14 times the exact one |
| PressureInt64.Pressure64Accurate | lib/bosch_bmp280/bosch_bmp280.c:1430-1478 | for every raw reading the value before its conversion to u32 is within 1/8 Pa of the exact pressure times 256, and the returned one is its conversion |
| PressureInt64.Pressure64AccurateExactly | lib/bosch_bmp280/bosch_bmp280.c:1430-1478 | for every raw reading the returned value is within 1/8 Pa of the exact pressure if and only if the value before its conversion is not negative |
| PressureInt64.NegativePressureWraps | lib/bosch_bmp280/bosch_bmp280.c:1473-1477 | a safe sensor and a raw reading with an exact pressure of -65535.75 Pa and a returned value above 2^31 |
| PressureInt64.PlainValue | lib/bosch_bmp280/bosch_bmp280.c:1430-1478 | one sensor and reading with the returned value in full |
| PressureInt64.Pressure64NoWrap | lib/bosch_bmp280/bosch_bmp280.c:1473-1477 | from a quotient of 3000 Pa on, the conversion to u32 changes nothing |
| PressureInt64.CorrectionMonotone | lib/bosch_bmp280/bosch_bmp280.c:1466-1477 | a quotient larger by 7745 units, less than one raw count, gives a larger result in spite of the truncated square |
| PressureInt64.Pressure64Decreasing | lib/bosch_bmp280/bosch_bmp280.c:1453-1477 | up to a quotient of 220000 Pa the value before its conversion to u32 falls strictly as the raw count rises, for any P7 to P9 |
| PressureInt64.Pressure64Falls | lib/bosch_bmp280/bosch_bmp280.c:1453-1477 | from 3000 to 220000 Pa the returned value falls strictly |
| PressureInt32.SplitDivision | lib/bosch_bmp280/bosch_bmp280.c:315-329 | when the split division equals floor(2p/x), if and only if; one less otherwise; the one divisor that makes it wrap |
| PressureInt32.SplitDivisionMonotone | lib/bosch_bmp280/bosch_bmp280.c:315-329 | on each side of the split the quotient is monotone in the numerator |
| PressureInt32.OffsetRounding | lib/bosch_bmp280/bosch_bmp280.c:284-297 | the offset's five truncations cost at most 2.8e9 units of 2^-19 |
| PressureInt32.ScaleRounding | lib/bosch_bmp280/bosch_bmp280.c:299-311 | how far the integer divisor lies below and above 2^-55 times the exact one |
| PressureInt32.QuotientAccurate | lib/bosch_bmp280/bosch_bmp280.c:284-329 | the bracket and the divisor are in range, and the quotient is less than 3.2 Pa below and 16.9 Pa above the exact one |
| PressureInt32.QuotientError32 | lib/bosch_bmp280/bosch_bmp280.c:313-329 | that bound on the quotient from the bounds on divisor and numerator |
| PressureInt32.TermErrors | lib/bosch_bmp280/bosch_bmp280.c:331-346 | the truncated correction of an approximate quotient is within -12 and +24 Pa of the exact correction of the exact quotient |
| PressureInt32.Pressure32Accurate | lib/bosch_bmp280/bosch_bmp280.c:278-349 | wherever the first steps fit, from 3000 to 185000 Pa, no later step overflows and the result is at most 12 Pa below and 24 Pa above the exact pressure |
| PressureInt32.QuarterSquareFits | lib/bosch_bmp280/bosch_bmp280.c:284-288 | the square of the first step fits if and only if the fine temperature lies in -242720 to 498727 |
| PressureInt32.OffsetDefinedExactly | lib/bosch_bmp280/bosch_bmp280.c:284-297 | on `PressureSafe`, the offset is free of overflow if and only if that square fits |
| PressureInt32.ScaleDefinedExactly | lib/bosch_bmp280/bosch_bmp280.c:299-311 | on `PressureSafe`, the divisor is free of overflow if and only if in addition the product of P2 fits |
| PressureOverflow.Pressure32DefinedExactly | lib/bosch_bmp280/bosch_bmp280.c:278-349 | on `PressureSafe`, at any fine temperature and raw reading: free of overflow if and only if the temperature is in range and the product of P2 and those of P8 and P9 fit; the divisor is then positive |
| PressureOverflow.Pressure32DefinedForAll | lib/bosch_bmp280/bosch_bmp280.c:278-349 | on `PressureSafe`, at any fine temperature: all 2^20 raw readings are free of overflow if and only if the same holds at one of them |
| PressureOverflow.QuotientPeaks | lib/bosch_bmp280/bosch_bmp280.c:313-329 | on `PressureSafe`, that reading has the largest quotient: the one whose bracket wraps to -1 if there is one, otherwise reading 0 |
| PressureOverflow.OutOfRangeOverflows | lib/bosch_bmp280/bosch_bmp280.c:284-288 | off the range of fine temperatures the form overflows for all trimming values |
| PressureOrder.DivideOrder | lib/bosch_bmp280/bosch_bmp280.c:315-329 | a smaller numerator gives a quotient no larger, except that across the split it may be the successor of an even one |
| PressureOrder.CorrectedFallsLittle | lib/bosch_bmp280/bosch_bmp280.c:331-346 | for any P7 to P9, a larger quotient is corrected to a result at most 3 Pa smaller |
| PressureOrder.Pressure32NearlyFalls | lib/bosch_bmp280/bosch_bmp280.c:278-349 | on `PressureSafe`, wherever the first steps fit and from 3000 to 185000 Pa, a higher raw count raises the result by at most 3 Pa |
| PressureOrder.RisesByThree | lib/bosch_bmp280/bosch_bmp280.c:278-349 | a safe sensor on which one count more raises the result by 3 Pa |
| PressureShift.QuotientShift | lib/bosch_bmp280/bosch_bmp280.c:1385-1401 | on `PressureSafe`, fine temperatures at most 26 apart move the exact quotient by less than 4.8 Pa |
| PressureShift.ExactPressureShift | lib/bosch_bmp280/bosch_bmp280.c:1385-1410 | and the exact pressure by less than 6.8 Pa |
| PressureForms.FormsAgree | lib/bosch_bmp280/bosch_bmp280.c:278-349 | on `PressureSafe`, at operating temperatures and from 3000 to 185000 Pa, the two integer forms are both defined and differ by less than 25 Pa |
| PressurePublished.PublishableIsAccurate | lib/bosch_bmp280/bosch_bmp280.c:313-346 | on `PressureSafe`, at any temperature, a 32-bit result between 90000 and 110000 is within 24 Pa of the exact pressure if and only if the bracket is not negative |
| PressurePublished.NotPublished | lib/bosch_bmp280/bosch_bmp280.c:313-346 | with the bracket not negative, a quotient outside 3000 to 185000 Pa never ends between 90000 and 110000 |
| PressurePublished.SideBounds | lib/bosch_bmp280/bosch_bmp280.c:313-329 | the integer quotient lies on the same side of that range as the exact one |
| PressurePublished.WrappedBracket | lib/bosch_bmp280/bosch_bmp280.c:313-346 | a safe sensor whose bracket of -262143 counts wraps and yields 108812 Pa |
| Calibration.DecodeInvertsEncode | lib/bosch_bmp280/bosch_bmp280.c:493-552 | decoding the little-endian two's-complement layout gives back all twelve trimming values |
| Calibration.EncodeInvertsDecode | lib/bosch_bmp280/bosch_bmp280.c:493-552 | and every 24 bytes are the layout of what they decode to |
| Calibration.CountingBytes | lib/bosch_bmp280/bosch_bmp280.c:493-552 | a block of 24 bytes and the twelve values it decodes to |
| Calibration.WordBits | lib/bosch_bmp280/bosch_bmp280.c:493-497 | the shift and the bitwise or on bytes compute the sum used here |
| Calibration.UnpackInvertsPack | lib/bosch_bmp280/bosch_bmp280.c:386-405 | two 20-bit readings come back out of the frame, whatever the unused nibbles |
| Calibration.SameReadings | lib/bosch_bmp280/bosch_bmp280.c:386-405 | two frames read alike if and only if they differ in nothing but those nibbles |
| Calibration.RawReadingBits | lib/bosch_bmp280/bosch_bmp280.c:386-393 | the shifts and the bitwise or on bytes compute the sum used here |
| BitSlice.OsrsTSet | lib/bosch_bmp280/bosch_bmp280.h:429-433 | replacing the temperature slice stores the code modulo 8 and keeps the other two fields |
| BitSlice.OsrsPSet | lib/bosch_bmp280/bosch_bmp280.h:429-433 | the same for the pressure slice |
| BitSlice.FilterSet | lib/bosch_bmp280/bosch_bmp280.h:429-433 | the same for the filter slice of the config register, bit 1 included |
| BitSlice.StandbySet | lib/bosch_bmp280/bosch_bmp280.h:429-433 | the same for the standby slice |
| BitSlice.ControlFieldsAt | lib/bosch_bmp280/bosch_bmp280.h:622-644 | the fields of the control register as numbers: r / 32, r / 4 % 8 and r % 4 |
| BitSlice.ConfigFieldsAt | lib/bosch_bmp280/bosch_bmp280.h:650-669 | the fields of the config register as numbers: standby r / 32, filter r / 4 % 8, SPI r % 2 |
| BitSlice.FilterSetTo | lib/bosch_bmp280/bosch_bmp280.h:429-433 | the config byte after a filter is set, as a number |
| BitSlice.StandbySetTo | lib/bosch_bmp280/bosch_bmp280.h:429-433 | the config byte after a standby time is set, as a number |
| BitSlice.Spi3SetTo | lib/bosch_bmp280/bosch_bmp280.h:429-433 | the config byte after the SPI bit is set, as a number |
| BitSlice.OsrsTSetTo | lib/bosch_bmp280/bosch_bmp280.h:429-433 | the control byte after a temperature code is set, as a number |
| BitSlice.OsrsPSetTo | lib/bosch_bmp280/bosch_bmp280.h:429-433 | the control byte after a pressure code is set, as a number |
| BitSlice.ControlByteFields | lib/bosch_bmp280/bosch_bmp280.c:818-822 | three-bit codes come back out of the rebuilt byte; the mode does for all codes |
| BitSlice.ControlByteIs | lib/bosch_bmp280/bosch_bmp280.c:818-822 | for all codes and modes the rebuilt byte is 32 t + 4 p + mode modulo 256 |
| Registers.ReportExactly | lib/bosch_bmp280/bosch_bmp280.c:581-1323 | a call reports success if and only if the one or two transactions it makes all succeed, out of range if and only if the power mode exceeds 3 or the work mode 4; how much of the bus script it uses |
| Registers.SuccessfulStep | lib/bosch_bmp280/bosch_bmp280.c:581-1323 | after a call that reports success, both registers and both cached codes as numbers, for every call |
| Registers.FailedStep | lib/bosch_bmp280/bosch_bmp280.c:581-1323 | after a bus error no register has changed; which cached codes have changed all the same |
| Registers.StepRefines | lib/bosch_bmp280/bosch_bmp280.c:581-1261 | on a bus without faults a call is the update it means, and cache and register stay in agreement |
| Registers.RunRefines | lib/bosch_bmp280/bosch_bmp280.c:581-1261 | the same over every run of calls |
| Registers.CoherenceStep | lib/bosch_bmp280/bosch_bmp280.c:581-1292 | whatever the bus does, a call ends the agreement if and only if it is one of the listed ones |
| Registers.CoherenceLasts | lib/bosch_bmp280/bosch_bmp280.c:581-1292 | agreement lasts through any run without such a call |
| Registers.IncoherenceHasACause | lib/bosch_bmp280/bosch_bmp280.c:581-1292 | a run that ends the agreement contains such a call |
| Registers.RestoresCoherence | lib/bosch_bmp280/bosch_bmp280.c:807-1261 | after a successful power-mode or forced call there is agreement if and only if the cached codes fit three bits, after a successful work-mode call always |
| Registers.RecoveryLasts | lib/bosch_bmp280/bosch_bmp280.c:807-1261 | after such a call in any run, over cached codes that fit, agreement lasts until a listed call breaks it |
| Registers.CodesFitThroughout | lib/bosch_bmp280/bosch_bmp280.c:581-1218 | over every run with three-bit arguments the cached codes keep to three bits |
| Registers.WideCodeCorrupts | lib/bosch_bmp280/bosch_bmp280.c:723-833 | a pressure code of 8 followed by a power-mode call sets the temperature code to 1 |
| Registers.LastStoreWins | lib/bosch_bmp280/bosch_bmp280.c:923-1134 | over every run and every pattern of failures each config field holds the last value stored with success, and bit 1 never changes |
| Registers.SettersCommute | lib/bosch_bmp280/bosch_bmp280.c:923-1134 | setters of different config fields commute |
| Bmp280.Bus.Write | lib/pressure/pressure.c:19-49 | the contract assumed of the bus write |
| Bmp280.Bus.Read | lib/pressure/pressure.c:58-93 | the contract assumed of the bus read |
| Bmp280.Driver.GetOversampTemperature | lib/bosch_bmp280/bosch_bmp280.c:581-600 | the object's new state and report are those of the step |
| Bmp280.Driver.SetOversampTemperature | lib/bosch_bmp280/bosch_bmp280.c:626-652 | the same |
| Bmp280.Driver.GetOversampPressure | lib/bosch_bmp280/bosch_bmp280.c:678-697 | the same |
| Bmp280.Driver.SetOversampPressure | lib/bosch_bmp280/bosch_bmp280.c:723-750 | the same |
| Bmp280.Driver.SetPowerMode | lib/bosch_bmp280/bosch_bmp280.c:807-833 | the same |
| Bmp280.Driver.SetSoftRst | lib/bosch_bmp280/bosch_bmp280.c:850-865 | the same |
| Bmp280.Driver.SetSpi3 | lib/bosch_bmp280/bosch_bmp280.c:923-947 | the same |
| Bmp280.Driver.SetFilter | lib/bosch_bmp280/bosch_bmp280.c:1008-1031 | the same |
| Bmp280.Driver.SetStandbyDurn | lib/bosch_bmp280/bosch_bmp280.c:1109-1134 | the same |
| Bmp280.Driver.SetWorkMode | lib/bosch_bmp280/bosch_bmp280.c:1155-1218 | the same |
| Bmp280.Driver.WriteRegister | lib/bosch_bmp280/bosch_bmp280.c:1279-1292 | the same, for one byte |
| Bmp280.Driver.ReadRegister | lib/bosch_bmp280/bosch_bmp280.c:1310-1323 | the same, for one byte, which is the register's or after a failure the caller's own |
| Bmp280.Driver.GetForcedUncompPressureTemperature | lib/bosch_bmp280/bosch_bmp280.c:1234-1261 | the control byte is rebuilt with the forced mode, and the raw readings are those of the delivered frame |
| Bmp280.Driver.CompensateTemperatureInt32 | lib/bosch_bmp280/bosch_bmp280.c:183-213 | the statements compute `Temperature32` and leave `t_fine` in the object |
| Bmp280.Driver.CompensatePressureInt32 | lib/bosch_bmp280/bosch_bmp280.c:278-312 | the statements compute `Pressure32` from the object's trimming values and `t_fine` |
| Bmp280.Driver.DivideInt32 | lib/bosch_bmp280/bosch_bmp280.c:315-329 | floor(2p/x) below the split; above it the same, or one less when the remainder of p/x is at least half of x; a divisor of 1 wraps |
| Bmp280.Driver.CorrectInt32 | lib/bosch_bmp280/bosch_bmp280.c:330-348 | the statements compute the correction |
| Bmp280.Driver.CompensatePressureInt64 | lib/bosch_bmp280/bosch_bmp280.c:1430-1478 | the statements compute `Pressure64` |
| Bmp280.Driver.ReadUncompPressureTemperature | lib/bosch_bmp280/bosch_bmp280.c:362-408 | the raw readings of the delivered frame, of six zeros after a failure |
| Bmp280.Driver.ReadPressureTemperature | lib/bosch_bmp280/bosch_bmp280.c:423-445 | the reading is a function of the trimming values and the six bytes alone, zeros after a failed transfer; the status is that of the transfer |
| Bmp280.Driver.GetCalibParam | lib/bosch_bmp280/bosch_bmp280.c:471-555 | the trimming values decoded from the delivered bytes, of zeros after a failure |
| Bmp280.Driver.Init | lib/bosch_bmp280/bosch_bmp280.c:83-119 | success if and only if one of five reads delivers an id from 0x56 to 0x58 and the trimming values arrive; the first such id is kept |
| Readings.InitExactly | lib/bosch_bmp280/bosch_bmp280.c:83-119 | the trimming values afterwards: delivered, all zero, or unchanged without such an id |
| Readings.KnownIds | lib/bosch_bmp280/bosch_bmp280.c:98-101 | 0x56 to 0x58 are known, their neighbours are not |
| Acquisition.SetupIs | lib/pressure/pressure.c:110-126 | the five calls of the setup in their order |
| Acquisition.SetupConverges | lib/pressure/pressure.c:110-126 | from any registers and any cache, a setup whose calls succeed ends with control byte 0x57, codes 2 and 5, standby 0, filter 4: config byte 0x10 plus the two other bits as they were |
| Acquisition.SetupSpends | lib/pressure/pressure.c:110-153 | without faults a setup makes nine bus transactions and a reset ten |
| Acquisition.FaultFreeSetup | lib/pressure/pressure.c:110-126 | on a bus without faults all five calls succeed |
| Acquisition.SetupIdempotent | lib/pressure/pressure.c:110-126 | a second setup changes nothing |
| Acquisition.ResetConverges | lib/pressure/pressure.c:148-153 | a reset ends in the same configuration, with the two other config bits as the sensor's reset leaves them, not as they were |
| Acquisition.ResetForgets | lib/pressure/pressure.c:148-153 | two sensors whose reset leaves the same end a reset in the same registers and cache, whatever they held |
| Acquisition.ConfiguredThroughout | lib/pressure/pressure.c:163-201 | in every round, after n resets, control byte, codes and config byte are known as numbers, and 9 + 10 n transactions have been made |
| Acquisition.PressureSetup | lib/pressure/pressure.c:110-126 | the method makes those five calls |
| Acquisition.PressureReset | lib/pressure/pressure.c:148-153 | the method makes a soft reset and the setup |
| Acquisition.PressureInit | lib/pressure/pressure.c:128-146 | the trimming values are the delivered ones when a known chip shows, zero when they do not arrive, unchanged otherwise; the setup is made in any case |
| Acquisition.Round | lib/pressure/pressure.c:165-199 | one pass of the loop: its verdict, and a reset exactly when demanded |
| Acquisition.ReadPressure | lib/pressure/pressure.c:155-201 | the loop leaves at the first reading of at least 75000 Pa at a temperature other than 0 and 2323, past failed transfers and overflows with any outcome; the resets are as many as the low readings and the stuck second looks before it; without faults the registers then have known values; the published value changes only for 900 to 1100 hPa |
| Acquisition.JudgeExactly | lib/pressure/pressure.c:168-195 | when a round accepts, and when it resets, in the numbers it read |
| Acquisition.ResetsCountRounds | lib/pressure/pressure.c:170-195 | the resets made are as many as the rounds whose verdict demands one |
| Readings.UnreadCalibration | lib/bosch_bmp280/bosch_bmp280.c:188-349 | with trimming values of zero a reading is 0 Pa at 0 degrees, and the round waits, exactly when `raw >> 4` is at most 46340; otherwise it overflows |
| Readings.SampleDefinedExactly | lib/bosch_bmp280/bosch_bmp280.c:423-445 | for safe trimming values, the frames whose reading is free of overflow |
| Readings.FailedTransferOverflows | lib/bosch_bmp280/bosch_bmp280.c:375-437 | with ordinary temperature trimming and any pressure trimming, the zeros of a failed transfer overflow |
| Readings.SampleAccurate | lib/bosch_bmp280/bosch_bmp280.c:423-445 | for safe trimming values and a frame in range the reading is defined, its temperature within 0.01 degrees and its pressure within -12 and +24 Pa of the exact formula at the frame's rounded fine temperature |
| Readings.PublishedIsAccurate | lib/pressure/pressure.c:168-184 | on `PressureSafe`, for any frame whose reading does not overflow: a published value lies between 900 and 1100 hPa and is within 0.24 hPa of the exact pressure if and only if the bracket is not negative |
| Readings.SampleMeetsDouble | lib/bosch_bmp280/bosch_bmp280.c:423-445 | the reading against the two `double` forms one after the other: temperature within 0.01 degrees, pressure within -19 and +31 Pa |
| Readings.PublishedMeetsDouble | lib/pressure/pressure.c:168-184 | on safe trimming values a published value is within 0.31 hPa of those forms if and only if the bracket is not negative |
| Readings.VerdictFollowsPressure | lib/pressure/pressure.c:168-176 | on safe sensors and in range, at a plausible temperature, an exact pressure below 74976 Pa resets the sensor and one from 75012 Pa is accepted |
| Readings.EveryVerdict | lib/pressure/pressure.c:168-195 | one sensor, with a frame for each verdict |
| Readings.WrappedBracketPublishes | lib/pressure/pressure.c:168-184 | safe trimming values and a frame that is accepted as 108812 Pa from a bracket of -262143 counts |
| Readings.UnitDivisorPublishes | lib/pressure/pressure.c:168-184 | trimming values off `PressureSafe` and a frame that is accepted as 101454 Pa, with a positive bracket, instead of 687211 * 6250 Pa |
| Readings.ConditionsAreMet | lib/bosch_bmp280/bosch_bmp280.c:183-349 | ordinary trimming values and an ordinary frame meet all the conditions above |
| Co2.CheckCRC | lib/co2/co2.c:31-41 | the wrapping loop accepts exactly when bytes 1 to 8 sum to 0 modulo 256 |
| Co2.ReadCO2 | lib/co2/co2.c:43-49 | the 16-bit result whose high byte is byte 2 and whose low byte is byte 3 |
| Co2.Co2Read | lib/co2/co2.c:104-139 | the result is that of the first frame of nine bytes with 0x86 as byte 1 and bytes 1 to 8 summing to 0 modulo 256, whatever the buffer held; 1 + (empty or failed reads) commands have been sent, each with its nine bytes |
| Co2.AcceptsExactly | lib/co2/co2.c:116-128 | which reads end the loop, in the bytes read |
| Co2.EmptiesCount | lib/co2/co2.c:131-134 | the commands sent again are as many as the reads that failed or delivered nothing |
| Co2.OneByteDetected | lib/co2/co2.c:31-41 | changing one byte of an accepted frame goes unnoticed if and only if it is byte 0 |
| Co2.ExchangeUndetected | lib/co2/co2.c:31-41 | exchanging two of bytes 1 to 8 is never noticed |
| Co2.Reply | lib/co2/co2.c:43-49 | every 16-bit concentration is returned from a frame that is accepted |
| Co2.CommandChecksum | lib/co2/co2.c:107 | the command that is sent carries a correct checksum itself |

## Left out

- Pressure32DefinedForAll: exact for the trimming values of `PressureSafe` and all fine temperatures; off those trimming values further products of the same steps can overflow, and only `OutOfRangeOverflows` holds.
- Pressure32Accurate: the quotients are limited to 3000 to 185000 Pa, beyond the sensor's own range of 30000 to 110000 Pa on both sides, and the trimming values to `PressureSafe`.
- ReadPressure: after an overflow any pressure and temperature are allowed; C would allow a program anything at all.
- Pressure64Accurate: stated for the same envelope of trimming values; P7 to P9 and the raw reading are not limited.
- ExactPressure: IEEE rounding of the `double` forms is not modelled, they serve as the specification only.
- LastStoreWins: soft resets and raw register writes are excluded, as they store in the config register without naming a field.
- WriteRegister: transfers of more than one byte are not modelled.
- I2C and UART transfers, GPIO setup, FreeRTOS tasks and delays are foreign calls; only their contract or their result appears.
- `bmp280_compute_wait_time` and the tick conversion: the waiting times do not affect any value.
- Null-pointer branches, logging, and the kernel variant of the division: one-branch facts.
- `bmp280_read_uncomp_temperature`, `bmp280_read_uncomp_pressure` and the getters of power mode, filter, standby time and SPI: single reads with no state behind them.
- `pressure_task` and `co2_task`: they repeat the modelled loops without an end.
- Termination of the two reading loops depends on the sensors.
- `lib/si7021`, `lib/wifi`, `src/main.c`: conversions and plumbing around libraries that are not part of this model.
