/** The driver: the sensor behind a bus, and the `bmp280_t` record that the driver's calls update. */
module Bmp280 {
  import opened Machine
  import opened BitSlice
  import opened Calibration
  import opened Registers
  import opened TemperatureInt32
  import opened PressureInt32
  import opened PressureInt64

  /**
   The sensor's control registers, reached over a bus that fails when its script says so. A
   failed write leaves the sensor as it was, a failed read leaves the caller's buffer as it was.
   */
  class Bus {
    var ctrl: u8
    var config: u8
    var script: seq<bool>
    const resetCtrl: u8
    const resetConfig: u8

    constructor (ctrl: u8, config: u8, script: seq<bool>, resetCtrl: u8, resetConfig: u8)
      ensures this.ctrl == ctrl && this.config == config && this.script == script
      ensures this.resetCtrl == resetCtrl && this.resetConfig == resetConfig
    {
      this.ctrl, this.config, this.script := ctrl, config, script;
      this.resetCtrl, this.resetConfig := resetCtrl, resetConfig;
    }

    method Transact() returns (ok: bool)
      modifies this`script
      ensures ok == (old(script) == [] || old(script)[0])
      ensures script == if old(script) == [] then [] else old(script)[1..]
    {
      ok := true;
      if script != [] {
        ok, script := script[0], script[1..];
      }
    }

    method Read(addr: u8, buffer: u8) returns (res: Status, data: u8)
      modifies this`script
      ensures res == if old(script) == [] || old(script)[0] then Success else BusError
      ensures script == if old(script) == [] then [] else old(script)[1..]
      ensures res.Success? && addr == CTRL_MEAS_REG ==> data == ctrl
      ensures res.Success? && addr == CONFIG_REG ==> data == config
      ensures res.BusError? ==> data == buffer
    {
      var ok := Transact();
      if !ok {
        return BusError, buffer;
      }
      data := if addr == CTRL_MEAS_REG then ctrl else if addr == CONFIG_REG then config else 0;
      res := Success;
    }

    method Write(addr: u8, value: u8) returns (res: Status)
      modifies this
      ensures res == if old(script) == [] || old(script)[0] then Success else BusError
      ensures script == if old(script) == [] then [] else old(script)[1..]
      ensures ctrl ==
        if res.BusError? then old(ctrl)
        else if addr == CTRL_MEAS_REG then value
        else if addr == RST_REG && value == SOFT_RESET_CODE then resetCtrl
        else old(ctrl)
      ensures config ==
        if res.BusError? then old(config)
        else if addr == CONFIG_REG then value
        else if addr == RST_REG && value == SOFT_RESET_CODE then resetConfig
        else old(config)
    {
      var ok := Transact();
      if !ok {
        return BusError;
      }
      if addr == CTRL_MEAS_REG {
        ctrl := value;
      } else if addr == CONFIG_REG {
        config := value;
      } else if addr == RST_REG && value == SOFT_RESET_CODE {
        ctrl, config := resetCtrl, resetConfig;
      }
      res := Success;
    }
  }

  datatype Reading = Reading(pressure: u32, temperature: s32)

  /** The bytes a data read leaves in a buffer of zeros. */
  function Delivered(reply: Option<Frame>): Frame {
    match reply
    case Some(f) => f
    case None => [0, 0, 0, 0, 0, 0]
  }

  /** A compensated reading, as a function of nothing but the trimming values and the six bytes. */
  function Sample(c: Calib, f: Frame): Checked<Reading> {
    var tFine :- TFine32(c, RawTemperature(f));
    var temperature :- Temperature32(c, RawTemperature(f));
    var pressure :- Pressure32(c, tFine, RawPressure(f));
    Defined(Reading(pressure, temperature))
  }

  const CHIP_ID_READ_COUNT := 5
  const NO_CALIB: CalibBytes := [0, 0, 0, 0, 0, 0, 0, 0, 0, 0, 0, 0, 0, 0, 0, 0, 0, 0, 0, 0, 0, 0, 0, 0]

  predicate KnownChip(id: u8) {
    id == 0x56 || id == 0x57 || id == 0x58
  }

  predicate AnyShows(ids: seq<Option<u8>>) {
    exists i | 0 <= i < |ids| :: Shows(ids[i])
  }

  /** The trimming values after an initialisation: unchanged without a known chip, zero when they do not arrive. */
  function CalibAfterInit(c: Calib, ids: seq<Option<u8>>, reply: Option<CalibBytes>): Calib {
    if AnyShows(ids) then DecodeCalib(if reply.Some? then reply.value else NO_CALIB) else c
  }

  predicate Shows(reply: Option<u8>) {
    reply.Some? && KnownChip(reply.value)
  }

  class Driver {
    const bus: Bus
    var calib: Calib
    var tFine: s32
    var chipId: u8
    var oversampTemperature: u8
    var oversampPressure: u8

    ghost function View(): State
      reads this, bus
    {
      State(bus.ctrl, bus.config, oversampTemperature, oversampPressure, bus.script, bus.resetCtrl, bus.resetConfig)
    }

    constructor (bus: Bus, calib: Calib, tFine: s32, oversampTemperature: u8, oversampPressure: u8)
      ensures this.bus == bus && this.calib == calib
      ensures this.oversampTemperature == oversampTemperature && this.oversampPressure == oversampPressure
    {
      this.bus, this.calib, this.tFine, chipId := bus, calib, tFine, 0;
      this.oversampTemperature, this.oversampPressure := oversampTemperature, oversampPressure;
    }

    // ---- configuration

    method GetOversampTemperature() returns (res: Status, value: u8)
      modifies this`oversampTemperature, bus
      ensures View() == Step(old(View()), Call.GetOversampTemperature)
      ensures res == Report(old(View()), Call.GetOversampTemperature) && value == oversampTemperature
    {
      var data;
      res, data := bus.Read(CTRL_MEAS_REG, 0);
      value := OsrsT(data);
      oversampTemperature := value;
      OfZero();
    }

    method SetOversampTemperature(value: u8) returns (res: Status)
      modifies this`oversampTemperature, bus
      ensures View() == Step(old(View()), Call.SetOversampTemperature(value))
      ensures res == Report(old(View()), Call.SetOversampTemperature(value))
    {
      var data;
      res, data := bus.Read(CTRL_MEAS_REG, 0);
      if res == Success {
        data := SetOsrsT(data, value);
        res := bus.Write(CTRL_MEAS_REG, data);
        oversampTemperature := value;
      }
    }

    method GetOversampPressure() returns (res: Status, value: u8)
      modifies this`oversampPressure, bus
      ensures View() == Step(old(View()), Call.GetOversampPressure)
      ensures res == Report(old(View()), Call.GetOversampPressure) && value == oversampPressure
    {
      var data;
      res, data := bus.Read(CTRL_MEAS_REG, 0);
      value := OsrsP(data);
      oversampPressure := value;
      OfZero();
    }

    method SetOversampPressure(value: u8) returns (res: Status)
      modifies this`oversampPressure, bus
      ensures View() == Step(old(View()), Call.SetOversampPressure(value))
      ensures res == Report(old(View()), Call.SetOversampPressure(value))
    {
      var data;
      res, data := bus.Read(CTRL_MEAS_REG, 0);
      if res == Success {
        data := SetOsrsP(data, value);
        res := bus.Write(CTRL_MEAS_REG, data);
        oversampPressure := value;
      }
    }

    method SetPowerMode(mode: u8) returns (res: Status)
      modifies bus
      ensures View() == Step(old(View()), Call.SetPowerMode(mode))
      ensures res == Report(old(View()), Call.SetPowerMode(mode))
    {
      if mode <= NORMAL_MODE {
        var data := ControlByte(oversampTemperature, oversampPressure, mode);
        res := bus.Write(CTRL_MEAS_REG, data);
      } else {
        res := OutOfRange;
      }
    }

    method SetWorkMode(mode: u8) returns (res: Status)
      modifies this`oversampTemperature, this`oversampPressure, bus
      ensures View() == Step(old(View()), Call.SetWorkMode(mode))
      ensures res == Report(old(View()), Call.SetWorkMode(mode))
    {
      if mode <= ULTRA_HIGH_RESOLUTION_MODE {
        var data;
        res, data := bus.Read(CTRL_MEAS_REG, 0);
        if res == Success {
          match mode {
            case 0 => oversampTemperature, oversampPressure := 1, 1;
            case 1 => oversampTemperature, oversampPressure := 1, 2;
            case 2 => oversampTemperature, oversampPressure := 1, 3;
            case 3 => oversampTemperature, oversampPressure := 1, 4;
            case 4 => oversampTemperature, oversampPressure := 2, 5;
          }
          data := SetOsrsT(data, oversampTemperature);
          data := SetOsrsP(data, oversampPressure);
          res := bus.Write(CTRL_MEAS_REG, data);
        }
      } else {
        res := OutOfRange;
      }
    }

    method SetSoftRst() returns (res: Status)
      modifies bus
      ensures View() == Step(old(View()), Call.SoftReset) && res == Report(old(View()), Call.SoftReset)
    {
      res := bus.Write(RST_REG, SOFT_RESET_CODE);
    }

    method SetSpi3(value: u8) returns (res: Status)
      modifies bus
      ensures View() == Step(old(View()), Call.SetSpi3Enable(value))
      ensures res == Report(old(View()), Call.SetSpi3Enable(value))
    {
      var data;
      res, data := bus.Read(CONFIG_REG, 0);
      if res == Success {
        data := BitSlice.SetSpi3(data, value);
        res := bus.Write(CONFIG_REG, data);
      }
    }

    method SetFilter(value: u8) returns (res: Status)
      modifies bus
      ensures View() == Step(old(View()), Call.SetFilterCoeff(value))
      ensures res == Report(old(View()), Call.SetFilterCoeff(value))
    {
      var data;
      res, data := bus.Read(CONFIG_REG, 0);
      if res == Success {
        data := BitSlice.SetFilter(data, value);
        res := bus.Write(CONFIG_REG, data);
      }
    }

    method SetStandbyDurn(value: u8) returns (res: Status)
      modifies bus
      ensures View() == Step(old(View()), Call.SetStandbyDurn(value))
      ensures res == Report(old(View()), Call.SetStandbyDurn(value))
    {
      var data;
      res, data := bus.Read(CONFIG_REG, 0);
      if res == Success {
        data := SetStandby(data, value);
        res := bus.Write(CONFIG_REG, data);
      }
    }

    method ReadRegister(addr: u8, buffer: u8) returns (res: Status, data: u8)
      modifies bus
      ensures View() == Step(old(View()), Call.ReadRegister) && res == Report(old(View()), Call.ReadRegister)
      ensures res.Success? && addr == CTRL_MEAS_REG ==> data == bus.ctrl
      ensures res.Success? && addr == CONFIG_REG ==> data == bus.config
      ensures res.BusError? ==> data == buffer
    {
      res, data := bus.Read(addr, buffer);
    }

    method WriteRegister(addr: u8, data: u8) returns (res: Status)
      modifies bus
      ensures View() == Step(old(View()), Call.WriteRegister(addr, data))
      ensures res == Report(old(View()), Call.WriteRegister(addr, data))
    {
      res := bus.Write(addr, data);
    }

    // ---- compensation

    method CompensateTemperatureInt32(raw: s32) returns (result: Checked<s32>)
      modifies this`tFine
      ensures result == Temperature32(calib, raw)
      ensures TFine32(calib, raw).Defined? ==> tFine == TFine32(calib, raw).value
    {
      var x1: s32, x2: s32;
      x1 := raw / 8 - calib.T1 * 2;
      x1 :- Int32(x1 * calib.T2);
      x1 := x1 / 2048;
      x2 := raw / 16 - calib.T1;
      x2 :- Int32(x2 * x2);
      x2 :- Int32(x2 / 4096 * calib.T3);
      x2 := x2 / 16384;
      tFine := x1 + x2;
      var temperature: s32 := tFine * 5 + 128;
      temperature := temperature / 256;
      return Defined(temperature);
    }

    method CompensatePressureInt32(raw: s32) returns (result: Checked<u32>)
      ensures result == Pressure32(calib, tFine, raw)
    {
      var x1: s32, x2: s32, t: s32;
      x1 :- Int32(tFine / 2 - 64000);
      x2 :- Int32(x1 / 4 * (x1 / 4));
      x2 :- Int32(x2 / 0x800 * calib.P6);
      t :- Int32(x1 * calib.P5);
      t :- Int32(t * 2);
      x2 :- Int32(x2 + t);
      t :- Int32(calib.P4 * 0x1_0000);
      x2 :- Int32(x2 / 4 + t);
      assert Offset32(calib, tFine) == Defined(x2);
      t := x1 / 4 * (x1 / 4);
      t :- Int32(calib.P3 * (t / 0x2000));
      x1 :- Int32(calib.P2 * x1);
      x1 := t / 8 + x1 / 2;
      x1 := 32768 + x1 / 0x4_0000;
      x1 :- Int32(x1 * calib.P1);
      x1 := x1 / 0x8000;
      assert Scale32(calib, tFine) == Defined(x1);
      t :- Int32(0x10_0000 - raw);
      var pressure: u32 := U32(U32(U32(t) - x2 / 0x1000) * 3125);
      assert Numerator32(raw, x2) == Defined(pressure);
      if x1 == 0 {
        return Defined(0);
      }
      U32IsZero(x1);
      pressure := DivideInt32(pressure, U32(x1));
      result := CorrectInt32(pressure);
    }

    /**
     The division, split so that doubling the numerator does not wrap: below the split the rounded
     quotient of twice the numerator, above it that quotient or one less. A divisor of 1 does wrap.
     */
    method DivideInt32(numerator: u32, x1: u32) returns (pressure: u32)
      requires x1 != 0
      ensures pressure == Divide32(numerator, x1)
      ensures numerator < 0x8000_0000 ==> pressure == 2 * numerator / x1
      ensures numerator >= 0x8000_0000 && x1 > 1 ==>
        pressure == 2 * numerator / x1 - if 2 * (numerator % x1) < x1 then 0 else 1
      ensures numerator >= 0x8000_0000 && x1 == 1 ==> pressure == 2 * numerator - 0x1_0000_0000
    {
      SplitDivision(numerator, x1);
      if numerator < 0x8000_0000 {
        pressure := U32(numerator * 2) / x1;
      } else {
        pressure := U32(numerator / x1 * 2);
      }
    }

    /** The last part of the 32-bit compensation: the correction by P7, P8 and P9. */
    method CorrectInt32(quotient: u32) returns (result: Checked<u32>)
      ensures result == Corrected32(calib, quotient)
    {
      var x1: s32, x2: s32, pressure: s32;
      x1 :- Int32(calib.P9 * S32(U32(quotient / 8 * (quotient / 8)) / 0x2000));
      x1 := x1 / 0x1000;
      x2 :- Int32(S32(quotient / 4) * calib.P8);
      x2 := x2 / 0x2000;
      x1 := x1 + x2 + calib.P7;
      pressure :- Int32(S32(quotient) + x1 / 16);
      return Defined(U32(pressure));
    }

    method CompensatePressureInt64(raw: s32) returns (result: Checked<u32>)
      ensures result == Pressure64(calib, tFine, raw)
    {
      var x1: s64, x2: s64, t: s64;
      x1 :- Int64(tFine - 128000);
      x2 :- Int64(x1 * x1);
      x2 :- Int64(x2 * calib.P6);
      t :- Int64(x1 * calib.P5);
      t :- Int64(t * 0x2_0000);
      x2 :- Int64(x2 + t);
      t :- Int64(calib.P4 * 0x8_0000_0000);
      x2 :- Int64(x2 + t);
      t := x1 * x1;
      t :- Int64(t * calib.P3);
      x1 :- Int64(x1 * calib.P2);
      x1 :- Int64(x1 * 0x1000);
      x1 :- Int64(t / 0x100 + x1);
      x1 :- Int64(0x8000_0000_0000 + x1);
      x1 :- Int64(x1 * calib.P1);
      x1 := x1 / 0x2_0000_0000;
      if x1 == 0 {
        return Defined(0);
      }
      var pressure: s64 :- Int32(0x10_0000 - raw);
      pressure :- Int64(pressure * 0x8000_0000);
      pressure :- Int64(pressure - x2);
      pressure :- Int64(pressure * 3125);
      pressure :- Int64(TruncDiv(pressure, x1));
      x1 :- Int64(calib.P9 * (pressure / 0x2000));
      x1 :- Int64(x1 * (pressure / 0x2000));
      x1 := x1 / 0x200_0000;
      x2 :- Int64(calib.P8 * pressure);
      x2 := x2 / 0x8_0000;
      pressure :- Int64(pressure + x1);
      pressure :- Int64(pressure + x2);
      pressure := pressure / 0x100 + calib.P7 * 0x10;
      return Defined(U32(pressure));
    }

    // ---- data

    method ReadUncompPressureTemperature(reply: Option<Frame>) returns (res: Status, rawP: s32, rawT: s32)
      ensures res == if reply.Some? then Success else BusError
      ensures rawP == RawPressure(Delivered(reply)) && rawT == RawTemperature(Delivered(reply))
    {
      var data: Frame := [0, 0, 0, 0, 0, 0];
      if reply.Some? {
        data := reply.value;
      }
      rawP := RawReading(data[0], data[1], data[2]);
      rawT := RawReading(data[3], data[4], data[5]);
      res := if reply.Some? then Success else BusError;
    }

    /**
     The reading depends on the trimming values and the six bytes alone: the stale `tFine` is
     overwritten before the pressure stage uses it, and a failed transfer counts as six zeros.
     */
    method ReadPressureTemperature(reply: Option<Frame>) returns (reading: Checked<Reading>, res: Status)
      modifies this`tFine
      ensures reading == Sample(calib, Delivered(reply)) && res == if reply.Some? then Success else BusError
      ensures reading.Defined? ==> tFine == TFine32(calib, RawTemperature(Delivered(reply))).value
    {
      var rawP, rawT;
      res, rawP, rawT := ReadUncompPressureTemperature(reply);
      var temperature := CompensateTemperatureInt32(rawT);
      if temperature.Undefined? {
        return Undefined, res;
      }
      var pressure := CompensatePressureInt32(rawP);
      if pressure.Undefined? {
        return Undefined, res;
      }
      reading := Defined(Reading(pressure.value, temperature.value));
    }

    method GetForcedUncompPressureTemperature(reply: Option<Frame>) returns (res: Status, rawP: s32, rawT: s32)
      modifies bus
      ensures View() == Step(old(View()), TriggerForced)
      ensures res == Success <==> Report(old(View()), TriggerForced) == Success && reply.Some?
      ensures rawP == RawPressure(Delivered(reply)) && rawT == RawTemperature(Delivered(reply))
    {
      var data := ControlByte(oversampTemperature, oversampPressure, FORCED_MODE);
      res := bus.Write(CTRL_MEAS_REG, data);
      var res2;
      res2, rawP, rawT := ReadUncompPressureTemperature(reply);
      if res == Success {
        res := res2;
      }
    }

    method GetCalibParam(reply: Option<CalibBytes>) returns (res: Status)
      modifies this`calib
      ensures res == if reply.Some? then Success else BusError
      ensures calib == DecodeCalib(if reply.Some? then reply.value else NO_CALIB)
    {
      var data := NO_CALIB;
      if reply.Some? {
        data := reply.value;
      }
      calib := DecodeCalib(data);
      res := if reply.Some? then Success else BusError;
    }

    /**
     `ids` are the outcomes of the five reads of the chip id, `None` for a failed one. The
     trimming values are read exactly when one of the five shows a known chip.
     */
    method Init(ids: seq<Option<u8>>, reply: Option<CalibBytes>) returns (res: Status)
      requires |ids| == CHIP_ID_READ_COUNT
      modifies this`chipId, this`calib
      ensures res == Success <==> reply.Some? && exists i | 0 <= i < 5 :: ids[i].Some? && 0x56 <= ids[i].value <= 0x58
      ensures 0x56 <= chipId <= 0x58 <==> exists i | 0 <= i < 5 :: ids[i].Some? && 0x56 <= ids[i].value <= 0x58
      ensures forall i | 0 <= i < 5 && ids[i].Some? && 0x56 <= ids[i].value <= 0x58 ::
        (forall j | 0 <= j < i :: ids[j].Some? ==> !(0x56 <= ids[j].value <= 0x58)) ==> chipId == ids[i].value
      ensures calib == CalibAfterInit(old(calib), ids, reply)
    {
      var data: u8 := 0;
      var count := CHIP_ID_READ_COUNT;
      while count > 0
        invariant 0 <= count <= CHIP_ID_READ_COUNT
        invariant forall j | 0 <= j < CHIP_ID_READ_COUNT - count :: !Shows(ids[j])
        invariant !KnownChip(data)
      {
        var id := ids[CHIP_ID_READ_COUNT - count];
        if id.Some? {
          data := id.value;
        }
        if KnownChip(data) {
          break;
        }
        count := count - 1;
      }
      chipId := data;
      if count == 0 {
        return BusError;
      }
      res := GetCalibParam(reply);
    }
  }
}
