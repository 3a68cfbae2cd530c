/**
 What the driver's configuration calls do to the sensor's two control registers and to the
 oversampling codes that the driver caches, over a bus that may fail.
 */
module Registers {
  import opened Machine
  import opened BitSlice

  // ---- state and calls

  /**
   `script` holds the outcomes of the bus transactions to come, `true` for success;
   transactions beyond its end succeed. `resetCtrl` and `resetConfig` are what a reset leaves
   in the registers.
   */
  datatype State = State(
    ctrl: u8, config: u8, cacheT: u8, cacheP: u8,
    script: seq<bool>, resetCtrl: u8, resetConfig: u8)

  datatype Status = Success | BusError | OutOfRange

  datatype Call =
    | GetOversampTemperature
    | SetOversampTemperature(value: u8)
    | GetOversampPressure
    | SetOversampPressure(value: u8)
    | SetPowerMode(value: u8)
    | SetWorkMode(value: u8)
    | TriggerForced
    | ReadRegister
    | SetSpi3Enable(value: u8)
    | SetFilterCoeff(value: u8)
    | SetStandbyDurn(value: u8)
    | SoftReset
    | WriteRegister(addr: u8, value: u8)

  const RST_REG: u8 := 0xE0
  const CTRL_MEAS_REG: u8 := 0xF4
  const CONFIG_REG: u8 := 0xF5
  const SOFT_RESET_CODE: u8 := 0xB6
  const FORCED_MODE: u8 := 0x01
  const NORMAL_MODE: u8 := 0x03
  const ULTRA_HIGH_RESOLUTION_MODE: u8 := 0x04

  /** Whether the next transaction succeeds, and the state once it is over. */
  predicate NextOk(s: State) {
    s.script == [] || s.script[0]
  }

  function Spend(s: State): State {
    if s.script == [] then s else s.(script := s.script[1..])
  }

  /** One write transaction of one byte. */
  function Write(s: State, addr: u8, value: u8): State {
    var s' := Spend(s);
    if !NextOk(s) then s'
    else if addr == CTRL_MEAS_REG then s'.(ctrl := value)
    else if addr == CONFIG_REG then s'.(config := value)
    else if addr == RST_REG && value == SOFT_RESET_CODE then s'.(ctrl := s.resetCtrl, config := s.resetConfig)
    else s'
  }

  /** A write that follows a read: made only when the read succeeds. */
  function Rewrite(s: State, addr: u8, value: u8): State {
    if NextOk(s) then Write(Spend(s), addr, value) else Spend(s)
  }

  function OneStatus(s: State): Status {
    if NextOk(s) then Success else BusError
  }

  function TwoStatus(s: State): Status {
    if NextOk(s) then OneStatus(Spend(s)) else BusError
  }

  /** The oversampling codes of a work mode: temperature, pressure. */
  function WorkModeCodes(mode: u8): (u8, u8)
    requires mode <= ULTRA_HIGH_RESOLUTION_MODE
  {
    if mode == 4 then (2, 5) else (1, mode + 1)
  }

  function Step(s: State, call: Call): State {
    match call
    case GetOversampTemperature => Spend(s).(cacheT := if NextOk(s) then OsrsT(s.ctrl) else 0)
    case SetOversampTemperature(v) =>
      var s' := Rewrite(s, CTRL_MEAS_REG, SetOsrsT(s.ctrl, v));
      if NextOk(s) then s'.(cacheT := v) else s'
    case GetOversampPressure => Spend(s).(cacheP := if NextOk(s) then OsrsP(s.ctrl) else 0)
    case SetOversampPressure(v) =>
      var s' := Rewrite(s, CTRL_MEAS_REG, SetOsrsP(s.ctrl, v));
      if NextOk(s) then s'.(cacheP := v) else s'
    case SetPowerMode(v) =>
      if v <= NORMAL_MODE then Write(s, CTRL_MEAS_REG, ControlByte(s.cacheT, s.cacheP, v)) else s
    case SetWorkMode(v) =>
      if v > ULTRA_HIGH_RESOLUTION_MODE then s
      else
        var (t, p) := WorkModeCodes(v);
        var s' := Rewrite(s, CTRL_MEAS_REG, SetOsrsP(SetOsrsT(s.ctrl, t), p));
        if NextOk(s) then s'.(cacheT := t, cacheP := p) else s'
    case TriggerForced => Write(s, CTRL_MEAS_REG, ControlByte(s.cacheT, s.cacheP, FORCED_MODE))
    case ReadRegister => Spend(s)
    case SetSpi3Enable(v) => Rewrite(s, CONFIG_REG, SetSpi3(s.config, v))
    case SetFilterCoeff(v) => Rewrite(s, CONFIG_REG, SetFilter(s.config, v))
    case SetStandbyDurn(v) => Rewrite(s, CONFIG_REG, SetStandby(s.config, v))
    case SoftReset => Write(s, RST_REG, SOFT_RESET_CODE)
    case WriteRegister(addr, v) => Write(s, addr, v)
  }

  /** What the call reports. */
  function Report(s: State, call: Call): Status {
    match call
    case SetOversampTemperature(_) => TwoStatus(s)
    case SetOversampPressure(_) => TwoStatus(s)
    case SetPowerMode(v) => if v <= NORMAL_MODE then OneStatus(s) else OutOfRange
    case SetWorkMode(v) => if v <= ULTRA_HIGH_RESOLUTION_MODE then TwoStatus(s) else OutOfRange
    case SetSpi3Enable(_) => TwoStatus(s)
    case SetFilterCoeff(_) => TwoStatus(s)
    case SetStandbyDurn(_) => TwoStatus(s)
    case _ => OneStatus(s)
  }

  function Run(s: State, calls: seq<Call>): State
    decreases |calls|
  {
    if calls == [] then s else Run(Step(s, calls[0]), calls[1..])
  }

  predicate FaultFree(s: State) {
    forall i | 0 <= i < |s.script| :: s.script[i]
  }

  // ---- refinement of a record of settings

  datatype Settings = Settings(osrsT: u8, osrsP: u8, mode: u8, standby: u8, filter: u8, spi3: u8)

  function Abstract(s: State): Settings {
    Settings(OsrsT(s.ctrl), OsrsP(s.ctrl), Mode(s.ctrl), Standby(s.config), Filter(s.config), Spi3(s.config))
  }

  /** The cached codes are those in the control register. */
  predicate Coherent(s: State) {
    s.cacheT == OsrsT(s.ctrl) && s.cacheP == OsrsP(s.ctrl)
  }

  /** Calls whose codes fit their three bits, and that neither reset the sensor nor write a register raw. */
  predicate Ordinary(call: Call) {
    match call
    case SetOversampTemperature(v) => v < 8
    case SetOversampPressure(v) => v < 8
    case SoftReset => false
    case WriteRegister(_, _) => false
    case _ => true
  }

  /** What a call means: an update of one setting, or of the two codes that a work mode names. */
  function Meaning(a: Settings, call: Call): Settings {
    match call
    case SetOversampTemperature(v) => a.(osrsT := v)
    case SetOversampPressure(v) => a.(osrsP := v)
    case SetPowerMode(v) => if v <= NORMAL_MODE then a.(mode := v) else a
    case SetWorkMode(v) =>
      if v <= ULTRA_HIGH_RESOLUTION_MODE then a.(osrsT := WorkModeCodes(v).0, osrsP := WorkModeCodes(v).1) else a
    case TriggerForced => a.(mode := FORCED_MODE)
    case SetSpi3Enable(v) => a.(spi3 := v % 2)
    case SetFilterCoeff(v) => a.(filter := v % 8)
    case SetStandbyDurn(v) => a.(standby := v % 8)
    case _ => a
  }

  function Meanings(a: Settings, calls: seq<Call>): Settings
    decreases |calls|
  {
    if calls == [] then a else Meanings(Meaning(a, calls[0]), calls[1..])
  }

  /** The bit-level facts that one call needs. */
  lemma StepFacts(s: State, call: Call)
    ensures OsrsT(s.ctrl) < 8 && OsrsP(s.ctrl) < 8 && Mode(s.ctrl) < 4
    ensures match call
      case SetOversampTemperature(v) =>
        var r := SetOsrsT(s.ctrl, v);
        OsrsT(r) == v % 8 && OsrsP(r) == OsrsP(s.ctrl) && Mode(r) == Mode(s.ctrl)
      case SetOversampPressure(v) =>
        var r := SetOsrsP(s.ctrl, v);
        OsrsT(r) == OsrsT(s.ctrl) && OsrsP(r) == v % 8 && Mode(r) == Mode(s.ctrl)
      case SetPowerMode(v) => v <= NORMAL_MODE ==>
        var r := ControlByte(s.cacheT, s.cacheP, v);
        Mode(r) == v && (s.cacheT < 8 && s.cacheP < 8 ==> OsrsT(r) == s.cacheT && OsrsP(r) == s.cacheP)
      case TriggerForced =>
        var r := ControlByte(s.cacheT, s.cacheP, FORCED_MODE);
        Mode(r) == 1 && (s.cacheT < 8 && s.cacheP < 8 ==> OsrsT(r) == s.cacheT && OsrsP(r) == s.cacheP)
      case SetWorkMode(v) => v <= ULTRA_HIGH_RESOLUTION_MODE ==>
        var (t, p) := WorkModeCodes(v);
        var r := SetOsrsP(SetOsrsT(s.ctrl, t), p);
        OsrsT(r) == t && OsrsP(r) == p && Mode(r) == Mode(s.ctrl)
      case SetSpi3Enable(v) =>
        var r := SetSpi3(s.config, v);
        Spi3(r) == v % 2 && Filter(r) == Filter(s.config) && Standby(r) == Standby(s.config)
        && Unused(r) == Unused(s.config)
      case SetFilterCoeff(v) =>
        var r := SetFilter(s.config, v);
        Spi3(r) == Spi3(s.config) && Filter(r) == v % 8 && Standby(r) == Standby(s.config)
        && Unused(r) == Unused(s.config)
      case SetStandbyDurn(v) =>
        var r := SetStandby(s.config, v);
        Spi3(r) == Spi3(s.config) && Filter(r) == Filter(s.config) && Standby(r) == v % 8
        && Unused(r) == Unused(s.config)
      case _ => true
  {
    hide OsrsT, OsrsP, Mode, Standby, Filter, Spi3, Unused;
    hide SetOsrsT, SetOsrsP, SetStandby, SetFilter, SetSpi3, ControlByte;
    FieldRanges(s.ctrl);
    match call
    case SetOversampTemperature(v) => OsrsTSet(s.ctrl, v);
    case SetOversampPressure(v) => OsrsPSet(s.ctrl, v);
    case SetPowerMode(v) => if v <= NORMAL_MODE { ControlByteFields(s.cacheT, s.cacheP, v); }
    case TriggerForced => ControlByteFields(s.cacheT, s.cacheP, FORCED_MODE);
    case SetWorkMode(v) =>
      if v <= ULTRA_HIGH_RESOLUTION_MODE {
        var (t, p) := WorkModeCodes(v);
        OsrsTSet(s.ctrl, t);
        OsrsPSet(SetOsrsT(s.ctrl, t), p);
      }
    case SetSpi3Enable(v) => Spi3Set(s.config, v);
    case SetFilterCoeff(v) => FilterSet(s.config, v);
    case SetStandbyDurn(v) => StandbySet(s.config, v);
    case _ =>
  }

  lemma StepRefines(s: State, call: Call)
    requires Coherent(s) && FaultFree(s) && Ordinary(call)
    ensures Abstract(Step(s, call)) == Meaning(Abstract(s), call)
    ensures Coherent(Step(s, call)) && FaultFree(Step(s, call))
  {
    hide OsrsT, OsrsP, Mode, Standby, Filter, Spi3, Unused;
    hide SetOsrsT, SetOsrsP, SetStandby, SetFilter, SetSpi3, ControlByte;
    StepFacts(s, call);
  }

  lemma {:induction false} RunRefines(s: State, calls: seq<Call>)
    requires Coherent(s) && FaultFree(s) && forall call <- calls :: Ordinary(call)
    ensures Abstract(Run(s, calls)) == Meanings(Abstract(s), calls)
    ensures Coherent(Run(s, calls))
    decreases |calls|
  {
    hide Coherent, Abstract, Step, Meaning;
    if calls != [] {
      StepRefines(s, calls[0]);
      RunRefines(Step(s, calls[0]), calls[1..]);
    }
  }

  // ---- each call in plain numbers

  /** What a call reports, and how much of the script it uses up: two transactions only if the first succeeds. */
  lemma ReportExactly(s: State, call: Call)
    ensures Report(s, call) == OutOfRange <==>
      (call.SetPowerMode? && call.value > 3) || (call.SetWorkMode? && call.value > 4)
    ensures Report(s, call) != OutOfRange ==>
      var pair := call.SetOversampTemperature? || call.SetOversampPressure? || call.SetWorkMode?
        || call.SetSpi3Enable? || call.SetFilterCoeff? || call.SetStandbyDurn?;
      && (Report(s, call) == Success <==> forall i: nat | i < |s.script| && i < (if pair then 2 else 1) :: s.script[i])
      && Step(s, call).script ==
        if |s.script| >= 2 && pair && s.script[0] then s.script[2..]
        else if |s.script| >= 1 then s.script[1..]
        else []
    ensures Report(s, call) == OutOfRange ==> Step(s, call) == s
  {
    hide OsrsT, OsrsP, SetOsrsT, SetOsrsP, SetStandby, SetFilter, SetSpi3, ControlByte;
    if |s.script| >= 2 {
      assert s.script[1..][0] == s.script[1] && s.script[1..][1..] == s.script[2..];
    }
  }

  /** A call that reports success, on registers and cached codes as numbers. */
  lemma SuccessfulStep(s: State, call: Call)
    requires Report(s, call) == Success
    ensures var s' := Step(s, call);
      var (ctrl, config, cacheT, cacheP) := (s'.ctrl, s'.config, s'.cacheT, s'.cacheP);
      && s' == s.(ctrl := ctrl, config := config, cacheT := cacheT, cacheP := cacheP, script := s'.script)
      && (call.GetOversampTemperature? || call.SetOversampTemperature? || call.SetWorkMode? || cacheT == s.cacheT)
      && (call.GetOversampPressure? || call.SetOversampPressure? || call.SetWorkMode? || cacheP == s.cacheP)
      && (call.SetSpi3Enable? || call.SetFilterCoeff? || call.SetStandbyDurn? || call.SoftReset? || call.WriteRegister?
          || config == s.config)
      && match call
         case GetOversampTemperature => ctrl == s.ctrl && cacheT == s.ctrl / 32
         case SetOversampTemperature(v) => ctrl == s.ctrl % 32 + v % 8 * 32 && cacheT == v
         case GetOversampPressure => ctrl == s.ctrl && cacheP == s.ctrl / 4 % 8
         case SetOversampPressure(v) => ctrl == s.ctrl - s.ctrl / 4 % 8 * 4 + v % 8 * 4 && cacheP == v
         case SetPowerMode(v) => v <= 3 && ctrl == (32 * s.cacheT + 4 * s.cacheP + v) % 0x100
         case SetWorkMode(v) =>
           v <= 4 && cacheT == (if v == 4 then 2 else 1) && cacheP == v + 1
           && ctrl == s.ctrl % 4 + 4 * cacheP + 32 * cacheT
         case TriggerForced => ctrl == (32 * s.cacheT + 4 * s.cacheP + 1) % 0x100
         case ReadRegister => ctrl == s.ctrl
         case SetSpi3Enable(v) => ctrl == s.ctrl && config == s.config - s.config % 2 + v % 2
         case SetFilterCoeff(v) => ctrl == s.ctrl && config == s.config - s.config / 4 % 8 * 4 + v % 8 * 4
         case SetStandbyDurn(v) => ctrl == s.ctrl && config == s.config % 32 + v % 8 * 32
         case SoftReset => ctrl == s.resetCtrl && config == s.resetConfig
         case WriteRegister(addr, v) =>
           var reset := addr == 0xE0 && v == 0xB6;
           && ctrl == (if addr == 0xF4 then v else if reset then s.resetCtrl else s.ctrl)
           && config == (if addr == 0xF5 then v else if reset then s.resetConfig else s.config)
  {
    hide OsrsT, OsrsP, SetOsrsT, SetOsrsP, SetStandby, SetFilter, SetSpi3, ControlByte;
    NumbersOfCall(s, call);
  }

  lemma NumbersOfCall(s: State, call: Call)
    ensures OsrsT(s.ctrl) == s.ctrl / 32 && OsrsP(s.ctrl) == s.ctrl / 4 % 8
    ensures match call
      case SetOversampTemperature(v) => SetOsrsT(s.ctrl, v) == s.ctrl % 32 + v % 8 * 32
      case SetOversampPressure(v) => SetOsrsP(s.ctrl, v) == s.ctrl - s.ctrl / 4 % 8 * 4 + v % 8 * 4
      case SetPowerMode(v) => ControlByte(s.cacheT, s.cacheP, v) == (32 * s.cacheT + 4 * s.cacheP + v) % 0x100
      case SetWorkMode(v) => v <= 4 ==>
        var (t, p) := if v == 4 then (2, 5) else (1, v + 1);
        SetOsrsP(SetOsrsT(s.ctrl, t), p) == s.ctrl % 4 + 4 * p + 32 * t
      case TriggerForced => ControlByte(s.cacheT, s.cacheP, 1) == (32 * s.cacheT + 4 * s.cacheP + 1) % 0x100
      case SetSpi3Enable(v) => SetSpi3(s.config, v) == s.config - s.config % 2 + v % 2
      case SetFilterCoeff(v) => SetFilter(s.config, v) == s.config - s.config / 4 % 8 * 4 + v % 8 * 4
      case SetStandbyDurn(v) => SetStandby(s.config, v) == s.config % 32 + v % 8 * 32
      case _ => true
  {
    hide OsrsT, OsrsP, SetOsrsT, SetOsrsP, SetStandby, SetFilter, SetSpi3, ControlByte;
    ControlFieldsAt(s.ctrl);
    match call
    case SetOversampTemperature(v) => OsrsTSetTo(s.ctrl, v);
    case SetOversampPressure(v) => OsrsPSetTo(s.ctrl, v);
    case SetPowerMode(v) => ControlByteIs(s.cacheT, s.cacheP, v);
    case TriggerForced => ControlByteIs(s.cacheT, s.cacheP, 1);
    case SetWorkMode(v) =>
      if v <= 4 {
        var (t, p) := if v == 4 then (2, 5) else (1, v + 1);
        BothSetTo(s.ctrl, t, p);
      }
    case SetSpi3Enable(v) => Spi3SetTo(s.config, v);
    case SetFilterCoeff(v) => FilterSetTo(s.config, v);
    case SetStandbyDurn(v) => StandbySetTo(s.config, v);
    case _ =>
  }

  /**
   A call that reports a bus error changes no register. A failed getter caches 0, and an oversampling or
   work-mode setter whose read succeeded and whose write failed has cached its codes all the same.
   */
  lemma FailedStep(s: State, call: Call)
    requires Report(s, call) == BusError
    ensures |s.script| >= 1
    ensures var s' := Step(s, call).(script := s.script);
      match call
      case GetOversampTemperature => s' == s.(cacheT := 0)
      case GetOversampPressure => s' == s.(cacheP := 0)
      case SetOversampTemperature(v) => s' == if s.script[0] then s.(cacheT := v) else s
      case SetOversampPressure(v) => s' == if s.script[0] then s.(cacheP := v) else s
      case SetWorkMode(v) => s' ==
        if !s.script[0] then s
        else if v == 4 then s.(cacheT := 2, cacheP := 5)
        else s.(cacheT := 1, cacheP := v + 1)
      case _ => s' == s
  {
    hide OsrsT, OsrsP, SetOsrsT, SetOsrsP, SetStandby, SetFilter, SetSpi3, ControlByte;
  }

  // ---- coherence over a failing bus

  predicate CodesFit(s: State) {
    s.cacheT < 8 && s.cacheP < 8
  }

  predicate CodesInCallFit(call: Call) {
    match call
    case SetOversampTemperature(v) => v < 8
    case SetOversampPressure(v) => v < 8
    case _ => true
  }

  /** A call that rebuilds the control byte from the cache, or sets both, and whose transactions all succeed. */
  predicate Restores(s: State, call: Call) {
    (call.SetPowerMode? || call.SetWorkMode? || call.TriggerForced?) && Report(s, call) == Success
  }

  /** The codes that a successful write of `value` at `addr` leaves in the control register. */
  function CodesAfter(s: State, addr: u8, value: u8): (u8, u8) {
    if addr == CTRL_MEAS_REG then (OsrsT(value), OsrsP(value))
    else if addr == RST_REG && value == SOFT_RESET_CODE then (OsrsT(s.resetCtrl), OsrsP(s.resetCtrl))
    else (OsrsT(s.ctrl), OsrsP(s.ctrl))
  }

  /** The ways in which a call can leave a coherent driver incoherent. */
  predicate Breaks(s: State, call: Call) {
    match call
    case GetOversampTemperature => !NextOk(s) && s.cacheT != 0
    case GetOversampPressure => !NextOk(s) && s.cacheP != 0
    case SetOversampTemperature(v) => NextOk(s) && (v >= 8 || (!NextOk(Spend(s)) && v != s.cacheT))
    case SetOversampPressure(v) => NextOk(s) && (v >= 8 || (!NextOk(Spend(s)) && v != s.cacheP))
    case SetWorkMode(v) =>
      v <= ULTRA_HIGH_RESOLUTION_MODE && NextOk(s) && !NextOk(Spend(s)) && WorkModeCodes(v) != (s.cacheT, s.cacheP)
    case SoftReset => NextOk(s) && CodesAfter(s, RST_REG, SOFT_RESET_CODE) != (s.cacheT, s.cacheP)
    case WriteRegister(addr, v) => NextOk(s) && CodesAfter(s, addr, v) != (s.cacheT, s.cacheP)
    case _ => false
  }

  /** A call loses coherence exactly when it is one of the breaking ones. */
  lemma CoherenceStep(s: State, call: Call)
    requires Coherent(s)
    ensures Coherent(Step(s, call)) <==> !Breaks(s, call)
  {
    hide OsrsT, OsrsP, Mode, Standby, Filter, Spi3, Unused;
    hide SetOsrsT, SetOsrsP, SetStandby, SetFilter, SetSpi3, ControlByte;
    StepFacts(s, call);
  }

  /**
   A successful restoring call ends in agreement exactly when the cached codes fit their three bits; a
   work mode sets both codes and does so from any cache.
   */
  lemma RestoresCoherence(s: State, call: Call)
    requires Restores(s, call)
    ensures Coherent(Step(s, call)) <==> CodesFit(s) || call.SetWorkMode?
  {
    hide OsrsT, OsrsP, Mode, Standby, Filter, Spi3, Unused;
    hide SetOsrsT, SetOsrsP, SetStandby, SetFilter, SetSpi3, ControlByte;
    StepFacts(s, call);
    FieldRanges(Step(s, call).ctrl);
  }

  lemma CodesStayFit(s: State, call: Call)
    requires CodesFit(s) && CodesInCallFit(call)
    ensures CodesFit(Step(s, call))
  {
    hide OsrsT, OsrsP, Mode, Standby, Filter, Spi3, Unused;
    hide SetOsrsT, SetOsrsP, SetStandby, SetFilter, SetSpi3, ControlByte;
    StepFacts(s, call);
  }

  /** The state before call `i` of a run. */
  function Before(s: State, calls: seq<Call>, i: nat): State
    requires i <= |calls|
  {
    Run(s, calls[..i])
  }

  lemma {:induction false} BeforeStep(s: State, calls: seq<Call>, i: nat)
    requires i < |calls|
    ensures Before(s, calls, i + 1) == Step(Before(s, calls, i), calls[i])
    decreases |calls|
  {
    hide Step;
    assert calls[..i + 1][0] == calls[0] && calls[..i + 1][1..] == calls[1..][..i];
    if i == 0 {
      assert calls[..0] == [] && calls[..1] == [calls[0]];
      RunOne(s, calls[0]);
    } else {
      assert calls[..i][1..] == calls[1..][..i - 1];
      BeforeStep(Step(s, calls[0]), calls[1..], i - 1);
    }
  }

  lemma {:induction false} CodesFitThroughout(s: State, calls: seq<Call>, i: nat)
    requires CodesFit(s) && i <= |calls| && forall call <- calls :: CodesInCallFit(call)
    ensures CodesFit(Before(s, calls, i))
  {
    hide Step, CodesFit;
    if i == 0 {
      assert Before(s, calls, 0) == s;
    } else {
      CodesFitThroughout(s, calls, i - 1);
      BeforeStep(s, calls, i - 1);
      CodesStayFit(Before(s, calls, i - 1), calls[i - 1]);
    }
  }

  /** If no call from the `i`-th on breaks coherence, it lasts to the end of the run. */
  lemma {:induction false} CoherenceLasts(s: State, calls: seq<Call>, i: nat)
    requires i <= |calls| && Coherent(Before(s, calls, i))
    requires forall j | i <= j < |calls| :: !Breaks(Before(s, calls, j), calls[j])
    ensures Coherent(Run(s, calls))
    decreases |calls| - i
  {
    if i == |calls| {
      assert calls[..i] == calls;
    } else {
      hide Step, Coherent, Breaks, Before;
      BeforeStep(s, calls, i);
      CoherenceStep(Before(s, calls, i), calls[i]);
      CoherenceLasts(s, calls, i + 1);
    }
  }

  /** Whatever the bus does, a coherent driver becomes incoherent only through a breaking call. */
  lemma IncoherenceHasACause(s: State, calls: seq<Call>)
    requires Coherent(s) && !Coherent(Run(s, calls))
    ensures exists i | 0 <= i < |calls| :: Breaks(Before(s, calls, i), calls[i])
  {
    assert Before(s, calls, 0) == s;
    if forall i | 0 <= i < |calls| :: !Breaks(Before(s, calls, i), calls[i]) {
      CoherenceLasts(s, calls, 0);
    }
  }

  /**
   One successful restoring call mends the driver, for as long as nothing breaks it again. That the cached
   codes fit at that point is what `CodesFitThroughout` gives for runs with three-bit arguments.
   */
  lemma RecoveryLasts(s: State, calls: seq<Call>, i: nat)
    requires i < |calls| && Restores(Before(s, calls, i), calls[i])
    requires CodesFit(Before(s, calls, i)) || calls[i].SetWorkMode?
    requires forall j | i < j < |calls| :: !Breaks(Before(s, calls, j), calls[j])
    ensures Coherent(Run(s, calls))
  {
    hide Step, Coherent, Breaks, Before, Restores, CodesFit;
    BeforeStep(s, calls, i);
    RestoresCoherence(Before(s, calls, i), calls[i]);
    CoherenceLasts(s, calls, i + 1);
  }

  /** A code of four bits spills: setting the mode from it changes the temperature code on the sensor. */
  lemma WideCodeCorrupts(s: State)
    requires Coherent(s) && FaultFree(s) && OsrsT(s.ctrl) == 0
    ensures var s' := Run(s, [SetOversampPressure(8), SetPowerMode(NORMAL_MODE)]);
      OsrsT(s'.ctrl) == 1 && OsrsP(s'.ctrl) == 0
  {
    hide OsrsT, OsrsP, ControlByte, SetOsrsP;
    WideCode();
    RunTwo(s, SetOversampPressure(8), SetPowerMode(NORMAL_MODE));
  }

  // ---- the config register over a failing bus

  datatype ConfigField = Spi3Field | FilterField | StandbyField

  function FieldOf(config: u8, f: ConfigField): u8 {
    match f
    case Spi3Field => Spi3(config)
    case FilterField => Filter(config)
    case StandbyField => Standby(config)
  }

  function Width(f: ConfigField): int {
    if f.Spi3Field? then 2 else 8
  }

  /** The value that the call is meant to store in the field, if any. */
  function Target(call: Call, f: ConfigField): Option<u8> {
    match call
    case SetSpi3Enable(v) => if f.Spi3Field? then Some(v) else None
    case SetFilterCoeff(v) => if f.FilterField? then Some(v) else None
    case SetStandbyDurn(v) => if f.StandbyField? then Some(v) else None
    case _ => None
  }

  /** The value of the last call for the field that reported success. */
  function LastStored(s: State, calls: seq<Call>, f: ConfigField): Option<u8>
    decreases |calls|
  {
    if calls == [] then None
    else
      var later := LastStored(Step(s, calls[0]), calls[1..], f);
      if later.Some? then later
      else if Report(s, calls[0]) == Success then Target(calls[0], f)
      else None
  }

  predicate LeavesRegistersAlone(call: Call) {
    !call.SoftReset? && !call.WriteRegister?
  }

  lemma ConfigStep(s: State, call: Call, f: ConfigField)
    requires LeavesRegistersAlone(call)
    ensures FieldOf(Step(s, call).config, f) ==
      if Report(s, call) == Success && Target(call, f).Some? then Target(call, f).value % Width(f)
      else FieldOf(s.config, f)
    ensures Unused(Step(s, call).config) == Unused(s.config)
  {
    hide OsrsT, OsrsP, Mode, Standby, Filter, Spi3, Unused;
    hide SetOsrsT, SetOsrsP, SetStandby, SetFilter, SetSpi3, ControlByte;
    StepFacts(s, call);
  }

  /**
   Over every run and every pattern of bus failures, each field of the config register holds
   the value last stored successfully, cut to the field's width, and bit 1 never changes.
   */
  lemma {:induction false} LastStoreWins(s: State, calls: seq<Call>, f: ConfigField)
    requires forall call <- calls :: LeavesRegistersAlone(call)
    ensures FieldOf(Run(s, calls).config, f) ==
      match LastStored(s, calls, f)
      case Some(v) => v % Width(f)
      case None => FieldOf(s.config, f)
    ensures Unused(Run(s, calls).config) == Unused(s.config)
    decreases |calls|
  {
    hide Step, FieldOf, Report, Target, Unused;
    if calls != [] {
      ConfigStep(s, calls[0], f);
      LastStoreWins(Step(s, calls[0]), calls[1..], f);
    }
  }

  predicate ConfigSetter(call: Call) {
    call.SetSpi3Enable? || call.SetFilterCoeff? || call.SetStandbyDurn?
  }

  function Changed(config: u8, call: Call): u8
    requires ConfigSetter(call)
  {
    match call
    case SetSpi3Enable(v) => SetSpi3(config, v)
    case SetFilterCoeff(v) => SetFilter(config, v)
    case SetStandbyDurn(v) => SetStandby(config, v)
  }

  lemma ChangesCommute(config: u8, a: Call, b: Call)
    requires ConfigSetter(a) && ConfigSetter(b)
    requires forall f :: Target(a, f).None? || Target(b, f).None?
    ensures Changed(Changed(config, a), b) == Changed(Changed(config, b), a)
  {
    hide SetStandby, SetFilter, SetSpi3;
    assert a.SetSpi3Enable? ==> Target(a, Spi3Field).Some?;
    assert a.SetFilterCoeff? ==> Target(a, FilterField).Some?;
    assert a.SetStandbyDurn? ==> Target(a, StandbyField).Some?;
    SetsCommute(config, a.value, b.value);
    SetsCommute(config, b.value, a.value);
  }

  lemma SetterStep(s: State, call: Call)
    requires FaultFree(s) && ConfigSetter(call)
    ensures Step(s, call) == Spend(Spend(s)).(config := Changed(s.config, call)) && FaultFree(Step(s, call))
  {
    hide SetStandby, SetFilter, SetSpi3;
  }

  /** Setters of different fields commute on a bus without faults. */
  lemma SettersCommute(s: State, a: Call, b: Call)
    requires FaultFree(s) && ConfigSetter(a) && ConfigSetter(b)
    requires forall f :: Target(a, f).None? || Target(b, f).None?
    ensures Run(s, [a, b]) == Run(s, [b, a])
  {
    hide Step, Changed, Target, FaultFree;
    RunTwo(s, a, b);
    RunTwo(s, b, a);
    SetterStep(s, a);
    SetterStep(Step(s, a), b);
    SetterStep(s, b);
    SetterStep(Step(s, b), a);
    ChangesCommute(s.config, a, b);
  }

  lemma RunTwo(s: State, a: Call, b: Call)
    ensures Run(s, [a, b]) == Step(Step(s, a), b)
  {
    hide Step;
    assert [a, b][1..] == [b] && [b][1..] == [];
    RunOne(Step(s, a), b);
  }

  lemma RunOne(s: State, a: Call)
    ensures Run(s, [a]) == Step(s, a)
  {
    assert [a][1..] == [];
    assert Run(Step(s, a), []) == Step(s, a);
  }
}
