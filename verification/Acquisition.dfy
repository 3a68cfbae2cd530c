/** `pressure.c`: configuring the sensor, and the loop that reads a pressure worth publishing. */
module Acquisition {
  import opened Machine
  import opened BitSlice
  import opened Calibration
  import opened Registers
  import opened Bmp280

  // ---- configuration

  const SETUP: seq<Call> := [
    SetPowerMode(NORMAL_MODE), SetOversampPressure(5), SetOversampTemperature(2), SetStandbyDurn(0), SetFilterCoeff(4)]

  function Setup(s: State): State {
    Run(s, SETUP)
  }

  function Reset(s: State): State {
    Setup(Step(s, SoftReset))
  }

  /** 16x pressure, 2x temperature, normal mode; 1 ms standby, filter 16. */
  predicate Configured(s: State) {
    s.ctrl == 0x57 && s.cacheP == 5 && s.cacheT == 2 && Standby(s.config) == 0 && Filter(s.config) == 4
  }

  /** Every call of the setup reports success. */
  predicate SetupSucceeds(s: State) {
    forall i | 0 <= i < |SETUP| :: Report(Before(s, SETUP, i), SETUP[i]) == Success
  }

  lemma SetupUnrolled(s: State)
    ensures var s1 := Step(s, SETUP[0]);
      var s2 := Step(s1, SETUP[1]);
      var s3 := Step(s2, SETUP[2]);
      var s4 := Step(s3, SETUP[3]);
      && Setup(s) == Step(s4, SETUP[4])
      && Before(s, SETUP, 0) == s && Before(s, SETUP, 1) == s1 && Before(s, SETUP, 2) == s2
      && Before(s, SETUP, 3) == s3 && Before(s, SETUP, 4) == s4
  {
    hide Step;
    assert SETUP[..0] == [] && SETUP[..5] == SETUP;
    BeforeStep(s, SETUP, 0);
    BeforeStep(s, SETUP, 1);
    BeforeStep(s, SETUP, 2);
    BeforeStep(s, SETUP, 3);
    BeforeStep(s, SETUP, 4);
  }

  /** The five calls of the setup, in their order. */
  lemma SetupIs(s: State)
    ensures Setup(s) ==
      Step(Step(Step(Step(Step(s, SetPowerMode(3)), SetOversampPressure(5)), SetOversampTemperature(2)),
        SetStandbyDurn(0)), SetFilterCoeff(4))
  {
    hide Step;
    SetupUnrolled(s);
  }

  /**
   From every register content and every cache content, a setup whose calls report success
   ends in the same configuration, and leaves the two bits of `config` that it does not own.
   */
  lemma SetupConverges(s: State)
    requires SetupSucceeds(s)
    ensures Configured(Setup(s))
    ensures Spi3(Setup(s).config) == Spi3(s.config) && Unused(Setup(s).config) == Unused(s.config)
    ensures Setup(s).ctrl == 0x57 && Setup(s).cacheT == 2 && Setup(s).cacheP == 5
    ensures Setup(s).config == s.config % 4 + 0x10
  {
    hide OsrsT, OsrsP, Mode, Standby, Filter, Spi3, Unused;
    hide SetOsrsT, SetOsrsP, SetStandby, SetFilter, SetSpi3, ControlByte;
    SetupUnrolled(s);
    var s1 := Step(s, SETUP[0]);
    var s2 := Step(s1, SETUP[1]);
    var s3 := Step(s2, SETUP[2]);
    var s4 := Step(s3, SETUP[3]);
    StepFacts(s, SETUP[0]);
    StepFacts(s1, SETUP[1]);
    StepFacts(s2, SETUP[2]);
    StepFacts(s3, SETUP[3]);
    StepFacts(s4, SETUP[4]);
    ControlFields(Setup(s).ctrl);
    ConfigFieldsAt(s.config);
    ConfigFieldsAt(Setup(s).config);
    Parts(s.config);
    Parts(Setup(s).config);
  }

  lemma FaultFreeStep(s: State, call: Call)
    requires FaultFree(s)
    ensures FaultFree(Step(s, call)) && (Report(s, call) == Success || Report(s, call) == OutOfRange)
  {
  }

  lemma FaultFreeSetup(s: State)
    requires FaultFree(s)
    ensures SetupSucceeds(s) && FaultFree(Setup(s))
  {
    SetupUnrolled(s);
    hide Step, FaultFree;
    FaultFreeStep(s, SETUP[0]);
    var s1 := Step(s, SETUP[0]);
    FaultFreeStep(s1, SETUP[1]);
    var s2 := Step(s1, SETUP[1]);
    FaultFreeStep(s2, SETUP[2]);
    var s3 := Step(s2, SETUP[2]);
    FaultFreeStep(s3, SETUP[3]);
    FaultFreeStep(Step(s3, SETUP[3]), SETUP[4]);
  }

  /** On a bus without faults a second setup changes nothing. */
  lemma SetupIdempotent(s: State)
    requires FaultFree(s)
    ensures Setup(Setup(s)).(script := Setup(s).script) == Setup(s)
  {
    FaultFreeSetup(s);
    FaultFreeSetup(Setup(s));
    SetupConverges(s);
    SetupConverges(Setup(s));
    FieldsDetermine(Setup(s).config, Setup(Setup(s)).config);
    SetupKeepsResetValues(s);
    SetupKeepsResetValues(Setup(s));
  }

  lemma SetupKeepsResetValues(s: State)
    ensures Setup(s).resetCtrl == s.resetCtrl && Setup(s).resetConfig == s.resetConfig
  {
    SetupUnrolled(s);
    hide Step, Setup;
    StepKeepsResetValues(s, SETUP[0]);
    var s1 := Step(s, SETUP[0]);
    StepKeepsResetValues(s1, SETUP[1]);
    var s2 := Step(s1, SETUP[1]);
    StepKeepsResetValues(s2, SETUP[2]);
    var s3 := Step(s2, SETUP[2]);
    StepKeepsResetValues(s3, SETUP[3]);
    StepKeepsResetValues(Step(s3, SETUP[3]), SETUP[4]);
  }

  lemma StepKeepsResetValues(s: State, call: Call)
    ensures Step(s, call).resetCtrl == s.resetCtrl && Step(s, call).resetConfig == s.resetConfig
  {
    hide OsrsT, OsrsP, SetOsrsT, SetOsrsP, SetStandby, SetFilter, SetSpi3, ControlByte;
  }

  /**
   A reset ends in the same configuration too, whatever the sensor held; the two bits that the setup does
   not own are those that the sensor's reset leaves, not those from before.
   */
  lemma ResetConverges(s: State)
    requires FaultFree(s)
    ensures Configured(Reset(s)) && FaultFree(Reset(s))
    ensures Reset(s).ctrl == 0x57 && Reset(s).cacheT == 2 && Reset(s).cacheP == 5
    ensures Reset(s).config == s.resetConfig % 4 + 0x10
    ensures Spi3(Reset(s).config) == Spi3(s.resetConfig) && Unused(Reset(s).config) == Unused(s.resetConfig)
  {
    FaultFreeStep(s, SoftReset);
    FaultFreeSetup(Step(s, SoftReset));
    SetupConverges(Step(s, SoftReset));
  }

  /** A reset forgets what came before: only what the sensor's reset leaves decides where it ends. */
  lemma ResetForgets(s: State, s': State)
    requires FaultFree(s) && FaultFree(s') && s.resetCtrl == s'.resetCtrl && s.resetConfig == s'.resetConfig
    ensures Reset(s).(script := []) == Reset(s').(script := [])
  {
    hide Reset, FaultFree, Configured;
    ResetConverges(s);
    ResetConverges(s');
    ResetKeepsResetValues(s);
    ResetKeepsResetValues(s');
  }

  lemma ResetKeepsResetValues(s: State)
    ensures Reset(s).resetCtrl == s.resetCtrl && Reset(s).resetConfig == s.resetConfig
  {
    hide Setup, Step;
    StepKeepsResetValues(s, SoftReset);
    SetupKeepsResetValues(Step(s, SoftReset));
  }

  /** On a bus without faults a setup makes nine transactions and a reset ten. */
  lemma SetupSpends(s: State)
    requires FaultFree(s)
    ensures |Setup(s).script| == if |s.script| >= 9 then |s.script| - 9 else 0
    ensures |Reset(s).script| == if |s.script| >= 10 then |s.script| - 10 else 0
  {
    FiveCallsSpend(s);
    FaultFreeStep(s, SoftReset);
    FiveCallsSpend(Step(s, SoftReset));
    StepSpends(s, SoftReset, 1);
  }

  lemma StepSpends(s: State, call: Call, n: nat)
    requires FaultFree(s) && Report(s, call) == Success
    requires n == if call.SetOversampTemperature? || call.SetOversampPressure? || call.SetWorkMode?
      || call.SetSpi3Enable? || call.SetFilterCoeff? || call.SetStandbyDurn? then 2 else 1
    ensures |Step(s, call).script| == if |s.script| >= n then |s.script| - n else 0
  {
    hide Step, Report;
    ReportExactly(s, call);
  }

  lemma FiveCallsSpend(s: State)
    requires FaultFree(s)
    ensures |Setup(s).script| == if |s.script| >= 9 then |s.script| - 9 else 0
  {
    SetupUnrolled(s);
    FaultFreeSetup(s);
    hide Step, Report, FaultFree, Setup;
    var s1 := Step(s, SETUP[0]);
    var s2 := Step(s1, SETUP[1]);
    var s3 := Step(s2, SETUP[2]);
    var s4 := Step(s3, SETUP[3]);
    FaultFreeStep(s, SETUP[0]);
    FaultFreeStep(s1, SETUP[1]);
    FaultFreeStep(s2, SETUP[2]);
    FaultFreeStep(s3, SETUP[3]);
    StepSpends(s, SETUP[0], 1);
    StepSpends(s1, SETUP[1], 2);
    StepSpends(s2, SETUP[2], 2);
    StepSpends(s3, SETUP[3], 2);
    StepSpends(s4, SETUP[4], 2);
  }

  method PressureSetup(d: Driver)
    modifies d, d.bus
    ensures d.View() == Setup(old(d.View()))
    ensures d.calib == old(d.calib)
  {
    ghost var s := d.View();
    SetupUnrolled(s);
    var res := d.SetPowerMode(NORMAL_MODE);
    res := d.SetOversampPressure(5);
    res := d.SetOversampTemperature(2);
    res := d.SetStandbyDurn(0);
    res := d.SetFilter(4);
  }

  method PressureReset(d: Driver)
    modifies d, d.bus
    ensures d.View() == Reset(old(d.View()))
    ensures d.calib == old(d.calib)
  {
    var res := d.SetSoftRst();
    PressureSetup(d);
  }

  method PressureInit(d: Driver, ids: seq<Option<u8>>, reply: Option<CalibBytes>)
    requires |ids| == CHIP_ID_READ_COUNT
    modifies d, d.bus
    ensures d.View() == Setup(old(d.View()))
    ensures d.calib == CalibAfterInit(old(d.calib), ids, reply)
  {
    var res := d.Init(ids, reply);
    PressureSetup(d);
  }

  // ---- the reading loop

  /**
   What one round meets: the reading, the second raw reading of a failed round, and the values the
   machine goes on with if the arithmetic of the reading overflows. C promises nothing about those.
   */
  datatype Poll = Poll(first: Option<Frame>, second: Option<Frame>, overflowed: Reading)

  datatype Verdict = Accept(pressure: u32) | TooLow | Retry(stuck: bool)

  const STUCK: int := 0x8_0000

  function Outcome(c: Calib, poll: Poll): Reading {
    match Sample(c, Delivered(poll.first))
    case Defined(reading) => reading
    case Undefined => poll.overflowed
  }

  function Judge(c: Calib, poll: Poll): Verdict {
    var r := Outcome(c, poll);
    if r.pressure != 0 && r.temperature != 0 && r.temperature != 2323 then
      if r.pressure < 75000 then TooLow else Accept(r.pressure)
    else
      var f := Delivered(poll.second);
      Retry(RawPressure(f) == STUCK && RawTemperature(f) == STUCK)
  }

  predicate Demands(v: Verdict) {
    v.TooLow? || (v.Retry? && v.stuck)
  }

  function Resets(c: Calib, polls: seq<Poll>): nat {
    if polls == [] then 0
    else Resets(c, polls[..|polls| - 1]) + if Demands(Judge(c, polls[|polls| - 1])) then 1 else 0
  }

  function AfterResets(s: State, n: nat): State {
    if n == 0 then s else Reset(AfterResets(s, n - 1))
  }

  /**
   What decides a round, in the numbers it read: a pressure from 75000 Pa on at a temperature other than 0
   and 2323 is accepted, a lower one resets the sensor, and so does a round that read a zero or 2323 and
   then 524288 twice.
   */
  lemma JudgeExactly(c: Calib, poll: Poll, r: Reading)
    requires r == Outcome(c, poll)
    ensures Sample(c, Delivered(poll.first)).Defined? ==> r == Sample(c, Delivered(poll.first)).value
    ensures Sample(c, Delivered(poll.first)).Undefined? ==> r == poll.overflowed
    ensures Judge(c, poll).Accept? <==> r.pressure >= 75000 && r.temperature != 0 && r.temperature != 2323
    ensures Judge(c, poll).Accept? ==> Judge(c, poll).pressure == r.pressure
    ensures var second := Delivered(poll.second);
      Demands(Judge(c, poll)) <==>
        (0 < r.pressure < 75000 && r.temperature != 0 && r.temperature != 2323)
        || ((r.pressure == 0 || r.temperature == 0 || r.temperature == 2323)
            && RawPressure(second) == 524288 && RawTemperature(second) == 524288)
  {
    hide Sample, RawPressure, RawTemperature;
  }

  /** The resets made are as many as the rounds that called for one. */
  lemma {:induction false} ResetsCountRounds(c: Calib, polls: seq<Poll>)
    ensures Resets(c, polls) == |set i: nat | i < |polls| && Demands(Judge(c, polls[i]))|
  {
    hide Judge, Demands;
    var rounds := set i: nat | i < |polls| && Demands(Judge(c, polls[i]));
    if polls == [] {
      assert rounds == {};
    } else {
      var n := |polls| - 1;
      ResetsCountRounds(c, polls[..n]);
      var before := set i: nat | i < |polls[..n]| && Demands(Judge(c, polls[..n][i]));
      if Demands(Judge(c, polls[n])) {
        assert rounds == before + {n};
      } else {
        assert rounds == before;
      }
    }
  }

  /**
   On a bus without faults the sensor is configured in every round, after however many resets; the setup
   has made nine transactions and every reset ten.
   */
  lemma {:induction false} ConfiguredThroughout(s: State, n: nat)
    requires FaultFree(s)
    ensures var s' := AfterResets(Setup(s), n);
      && Configured(s') && FaultFree(s') && s'.ctrl == 0x57 && s'.cacheT == 2 && s'.cacheP == 5
      && s'.config == (if n == 0 then s.config else s.resetConfig) % 4 + 0x10
      && s'.resetConfig == s.resetConfig
      && |s'.script| == if |s.script| >= 9 + 10 * n then |s.script| - (9 + 10 * n) else 0
  {
    hide Configured, FaultFree, Setup, Reset;
    if n == 0 {
      FaultFreeSetup(s);
      SetupConverges(s);
      SetupKeepsResetValues(s);
      SetupSpends(s);
    } else {
      var before := AfterResets(Setup(s), n - 1);
      ConfiguredThroughout(s, n - 1);
      ResetConverges(before);
      ResetKeepsResetValues(before);
      SetupSpends(before);
    }
  }

  class ClimateData {
    var pressure: real
  }

  /** One round: read, and reset the sensor if the reading, or the second look at it, demands it. */
  method Round(d: Driver, poll: Poll) returns (verdict: Verdict)
    modifies d, d.bus
    ensures d.calib == old(d.calib) && verdict == Judge(d.calib, poll)
    ensures d.View() == if Demands(verdict) then Reset(old(d.View())) else old(d.View())
  {
    hide Sample, Reset, RawPressure, RawTemperature;
    var reading, res := d.ReadPressureTemperature(poll.first);
    var values := if reading.Defined? then reading.value else poll.overflowed;
    var pressure, temp := values.pressure, values.temperature;
    if pressure != 0 && temp != 0 && temp != 2323 {
      if pressure < 75000 {
        PressureReset(d);
        return TooLow;
      }
      return Accept(pressure);
    }
    var rawP, rawT;
    res, rawP, rawT := d.ReadUncompPressureTemperature(poll.second);
    if rawP == STUCK && rawT == STUCK {
      PressureReset(d);
    }
    verdict := Retry(rawP == STUCK && rawT == STUCK);
  }

  /**
   `polls` is the start of what the sensor will deliver; `left` is the index of the poll at
   which the loop was left, or `|polls|` if it is still waiting. Failed transfers, and overflows with
   any outcome, are polls like the others. `resets` counts the resets made.
   */
  method ReadPressure(d: Driver, data: ClimateData, ids: seq<Option<u8>>, reply: Option<CalibBytes>, polls: seq<Poll>)
    returns (left: nat, resets: nat)
    requires |ids| == CHIP_ID_READ_COUNT
    modifies d, d.bus, data
    ensures d.calib == CalibAfterInit(old(d.calib), ids, reply)
    ensures left <= |polls| && forall i | 0 <= i < left :: var r := Outcome(d.calib, polls[i]);
      r.pressure < 75000 || r.temperature == 0 || r.temperature == 2323
    ensures left < |polls| ==> var r := Outcome(d.calib, polls[left]);
      r.pressure >= 75000 && r.temperature != 0 && r.temperature != 2323
    ensures resets == |set i: nat | i < left &&
      var r, second := Outcome(d.calib, polls[i]), Delivered(polls[i].second);
      (0 < r.pressure < 75000 && r.temperature != 0 && r.temperature != 2323)
      || ((r.pressure == 0 || r.temperature == 0 || r.temperature == 2323)
          && RawPressure(second) == 524288 && RawTemperature(second) == 524288)|
    ensures d.View() == AfterResets(Setup(old(d.View())), resets)
    ensures FaultFree(old(d.View())) ==>
      && d.bus.ctrl == 0x57 && d.oversampTemperature == 2 && d.oversampPressure == 5
      && d.bus.config == (if resets == 0 then old(d.bus.config) else d.bus.resetConfig) % 4 + 0x10
    ensures data.pressure ==
      if left < |polls| && 90000 < Outcome(d.calib, polls[left]).pressure < 110000
      then Outcome(d.calib, polls[left]).pressure as real / 100.0
      else old(data.pressure)
  {
    hide Judge, Outcome, Setup, Reset, DecodeCalib, Shows, RawPressure, RawTemperature, Delivered;
    PressureInit(d, ids, reply);
    left, resets := 0, 0;
    while left < |polls|
      invariant left <= |polls| && forall i | 0 <= i < left :: !Judge(d.calib, polls[i]).Accept?
      invariant d.calib == CalibAfterInit(old(d.calib), ids, reply)
      invariant resets == Resets(d.calib, polls[..left])
      invariant d.View() == AfterResets(Setup(old(d.View())), resets)
      invariant data.pressure == old(data.pressure)
    {
      assert polls[..left + 1][..left] == polls[..left];
      JudgeExactly(d.calib, polls[left], Outcome(d.calib, polls[left]));
      var verdict := Round(d, polls[left]);
      if verdict.Accept? && verdict.pressure < 110000 && verdict.pressure > 90000 {
        data.pressure := verdict.pressure as real / 100.0;
      }
      if verdict.Accept? {
        break;
      }
      if Demands(verdict) {
        resets := resets + 1;
      }
      left := left + 1;
    }
    RoundsInNumbers(d.calib, polls, left);
    if FaultFree(old(d.View())) {
      ConfiguredThroughout(old(d.View()), resets);
    }
  }

  lemma RoundsInNumbers(c: Calib, polls: seq<Poll>, left: nat)
    requires left <= |polls| && forall i | 0 <= i < left :: !Judge(c, polls[i]).Accept?
    ensures forall i | 0 <= i < left :: var r := Outcome(c, polls[i]);
      r.pressure < 75000 || r.temperature == 0 || r.temperature == 2323
    ensures Resets(c, polls[..left]) == |set i: nat | i < left &&
      var r, second := Outcome(c, polls[i]), Delivered(polls[i].second);
      (0 < r.pressure < 75000 && r.temperature != 0 && r.temperature != 2323)
      || ((r.pressure == 0 || r.temperature == 0 || r.temperature == 2323)
          && RawPressure(second) == 524288 && RawTemperature(second) == 524288)|
  {
    hide Judge, Outcome, Demands, Sample, RawPressure, RawTemperature, Delivered;
    forall i: nat | i < left
      ensures var r, second := Outcome(c, polls[i]), Delivered(polls[i].second);
        && (r.pressure < 75000 || r.temperature == 0 || r.temperature == 2323)
        && (Demands(Judge(c, polls[..left][i])) <==>
          (0 < r.pressure < 75000 && r.temperature != 0 && r.temperature != 2323)
          || ((r.pressure == 0 || r.temperature == 0 || r.temperature == 2323)
              && RawPressure(second) == 524288 && RawTemperature(second) == 524288))
    {
      JudgeExactly(c, polls[i], Outcome(c, polls[i]));
    }
    ResetsCountRounds(c, polls[..left]);
    assert (set i: nat | i < left && Demands(Judge(c, polls[..left][i])))
      == (set i: nat | i < |polls[..left]| && Demands(Judge(c, polls[..left][i])));
    assert (set i: nat | i < left && Demands(Judge(c, polls[..left][i]))) == set i: nat | i < left &&
      var r, second := Outcome(c, polls[i]), Delivered(polls[i].second);
      (0 < r.pressure < 75000 && r.temperature != 0 && r.temperature != 2323)
      || ((r.pressure == 0 || r.temperature == 0 || r.temperature == 2323)
          && RawPressure(second) == 524288 && RawTemperature(second) == 524288);
  }
}
