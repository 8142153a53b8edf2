/**
 The cryostat controller: seven states, two PID controllers that share cells with it, and a row in a database through
 which its outputs leave one step later.
 */
module Cryo {
  import opened Pid

  const RATE_MOVING_AVG_N := 20.0
  const DELTA_T_RATE_PER_MIN := 1.0

  datatype FSMState =
    | ST_Idle
    | ST_CoolDownHot
    | ST_CoolDownCold
    | ST_Warmup
    | ST_MaintainWarm
    | ST_MaintainCold
    | ST_Fault

  /** The row ControlParameters: what the operator sets, and what the controller sends. */
  datatype Row = Row(tTemp: real, abs: Gains, rate: Gains, ccPowerState: bool, srsPowerState: bool, heaterPW: real,
                     ccPower: real)

  /** The latest rows of the cryocooler and of the heater controller. */
  datatype Feeds = Feeds(curTemp: real, curTempLSH: real, pMin: real, pMax: real, lastCCTime: int, lastLSHTime: int)

  class Database {
    var row: Row

    constructor (row: Row)
      ensures this.row == row
    {
      this.row := row;
    }
  }

  /** A moving average takes in a twentieth of the distance to the new value. */
  function Averaged(avg: real, x: real): (r: real)
    ensures 20.0 * (r - avg) == x - avg
    ensures avg <= x ==> avg <= r <= x
    ensures avg >= x ==> avg >= r >= x
  {
    avg + (x - avg) / RATE_MOVING_AVG_N
  }

  function Abs(x: real): real {
    if x < 0.0 then 0.0 - x else x
  }

  // ---------------------------------------------------------------- what the states mean

  predicate Cold(st: FSMState) {
    st == ST_CoolDownCold || st == ST_MaintainCold
  }

  predicate UsesRate(st: FSMState) {
    st == ST_Warmup || st == ST_CoolDownHot || st == ST_CoolDownCold
  }

  predicate UsesAbs(st: FSMState) {
    st == ST_MaintainWarm || st == ST_MaintainCold
  }

  predicate CoolerOn(st: FSMState) {
    Cold(st) || st == ST_CoolDownHot
  }

  function Lowest(st: FSMState): real {
    if Cold(st) then -120.0 else 0.0
  }

  predicate Stale(feeds: Feeds, now: int) {
    now - feeds.lastLSHTime > 60 || now - feeds.lastCCTime > 60
  }

  /** The state to be in; between the regions of the states the last one stays. */
  function Decided(prev: FSMState, automatic: bool, cur: real, target: real, stale: bool): FSMState {
    if !automatic then ST_Idle
    else if stale then ST_Fault
    else if target > 220.0 && cur > 220.0 && Abs(target - cur) <= 2.0 then ST_MaintainWarm
    else if target < 220.0 && cur <= 220.0 && Abs(target - cur) <= 10.0 then ST_MaintainCold
    else if target < 220.0 && cur > target + 10.0 then if cur > 220.0 then ST_CoolDownHot else ST_CoolDownCold
    else if target > cur + 10.0 && cur < 290.0 then ST_Warmup
    else if cur > 300.0 && target < 300.0 then ST_Idle
    else prev
  }

  /** A PID in automatic mode stays within the limits of the state. */
  ghost predicate Bounded(s: State, auto: bool, st: FSMState) {
    && s.inAuto == auto && s.outMin == Lowest(st) && s.outMax == 75.0
    && (auto ==> Lowest(st) <= s.outputSum <= 75.0 && Lowest(st) <= s.output <= 75.0)
  }

  /** What a guard makes of a PID, and what the step then makes of it: only a PID in automatic mode is computed. */
  ghost function Guarded(s: State, guard: bool, auto: bool, input: real, st: FSMState): State {
    if guard then Limited(Moded(s, auto, input), Lowest(st), 75.0) else s
  }

  ghost function Stepped(s: State, guard: bool, auto: bool, st: FSMState, now: int, input: real,
                         setpoint: real): State {
    var s1 := Guarded(s, guard, auto, input, st);
    if auto then Computed(s1, now, input, setpoint) else s1
  }

  ghost function Retuned(s: State, g: Gains): State {
    if g != s.disp then Tuned(s, g) else s
  }

  /** New gains are taken over whole, as entered for a sample time of a second, or not at all if one is negative. */
  lemma TakesGains(s: State, g: Gains)
    requires s.sampleTime == 1 && !s.reverse && s.gains == s.disp
    ensures Retuned(s, g) == if g.p < 0.0 || g.i < 0.0 || g.d < 0.0 then s else s.(disp := g, gains := g)
  {
  }

  /** What a guard does to a PID bounds it, whatever state the PID was in. */
  lemma GuardBounds(s: State, auto: bool, input: real, st: FSMState)
    ensures Bounded(Limited(Moded(s, auto, input), Lowest(st), 75.0), auto, st)
  {
  }

  lemma ManualBounds(s: State)
    requires !s.inAuto
    ensures Bounded(Limited(s, 0.0, 75.0), false, ST_Idle)
  {
  }

  lemma ComputeBounds(s: State, now: int, input: real, setpoint: real, auto: bool, st: FSMState)
    requires Bounded(s, auto, st)
    ensures Bounded(Computed(s, now, input, setpoint), auto, st)
  {
    hide Due, NextSum, Scaled;
  }

  lemma TuneBounds(s: State, g: Gains, auto: bool, st: FSMState)
    requires Bounded(s, auto, st)
    ensures Bounded(Tuned(s, g), auto, st)
  {
  }

  /** No two of the cells are the same. */
  ghost predicate Separate(a: Pid, r: Pid) {
    && a != r
    && a.myInput !in {a.myOutput, a.mySetpoint, r.myInput, r.myOutput, r.mySetpoint}
    && a.myOutput !in {a.mySetpoint, r.myInput, r.myOutput, r.mySetpoint}
    && a.mySetpoint !in {r.myInput, r.myOutput, r.mySetpoint}
    && r.myInput !in {r.myOutput, r.mySetpoint} && r.myOutput != r.mySetpoint
  }

  /** Proportional on measurement, direct, in manual mode, with limits 0 and 75. */
  method StartPid(input: Cell, output: Cell, setpoint: Cell, now: int, junk: State) returns (pid: Pid)
    modifies output
    ensures fresh(pid) && pid.myInput == input && pid.myOutput == output && pid.mySetpoint == setpoint
    ensures pid.sampleTime == 1 && !pid.pOnE && Bounded(pid.Now(), false, ST_Idle)
    ensures pid.disp == pid.gains == Gains(2.0, 5.0, 1.0) && pid.lastTime == now - 1
  {
    hide Bounded;
    pid := new Pid(input, output, setpoint, Gains(2.0, 5.0, 1.0), false, false, now, junk);
    ManualBounds(pid.Now());
    pid.SetOutputLimits(0.0, 75.0);
  }

  class CryoControlSM {
    const currentTemperature: Cell
    const setTemperature: Cell
    const tOutput: Cell
    const rateMovingAvg: Cell
    const rSetpoint: Cell
    const rOutput: Cell
    const absPid: Pid
    const ratePid: Pid
    var lastTemperature: real
    var movingAvgCCRTD: real
    var movingAvgLSHRTD: real
    var pMin: real
    var pMax: real
    var lastCCTime: int
    var lastLSHTime: int
    var thisRunPIDValue: real
    var thisRunCCPower: real
    var thisRunHeaterPower: real
    var sentCCPower: real
    var cCoolerPower: bool
    var computedSRSPowerState: bool
    var currentState: FSMState
    var shouldBeState: FSMState
    var stateFn: FSMState
    var entryGuardActive: bool
    var automatic: bool

    /** The two PIDs read and write the controller's own cells. */
    ghost predicate Wired()
      reads absPid`sampleTime, ratePid`sampleTime
    {
      && absPid.myInput == currentTemperature && absPid.myOutput == tOutput && absPid.mySetpoint == setTemperature
      && ratePid.myInput == rateMovingAvg && ratePid.myOutput == rOutput && ratePid.mySetpoint == rSetpoint
      && Separate(absPid, ratePid) && absPid.sampleTime == ratePid.sampleTime == 1
    }

    /** Everything that the entry guard of a state sets up. */
    ghost predicate Regulated(st: FSMState)
      reads this`cCoolerPower, this`computedSRSPowerState
      reads absPid, ratePid, absPid.myOutput, ratePid.myOutput, rSetpoint
    {
      && Bounded(absPid.Now(), UsesAbs(st), st) && Bounded(ratePid.Now(), UsesRate(st), st)
      && cCoolerPower == CoolerOn(st) && computedSRSPowerState == Cold(st)
      && (UsesRate(st) ==> rSetpoint.value == (if st == ST_Warmup then 1.0 else -1.0) * DELTA_T_RATE_PER_MIN / 60.0)
    }

    /** Between steps. */
    ghost predicate Steady()
      reads this`currentState, this`shouldBeState, this`stateFn, this`entryGuardActive
      reads this`cCoolerPower, this`computedSRSPowerState
      reads absPid, ratePid, absPid.myOutput, ratePid.myOutput, rSetpoint
    {
      Wired() && Regulated(currentState) && stateFn == currentState == shouldBeState && !entryGuardActive
    }

    /** The powers follow the PID value, which keeps to the range of the state; never do both heater and cooler work. */
    ghost predicate PowersSafe()
      reads this`currentState, this`thisRunPIDValue, this`thisRunHeaterPower, this`thisRunCCPower
      reads this`movingAvgCCRTD, this`movingAvgLSHRTD
    {
      && Lowest(currentState) <= thisRunPIDValue <= 75.0
      && (!UsesRate(currentState) && !UsesAbs(currentState) ==> thisRunPIDValue == 0.0)
      && 0.0 <= thisRunHeaterPower <= 75.0 && 0.0 <= thisRunCCPower <= 120.0
      && (thisRunHeaterPower == 0.0 || thisRunCCPower == 0.0)
      && thisRunHeaterPower - thisRunCCPower ==
         (if movingAvgCCRTD > 320.0 || movingAvgLSHRTD > 320.0 then 0.0 else thisRunPIDValue)
      && (thisRunCCPower > 0.0 ==> Cold(currentState))
      && (movingAvgCCRTD > 320.0 || movingAvgLSHRTD > 320.0 ==> thisRunHeaterPower == 0.0 && thisRunCCPower == 0.0)
    }

    constructor Init(absolute: Pid, relative: Pid)
      requires Separate(absolute, relative) && absolute.sampleTime == relative.sampleTime == 1
      requires Bounded(absolute.Now(), false, ST_Idle) && Bounded(relative.Now(), false, ST_Idle)
      ensures Steady() && PowersSafe() && currentState == ST_Idle && automatic && thisRunPIDValue == 0.0
      ensures absPid == absolute && ratePid == relative
    {
      currentTemperature, tOutput, setTemperature := absolute.myInput, absolute.myOutput, absolute.mySetpoint;
      rateMovingAvg, rOutput, rSetpoint := relative.myInput, relative.myOutput, relative.mySetpoint;
      absPid, ratePid := absolute, relative;
      currentState, shouldBeState, stateFn := ST_Idle, ST_Idle, ST_Idle;
      lastTemperature, movingAvgCCRTD, movingAvgLSHRTD := 0.0, 0.0, 0.0;
      pMin, pMax, lastCCTime, lastLSHTime := 0.0, 0.0, 0, 0;
      thisRunPIDValue, thisRunCCPower, thisRunHeaterPower, sentCCPower := 0.0, 0.0, 0.0, 0.0;
      cCoolerPower, computedSRSPowerState := false, false;
      entryGuardActive, automatic := false, true;
    }

    // ---------------------------------------------------------------- deciding

    /** The conditions in the order of the code; a later one overrides an earlier one. */
    method StateDecision(now: int)
      modifies this`shouldBeState
      ensures shouldBeState == Decided(old(shouldBeState), automatic, currentTemperature.value, setTemperature.value,
                                       now - lastLSHTime > 60 || now - lastCCTime > 60)
    {
      if !automatic {
        shouldBeState := ST_Idle;
        return;
      }
      var cur, target := currentTemperature.value, setTemperature.value;
      if cur > 300.0 && target < 300.0 {
        shouldBeState := ST_Idle;
      }
      if target > cur + 10.0 && cur < 290.0 {
        shouldBeState := ST_Warmup;
      }
      if target < 220.0 && target < cur - 10.0 && cur > 220.0 {
        shouldBeState := ST_CoolDownHot;
      }
      if target < 220.0 && target < cur - 10.0 && cur <= 220.0 {
        shouldBeState := ST_CoolDownCold;
      }
      if target < 220.0 && Abs(target - cur) <= 10.0 && cur <= 220.0 {
        shouldBeState := ST_MaintainCold;
      }
      if target > 220.0 && Abs(target - cur) <= 2.0 && cur > 220.0 {
        shouldBeState := ST_MaintainWarm;
      }
      var lastDeltaLSH := now - lastLSHTime;
      var lastDeltaCC := now - lastCCTime;
      if lastDeltaLSH > 60 || lastDeltaCC > 60 {
        shouldBeState := ST_Fault;
      }
    }

    method StateSwitch()
      modifies this`entryGuardActive, this`stateFn, this`currentState
      ensures entryGuardActive && stateFn == currentState == shouldBeState
    {
      entryGuardActive := true;
      stateFn := shouldBeState;
      currentState := shouldBeState;
    }

    // ---------------------------------------------------------------- the states

    /** What a state function may start from: its own set-up, or an active entry guard. */
    ghost predicate Ready(st: FSMState)
      reads this`entryGuardActive, this`cCoolerPower, this`computedSRSPowerState
      reads absPid, ratePid, absPid.myOutput, ratePid.myOutput, rSetpoint
    {
      Wired() && (entryGuardActive || Regulated(st))
    }

    /** What every state function leaves: its set-up, and a PID value in the range of the state. */
    ghost predicate Ran(st: FSMState)
      reads this`entryGuardActive, this`thisRunPIDValue, this`cCoolerPower, this`computedSRSPowerState
      reads absPid, ratePid, absPid.myOutput, ratePid.myOutput, rSetpoint
    {
      && Wired() && Regulated(st) && !entryGuardActive && Lowest(st) <= thisRunPIDValue <= 75.0
      && (!UsesRate(st) && !UsesAbs(st) ==> thisRunPIDValue == 0.0)
    }

    /** Both PIDs went on from a and r as the state wants, and the value of this run is the output of the one in use. */
    ghost predicate Moved(st: FSMState, a: State, r: State, guard: bool, now: int)
      reads this`thisRunPIDValue, absPid, ratePid, absPid.myOutput, ratePid.myOutput
      reads currentTemperature, setTemperature, rateMovingAvg, rSetpoint
    {
      && absPid.Now() == Stepped(a, guard, UsesAbs(st), st, now, currentTemperature.value, setTemperature.value)
      && ratePid.Now() == Stepped(r, guard, UsesRate(st), st, now, rateMovingAvg.value, rSetpoint.value)
      && thisRunPIDValue ==
         (if UsesRate(st) then ratePid.Now().output else if UsesAbs(st) then absPid.Now().output else 0.0)
    }

    method EnterWarmup()
      requires Wired()
      modifies this`entryGuardActive, this`thisRunCCPower, this`cCoolerPower, this`computedSRSPowerState
      modifies absPid, ratePid, tOutput, rOutput, rSetpoint
      ensures Wired() && Regulated(ST_Warmup) && !entryGuardActive
      ensures absPid.Now() == Guarded(old(absPid.Now()), true, UsesAbs(ST_Warmup), currentTemperature.value, ST_Warmup)
      ensures ratePid.Now() == Guarded(old(ratePid.Now()), true, UsesRate(ST_Warmup), rateMovingAvg.value, ST_Warmup)
    {
      hide Moded, Limited, Bounded;
      GuardBounds(absPid.Now(), false, currentTemperature.value, ST_Warmup);
      GuardBounds(ratePid.Now(), true, rateMovingAvg.value, ST_Warmup);
      absPid.SetMode(false);
      ratePid.SetMode(true);
      ratePid.SetOutputLimits(0.0, 75.0);
      absPid.SetOutputLimits(0.0, 75.0);
      thisRunCCPower := 0.0;
      rSetpoint.value := DELTA_T_RATE_PER_MIN / 60.0;
      cCoolerPower := false;
      computedSRSPowerState := false;
      entryGuardActive := false;
    }

    method Warmup(now: int)
      requires Ready(ST_Warmup)
      modifies this`entryGuardActive, this`thisRunCCPower, this`thisRunHeaterPower, this`thisRunPIDValue
      modifies this`cCoolerPower, this`computedSRSPowerState, absPid, ratePid, tOutput, rOutput, rSetpoint
      ensures Ran(ST_Warmup)
      ensures Moved(ST_Warmup, old(absPid.Now()), old(ratePid.Now()), old(entryGuardActive), now)
    {
      hide Computed;
      if entryGuardActive {
        EnterWarmup();
      }
      ComputeBounds(ratePid.Now(), now, rateMovingAvg.value, rSetpoint.value, true, ST_Warmup);
      var _ := ratePid.Compute(now);
      thisRunPIDValue := rOutput.value;
    }

    method EnterIdle()
      requires Wired()
      modifies this`entryGuardActive, this`thisRunCCPower, this`cCoolerPower, this`computedSRSPowerState
      modifies absPid, ratePid, tOutput, rOutput, rSetpoint
      ensures Wired() && Regulated(ST_Idle) && !entryGuardActive
      ensures absPid.Now() == Guarded(old(absPid.Now()), true, UsesAbs(ST_Idle), currentTemperature.value, ST_Idle)
      ensures ratePid.Now() == Guarded(old(ratePid.Now()), true, UsesRate(ST_Idle), rateMovingAvg.value, ST_Idle)
    {
      hide Moded, Limited, Bounded;
      GuardBounds(absPid.Now(), false, currentTemperature.value, ST_Idle);
      GuardBounds(ratePid.Now(), false, rateMovingAvg.value, ST_Idle);
      absPid.SetMode(false);
      ratePid.SetMode(false);
      ratePid.SetOutputLimits(0.0, 75.0);
      absPid.SetOutputLimits(0.0, 75.0);
      thisRunCCPower := 0.0;
      cCoolerPower := false;
      computedSRSPowerState := false;
      entryGuardActive := false;
    }

    method Idle()
      requires Ready(ST_Idle)
      modifies this`entryGuardActive, this`thisRunCCPower, this`thisRunHeaterPower, this`thisRunPIDValue
      modifies this`cCoolerPower, this`computedSRSPowerState, absPid, ratePid, tOutput, rOutput, rSetpoint
      ensures Ran(ST_Idle)
      ensures Moved(ST_Idle, old(absPid.Now()), old(ratePid.Now()), old(entryGuardActive), 0)
    {
      hide Bounded, Limited, Moded, Computed;
      if entryGuardActive {
        EnterIdle();
      }
      thisRunPIDValue := 0.0;
    }

    method EnterFault()
      requires Wired()
      modifies this`entryGuardActive, this`thisRunCCPower, this`cCoolerPower, this`computedSRSPowerState
      modifies absPid, ratePid, tOutput, rOutput, rSetpoint
      ensures Wired() && Regulated(ST_Fault) && !entryGuardActive
      ensures absPid.Now() == Guarded(old(absPid.Now()), true, UsesAbs(ST_Fault), currentTemperature.value, ST_Fault)
      ensures ratePid.Now() == Guarded(old(ratePid.Now()), true, UsesRate(ST_Fault), rateMovingAvg.value, ST_Fault)
    {
      hide Moded, Limited, Bounded;
      GuardBounds(absPid.Now(), false, currentTemperature.value, ST_Fault);
      GuardBounds(ratePid.Now(), false, rateMovingAvg.value, ST_Fault);
      absPid.SetMode(false);
      ratePid.SetMode(false);
      ratePid.SetOutputLimits(0.0, 75.0);
      absPid.SetOutputLimits(0.0, 75.0);
      cCoolerPower := false;
      computedSRSPowerState := false;
      entryGuardActive := false;
    }

    method Fault()
      requires Ready(ST_Fault)
      modifies this`entryGuardActive, this`thisRunCCPower, this`thisRunHeaterPower, this`thisRunPIDValue
      modifies this`cCoolerPower, this`computedSRSPowerState, absPid, ratePid, tOutput, rOutput, rSetpoint
      ensures Ran(ST_Fault)
      ensures Moved(ST_Fault, old(absPid.Now()), old(ratePid.Now()), old(entryGuardActive), 0)
    {
      hide Bounded, Limited, Moded, Computed;
      if entryGuardActive {
        EnterFault();
      }
      thisRunPIDValue := 0.0;
      thisRunCCPower := 0.0;
      thisRunHeaterPower := 0.0;
    }

    method EnterCoolDownHot()
      requires Wired()
      modifies this`entryGuardActive, this`thisRunCCPower, this`cCoolerPower, this`computedSRSPowerState
      modifies absPid, ratePid, tOutput, rOutput, rSetpoint
      ensures Wired() && Regulated(ST_CoolDownHot) && !entryGuardActive
      ensures absPid.Now() ==
              Guarded(old(absPid.Now()), true, UsesAbs(ST_CoolDownHot), currentTemperature.value, ST_CoolDownHot)
      ensures ratePid.Now() ==
              Guarded(old(ratePid.Now()), true, UsesRate(ST_CoolDownHot), rateMovingAvg.value, ST_CoolDownHot)
    {
      hide Moded, Limited, Bounded;
      GuardBounds(absPid.Now(), false, currentTemperature.value, ST_CoolDownHot);
      GuardBounds(ratePid.Now(), true, rateMovingAvg.value, ST_CoolDownHot);
      absPid.SetMode(false);
      ratePid.SetMode(true);
      ratePid.SetOutputLimits(0.0, 75.0);
      absPid.SetOutputLimits(0.0, 75.0);
      rSetpoint.value := -1.0 * DELTA_T_RATE_PER_MIN / 60.0;
      cCoolerPower := true;
      computedSRSPowerState := false;
      entryGuardActive := false;
    }

    method CoolDownHot(now: int)
      requires Ready(ST_CoolDownHot)
      modifies this`entryGuardActive, this`thisRunCCPower, this`thisRunHeaterPower, this`thisRunPIDValue
      modifies this`cCoolerPower, this`computedSRSPowerState, absPid, ratePid, tOutput, rOutput, rSetpoint
      ensures Ran(ST_CoolDownHot)
      ensures Moved(ST_CoolDownHot, old(absPid.Now()), old(ratePid.Now()), old(entryGuardActive), now)
    {
      hide Computed;
      if entryGuardActive {
        EnterCoolDownHot();
      }
      ComputeBounds(ratePid.Now(), now, rateMovingAvg.value, rSetpoint.value, true, ST_CoolDownHot);
      var _ := ratePid.Compute(now);
      thisRunPIDValue := rOutput.value;
    }

    method EnterCoolDownCold()
      requires Wired()
      modifies this`entryGuardActive, this`thisRunCCPower, this`cCoolerPower, this`computedSRSPowerState
      modifies absPid, ratePid, tOutput, rOutput, rSetpoint
      ensures Wired() && Regulated(ST_CoolDownCold) && !entryGuardActive
      ensures absPid.Now() ==
              Guarded(old(absPid.Now()), true, UsesAbs(ST_CoolDownCold), currentTemperature.value, ST_CoolDownCold)
      ensures ratePid.Now() ==
              Guarded(old(ratePid.Now()), true, UsesRate(ST_CoolDownCold), rateMovingAvg.value, ST_CoolDownCold)
    {
      hide Moded, Limited, Bounded;
      GuardBounds(absPid.Now(), false, currentTemperature.value, ST_CoolDownCold);
      GuardBounds(ratePid.Now(), true, rateMovingAvg.value, ST_CoolDownCold);
      absPid.SetMode(false);
      ratePid.SetMode(true);
      ratePid.SetOutputLimits(-120.0, 75.0);
      absPid.SetOutputLimits(-120.0, 75.0);
      rSetpoint.value := -1.0 * DELTA_T_RATE_PER_MIN / 60.0;
      cCoolerPower := true;
      computedSRSPowerState := true;
      entryGuardActive := false;
    }

    method CoolDownCold(now: int)
      requires Ready(ST_CoolDownCold)
      modifies this`entryGuardActive, this`thisRunCCPower, this`thisRunHeaterPower, this`thisRunPIDValue
      modifies this`cCoolerPower, this`computedSRSPowerState, absPid, ratePid, tOutput, rOutput, rSetpoint
      ensures Ran(ST_CoolDownCold)
      ensures Moved(ST_CoolDownCold, old(absPid.Now()), old(ratePid.Now()), old(entryGuardActive), now)
    {
      hide Computed;
      if entryGuardActive {
        EnterCoolDownCold();
      }
      ComputeBounds(ratePid.Now(), now, rateMovingAvg.value, rSetpoint.value, true, ST_CoolDownCold);
      var _ := ratePid.Compute(now);
      thisRunPIDValue := rOutput.value;
    }

    method EnterMaintainWarm()
      requires Wired()
      modifies this`entryGuardActive, this`thisRunCCPower, this`cCoolerPower, this`computedSRSPowerState
      modifies absPid, ratePid, tOutput, rOutput, rSetpoint
      ensures Wired() && Regulated(ST_MaintainWarm) && !entryGuardActive
      ensures absPid.Now() ==
              Guarded(old(absPid.Now()), true, UsesAbs(ST_MaintainWarm), currentTemperature.value, ST_MaintainWarm)
      ensures ratePid.Now() ==
              Guarded(old(ratePid.Now()), true, UsesRate(ST_MaintainWarm), rateMovingAvg.value, ST_MaintainWarm)
    {
      hide Moded, Limited, Bounded;
      GuardBounds(absPid.Now(), true, currentTemperature.value, ST_MaintainWarm);
      GuardBounds(ratePid.Now(), false, rateMovingAvg.value, ST_MaintainWarm);
      absPid.SetMode(true);
      ratePid.SetMode(false);
      absPid.SetOutputLimits(0.0, 75.0);
      ratePid.SetOutputLimits(0.0, 75.0);
      cCoolerPower := false;
      computedSRSPowerState := false;
      entryGuardActive := false;
    }

    method MaintainWarm(now: int)
      requires Ready(ST_MaintainWarm)
      modifies this`entryGuardActive, this`thisRunCCPower, this`thisRunHeaterPower, this`thisRunPIDValue
      modifies this`cCoolerPower, this`computedSRSPowerState, absPid, ratePid, tOutput, rOutput, rSetpoint
      ensures Ran(ST_MaintainWarm)
      ensures Moved(ST_MaintainWarm, old(absPid.Now()), old(ratePid.Now()), old(entryGuardActive), now)
    {
      hide Computed;
      if entryGuardActive {
        EnterMaintainWarm();
      }
      ComputeBounds(absPid.Now(), now, currentTemperature.value, setTemperature.value, true, ST_MaintainWarm);
      var _ := absPid.Compute(now);
      thisRunPIDValue := tOutput.value;
    }

    method EnterMaintainCold()
      requires Wired()
      modifies this`entryGuardActive, this`thisRunCCPower, this`cCoolerPower, this`computedSRSPowerState
      modifies absPid, ratePid, tOutput, rOutput, rSetpoint
      ensures Wired() && Regulated(ST_MaintainCold) && !entryGuardActive
      ensures absPid.Now() ==
              Guarded(old(absPid.Now()), true, UsesAbs(ST_MaintainCold), currentTemperature.value, ST_MaintainCold)
      ensures ratePid.Now() ==
              Guarded(old(ratePid.Now()), true, UsesRate(ST_MaintainCold), rateMovingAvg.value, ST_MaintainCold)
    {
      hide Moded, Limited, Bounded;
      GuardBounds(absPid.Now(), true, currentTemperature.value, ST_MaintainCold);
      GuardBounds(ratePid.Now(), false, rateMovingAvg.value, ST_MaintainCold);
      absPid.SetMode(true);
      ratePid.SetMode(false);
      ratePid.SetOutputLimits(-120.0, 75.0);
      absPid.SetOutputLimits(-120.0, 75.0);
      cCoolerPower := true;
      computedSRSPowerState := true;
      entryGuardActive := false;
    }

    method MaintainCold(now: int)
      requires Ready(ST_MaintainCold)
      modifies this`entryGuardActive, this`thisRunCCPower, this`thisRunHeaterPower, this`thisRunPIDValue
      modifies this`cCoolerPower, this`computedSRSPowerState, absPid, ratePid, tOutput, rOutput, rSetpoint
      ensures Ran(ST_MaintainCold)
      ensures Moved(ST_MaintainCold, old(absPid.Now()), old(ratePid.Now()), old(entryGuardActive), now)
    {
      hide Computed;
      if entryGuardActive {
        EnterMaintainCold();
      }
      ComputeBounds(absPid.Now(), now, currentTemperature.value, setTemperature.value, true, ST_MaintainCold);
      var _ := absPid.Compute(now);
      thisRunPIDValue := tOutput.value;
    }

    /** The jump through the function pointer. */
    method RunState(now: int)
      requires Ready(stateFn)
      modifies this`entryGuardActive, this`thisRunCCPower, this`thisRunHeaterPower, this`thisRunPIDValue
      modifies this`cCoolerPower, this`computedSRSPowerState, absPid, ratePid, tOutput, rOutput, rSetpoint
      ensures Ran(stateFn)
      ensures Moved(stateFn, old(absPid.Now()), old(ratePid.Now()), old(entryGuardActive), now)
    {
      hide Bounded;
      match stateFn
      case ST_Idle => Idle();
      case ST_CoolDownHot => CoolDownHot(now);
      case ST_CoolDownCold => CoolDownCold(now);
      case ST_Warmup => Warmup(now);
      case ST_MaintainWarm => MaintainWarm(now);
      case ST_MaintainCold => MaintainCold(now);
      case ST_Fault => Fault();
    }

    // ---------------------------------------------------------------- one step

    /** Sends what the last step decided, and reads what this one needs. */
    method UpdateVars(db: Database, feeds: Feeds) returns (data: Row)
      modifies db, this`sentCCPower
      ensures data == old(db.row) && sentCCPower == thisRunCCPower + feeds.pMin
      ensures db.row == old(db.row).(heaterPW := thisRunHeaterPower, ccPower := sentCCPower,
                                     ccPowerState := cCoolerPower, srsPowerState := computedSRSPowerState)
    {
      data := db.row;
      db.row := db.row.(heaterPW := thisRunHeaterPower);
      sentCCPower := thisRunCCPower + feeds.pMin;
      db.row := db.row.(ccPower := sentCCPower);
      if data.ccPowerState != cCoolerPower {
        db.row := db.row.(ccPowerState := cCoolerPower);
      }
      if data.srsPowerState != computedSRSPowerState {
        db.row := db.row.(srsPowerState := computedSRSPowerState);
      }
    }

    /** Negative PID values drive the cooler, the others the heater, and above 320 K neither works. */
    method PostRunSanityCheck()
      requires Lowest(currentState) <= thisRunPIDValue <= 75.0
      requires !UsesRate(currentState) && !UsesAbs(currentState) ==> thisRunPIDValue == 0.0
      modifies this`thisRunHeaterPower, this`thisRunCCPower
      ensures PowersSafe()
    {
      if thisRunPIDValue < 0.0 {
        thisRunHeaterPower := 0.0;
        thisRunCCPower := Abs(thisRunPIDValue);
      } else {
        thisRunHeaterPower := thisRunPIDValue;
        thisRunCCPower := 0.0;
      }
      if movingAvgCCRTD > 320.0 || movingAvgLSHRTD > 320.0 {
        thisRunHeaterPower := 0.0;
        thisRunCCPower := 0.0;
      }
    }

    method Tune(data: Row)
      requires Steady()
      modifies absPid`pOnE, absPid`disp, absPid`gains, ratePid`pOnE, ratePid`disp, ratePid`gains
      ensures Steady()
      ensures absPid.Now() == Retuned(old(absPid.Now()), data.abs)
      ensures ratePid.Now() == Retuned(old(ratePid.Now()), data.rate)
    {
      hide Tuned, Bounded;
      if data.abs != absPid.disp {
        TuneBounds(absPid.Now(), data.abs, UsesAbs(currentState), currentState);
        absPid.SetTunings(data.abs, absPid.pOnE);
      }
      if data.rate != ratePid.disp {
        TuneBounds(ratePid.Now(), data.rate, UsesRate(currentState), currentState);
        ratePid.SetTunings(data.rate, ratePid.pOnE);
      }
    }

    /** The new temperature, what it should be, and its rate. */
    method SenseTemperature(target: real, curTemp: real)
      requires Steady()
      modifies this`lastTemperature, currentTemperature, setTemperature, rateMovingAvg
      ensures Steady()
      ensures currentTemperature.value == curTemp && setTemperature.value == target
      ensures lastTemperature == old(currentTemperature.value)
      ensures Rated(old(rateMovingAvg.value))
      ensures absPid.Now() == old(absPid.Now()) && ratePid.Now() == old(ratePid.Now())
    {
      hide Bounded, Averaged;
      if target != setTemperature.value {
        setTemperature.value := target;
      }
      lastTemperature := currentTemperature.value;
      currentTemperature.value := curTemp;
      if lastTemperature != 0.0 {
        AveragedParts(rateMovingAvg.value, curTemp - lastTemperature);
        var change := (currentTemperature.value - lastTemperature) / RATE_MOVING_AVG_N;
        rateMovingAvg.value := rateMovingAvg.value + (change - rateMovingAvg.value / RATE_MOVING_AVG_N);
      }
    }

    /** Readings that are not above 10 K come from a sensor that is not there. */
    method SenseAverages(feeds: Feeds)
      modifies this`movingAvgCCRTD, this`movingAvgLSHRTD
      ensures HasAveraged(old(movingAvgCCRTD), old(movingAvgLSHRTD), feeds)
    {
      if feeds.curTemp > 10.0 {
        movingAvgCCRTD := movingAvgCCRTD + (feeds.curTemp - movingAvgCCRTD) / RATE_MOVING_AVG_N;
      }
      if feeds.curTempLSH > 10.0 {
        movingAvgLSHRTD := movingAvgLSHRTD + (feeds.curTempLSH - movingAvgLSHRTD) / RATE_MOVING_AVG_N;
      }
    }

    /** Decides, and switches when the state is another one. */
    method Choose(now: int)
      requires Steady()
      modifies this`shouldBeState, this`currentState, this`stateFn, this`entryGuardActive
      ensures Ready(stateFn) && stateFn == currentState == shouldBeState
      ensures entryGuardActive == (currentState != old(currentState))
      ensures currentState == Decided(old(currentState), automatic, currentTemperature.value, setTemperature.value,
                                      now - lastLSHTime > 60 || now - lastCCTime > 60)
    {
      hide Bounded, Decided;
      StateDecision(now);
      if currentState != shouldBeState {
        StateSwitch();
      }
    }

    method Act(nowCompute: int)
      requires Ready(stateFn) && stateFn == currentState == shouldBeState
      modifies this`entryGuardActive, this`thisRunCCPower, this`thisRunHeaterPower, this`thisRunPIDValue
      modifies this`cCoolerPower, this`computedSRSPowerState, absPid, ratePid, tOutput, rOutput, rSetpoint
      ensures Steady() && PowersSafe()
      ensures Moved(currentState, old(absPid.Now()), old(ratePid.Now()), old(entryGuardActive), nowCompute)
      ensures currentTemperature.value == old(currentTemperature.value)
      ensures setTemperature.value == old(setTemperature.value)
      ensures rateMovingAvg.value == old(rateMovingAvg.value)
    {
      hide Bounded, Moved;
      RunState(nowCompute);
      PostRunSanityCheck();
    }

    /** Takes in the set point and the feeds. */
    method Sense(target: real, feeds: Feeds)
      requires Steady()
      modifies this`pMax, this`pMin, this`lastCCTime, this`lastLSHTime
      modifies this`lastTemperature, this`movingAvgCCRTD, this`movingAvgLSHRTD
      modifies currentTemperature, setTemperature, rateMovingAvg
      ensures Steady()
      ensures currentTemperature.value == feeds.curTemp && setTemperature.value == target
      ensures lastTemperature == old(currentTemperature.value) && Rated(old(rateMovingAvg.value))
      ensures lastCCTime == feeds.lastCCTime && lastLSHTime == feeds.lastLSHTime && pMin == feeds.pMin
      ensures pMax == feeds.pMax
      ensures HasAveraged(old(movingAvgCCRTD), old(movingAvgLSHRTD), feeds)
      ensures absPid.Now() == old(absPid.Now()) && ratePid.Now() == old(ratePid.Now())
    {
      hide Steady, Averaged;
      pMax, pMin := feeds.pMax, feeds.pMin;
      lastCCTime, lastLSHTime := feeds.lastCCTime, feeds.lastLSHTime;
      SenseTemperature(target, feeds.curTemp);
      SenseAverages(feeds);
    }

    /** The rate average takes in the change of temperature, unless there was no temperature before. */
    ghost predicate Rated(before: real)
      reads this`lastTemperature, currentTemperature, rateMovingAvg
    {
      rateMovingAvg.value ==
      if lastTemperature == 0.0 then before else Averaged(before, currentTemperature.value - lastTemperature)
    }

    ghost predicate HasAveraged(cc: real, lsh: real, feeds: Feeds)
      reads this`movingAvgCCRTD, this`movingAvgLSHRTD
    {
      && movingAvgCCRTD == (if feeds.curTemp > 10.0 then Averaged(cc, feeds.curTemp) else cc)
      && movingAvgLSHRTD == (if feeds.curTempLSH > 10.0 then Averaged(lsh, feeds.curTempLSH) else lsh)
    }

    /** The outputs of the last step go out, and everything new comes in. */
    method Exchange(db: Database, feeds: Feeds)
      requires Steady()
      modifies db, this`sentCCPower, this`pMax, this`pMin, this`lastCCTime, this`lastLSHTime, this`lastTemperature
      modifies this`movingAvgCCRTD, this`movingAvgLSHRTD, currentTemperature, setTemperature, rateMovingAvg
      modifies absPid`pOnE, absPid`disp, absPid`gains, ratePid`pOnE, ratePid`disp, ratePid`gains
      ensures Steady()
      ensures absPid.Now() == Retuned(old(absPid.Now()), old(db.row.abs))
      ensures ratePid.Now() == Retuned(old(ratePid.Now()), old(db.row.rate))
      ensures currentTemperature.value == feeds.curTemp && setTemperature.value == old(db.row.tTemp)
      ensures lastTemperature == old(currentTemperature.value) && Rated(old(rateMovingAvg.value))
      ensures HasAveraged(old(movingAvgCCRTD), old(movingAvgLSHRTD), feeds)
      ensures lastCCTime == feeds.lastCCTime && lastLSHTime == feeds.lastLSHTime
      ensures db.row == old(db.row).(heaterPW := thisRunHeaterPower, ccPower := thisRunCCPower + feeds.pMin,
                                     ccPowerState := cCoolerPower, srsPowerState := computedSRSPowerState)
    {
      hide Steady, Retuned, Rated, HasAveraged;
      var data := UpdateVars(db, feeds);
      Tune(data);
      Sense(data.tTemp, feeds);
    }

    /** One step; the decision and the PID may read the clock at different seconds. */
    method SMEngine(db: Database, feeds: Feeds, now: int, nowCompute: int)
      requires Steady()
      modifies this, db, absPid, ratePid, currentTemperature, setTemperature, tOutput, rateMovingAvg, rOutput, rSetpoint
      ensures Steady() && PowersSafe() && automatic == old(automatic)
      ensures currentState == Decided(old(currentState), automatic, feeds.curTemp, old(db.row.tTemp), Stale(feeds, now))
      ensures db.row == old(db.row).(heaterPW := old(thisRunHeaterPower), ccPower := old(thisRunCCPower) + feeds.pMin,
                                     ccPowerState := old(cCoolerPower), srsPowerState := old(computedSRSPowerState))
      ensures Moved(currentState, Retuned(old(absPid.Now()), old(db.row.abs)),
                    Retuned(old(ratePid.Now()), old(db.row.rate)),
                    currentState != old(currentState), nowCompute)
      ensures currentTemperature.value == feeds.curTemp && setTemperature.value == old(db.row.tTemp)
      ensures lastTemperature == old(currentTemperature.value) && Rated(old(rateMovingAvg.value))
      ensures HasAveraged(old(movingAvgCCRTD), old(movingAvgLSHRTD), feeds)
    {
      hide Steady, Ready, Decided, PowersSafe, Moved, Retuned, HasAveraged, Averaged;
      Exchange(db, feeds);
      Choose(now);
      Act(nowCompute);
    }
  }

  lemma AveragedParts(avg: real, x: real)
    ensures avg + (x / RATE_MOVING_AVG_N - avg / RATE_MOVING_AVG_N) == Averaged(avg, x)
  {
  }

  /**
   The controller as its constructor leaves it; junk is what nothing initialises: PID outputs, sums and last inputs.
   */
  method Build(now: int, junkA: State, junkR: State) returns (c: CryoControlSM)
    ensures fresh(c) && fresh(c.absPid) && fresh(c.ratePid) && fresh(c.tOutput) && fresh(c.rOutput)
    ensures fresh(c.rSetpoint)
    ensures fresh(c.currentTemperature) && fresh(c.setTemperature) && fresh(c.rateMovingAvg)
    ensures c.Steady() && c.PowersSafe() && c.currentState == ST_Idle && c.automatic
    ensures !c.absPid.pOnE && c.absPid.gains == Gains(2.0, 5.0, 1.0)
    ensures !c.ratePid.pOnE && c.ratePid.gains == Gains(2.0, 5.0, 1.0)
  {
    hide Bounded;
    var current := new Cell(0.0);
    var target := new Cell(0.0);
    var tOutput := new Cell(junkA.output);
    var rate := new Cell(0.0);
    var rTarget := new Cell(0.0);
    var rOutput := new Cell(junkR.output);
    var absolute := StartPid(current, tOutput, target, now, junkA);
    var relative := StartPid(rate, rOutput, rTarget, now, junkR);
    c := new CryoControlSM.Init(absolute, relative);
  }

  // ---------------------------------------------------------------- every run

  datatype Input = Input(row: Row, feeds: Feeds, now: int, nowCompute: int)

  /** Before every step anybody may have changed the row. */
  method Serve(c: CryoControlSM, db: Database, inputs: seq<Input>)
    requires c.Steady() && c.PowersSafe()
    modifies c, db, c.absPid, c.ratePid, c.currentTemperature, c.setTemperature
    modifies c.tOutput, c.rateMovingAvg, c.rOutput, c.rSetpoint
    ensures c.Steady() && c.PowersSafe()
  {
    hide CryoControlSM.Steady, CryoControlSM.PowersSafe, Decided, Averaged;
    for i := 0 to |inputs|
      invariant c.Steady() && c.PowersSafe()
    {
      db.row := inputs[i].row;
      c.SMEngine(db, inputs[i].feeds, inputs[i].now, inputs[i].nowCompute);
    }
  }

  /**
   A step that sees a feed of more than 60 seconds ago, or of a controller that is switched off, ends with all outputs
   zero, in the state Fault unless it is switched off; and the step after it, whatever it sees, sends them.
   */
  method FailSafe(c: CryoControlSM, db: Database, late: Input, next: Input)
    returns (state: FSMState, pid: real, heater: real, cooler: real)
    requires c.Steady()
    requires || late.now - late.feeds.lastLSHTime > 60 || late.now - late.feeds.lastCCTime > 60
             || !c.automatic
    modifies c, db, c.absPid, c.ratePid, c.currentTemperature, c.setTemperature
    modifies c.tOutput, c.rateMovingAvg, c.rOutput, c.rSetpoint
    ensures state == (if c.automatic then ST_Fault else ST_Idle) && pid == heater == cooler == 0.0
    ensures db.row.heaterPW == 0.0 && !db.row.ccPowerState && !db.row.srsPowerState && db.row.ccPower == next.feeds.pMin
    ensures c.Steady() && c.PowersSafe()
  {
    hide Bounded, CryoControlSM.Wired, Averaged;
    db.row := late.row;
    c.SMEngine(db, late.feeds, late.now, late.nowCompute);
    state, pid, heater, cooler := c.currentState, c.thisRunPIDValue, c.thisRunHeaterPower, c.thisRunCCPower;
    db.row := next.row;
    c.SMEngine(db, next.feeds, next.now, next.nowCompute);
  }

  /** In automatic mode with fresh feeds a step sets everything up as the temperature and the set point say. */
  method ByRegion(c: CryoControlSM, db: Database, i: Input)
    requires c.Steady() && c.automatic
    requires i.now - i.feeds.lastLSHTime <= 60 && i.now - i.feeds.lastCCTime <= 60
    modifies c, db, c.absPid, c.ratePid, c.currentTemperature, c.setTemperature
    modifies c.tOutput, c.rateMovingAvg, c.rOutput, c.rSetpoint
    ensures i.row.tTemp < 220.0 && i.row.tTemp + 10.0 < i.feeds.curTemp ==>
              && c.ratePid.inAuto && !c.absPid.inAuto && 60.0 * c.rSetpoint.value == -1.0
              && c.cCoolerPower && c.computedSRSPowerState == (i.feeds.curTemp <= 220.0)
              && c.ratePid.outMin == (if i.feeds.curTemp <= 220.0 then -120.0 else 0.0) && c.ratePid.outMax == 75.0
    ensures i.feeds.curTemp + 10.0 < i.row.tTemp && i.feeds.curTemp < 290.0 ==>
              && c.ratePid.inAuto && !c.absPid.inAuto && 60.0 * c.rSetpoint.value == 1.0
              && !c.cCoolerPower && !c.computedSRSPowerState && c.ratePid.outMin == 0.0 && c.ratePid.outMax == 75.0
    ensures i.row.tTemp < 220.0 && i.feeds.curTemp <= 220.0 && -10.0 <= i.row.tTemp - i.feeds.curTemp <= 10.0 ==>
              && !c.ratePid.inAuto && c.absPid.inAuto
              && c.cCoolerPower && c.computedSRSPowerState && c.absPid.outMin == -120.0 && c.absPid.outMax == 75.0
    ensures i.row.tTemp > 220.0 && i.feeds.curTemp > 220.0 && -2.0 <= i.row.tTemp - i.feeds.curTemp <= 2.0 ==>
              && !c.ratePid.inAuto && c.absPid.inAuto
              && !c.cCoolerPower && !c.computedSRSPowerState && c.absPid.outMin == 0.0 && c.absPid.outMax == 75.0
    ensures i.feeds.curTemp > 300.0 && 220.0 <= i.row.tTemp < 300.0 && i.row.tTemp < i.feeds.curTemp - 2.0 ==>
              && !c.ratePid.inAuto && !c.absPid.inAuto && !c.cCoolerPower && !c.computedSRSPowerState
              && c.thisRunPIDValue == 0.0
    ensures (|| (i.row.tTemp < 220.0 < i.feeds.curTemp <= i.row.tTemp + 10.0)
             || (i.row.tTemp >= 220.0 && (i.feeds.curTemp >= i.row.tTemp - 10.0 || i.feeds.curTemp >= 290.0)
                 && (i.feeds.curTemp <= 300.0 || i.row.tTemp >= 300.0)
                 && (i.row.tTemp == 220.0 || i.feeds.curTemp <= 220.0
                     || i.feeds.curTemp < i.row.tTemp - 2.0 || i.feeds.curTemp > i.row.tTemp + 2.0))) ==>
              c.currentState == old(c.currentState) && c.cCoolerPower == old(c.cCoolerPower)
              && c.computedSRSPowerState == old(c.computedSRSPowerState)
              && c.ratePid.inAuto == old(c.ratePid.inAuto) && c.absPid.inAuto == old(c.absPid.inAuto)
    ensures c.Steady() && c.PowersSafe()
  {
    hide CryoControlSM.Moved, Retuned;
    db.row := i.row;
    c.SMEngine(db, i.feeds, i.now, i.nowCompute);
  }

  /**
   A step computes the PID that is in automatic mode, at any second but that of its last computation, from the cells
   just written; and what it puts out is the value of this run.
   */
  method Computes(c: CryoControlSM, db: Database, i: Input)
    requires c.Steady()
    modifies c, db, c.absPid, c.ratePid, c.currentTemperature, c.setTemperature
    modifies c.tOutput, c.rateMovingAvg, c.rOutput, c.rSetpoint
    ensures c.ratePid.inAuto && (i.nowCompute - old(c.ratePid.lastTime)) % 0x1_0000_0000_0000_0000 != 0 ==>
              c.ratePid.lastTime == i.nowCompute && c.ratePid.lastInput == c.rateMovingAvg.value
    ensures c.absPid.inAuto && (i.nowCompute - old(c.absPid.lastTime)) % 0x1_0000_0000_0000_0000 != 0 ==>
              c.absPid.lastTime == i.nowCompute && c.absPid.lastInput == i.feeds.curTemp
    ensures c.thisRunPIDValue ==
            if c.ratePid.inAuto then c.rOutput.value else if c.absPid.inAuto then c.tOutput.value else 0.0
    ensures c.Steady()
  {
    hide Decided, CryoControlSM.PowersSafe, Retuned, Stepped;
    ghost var (a, r) := (c.absPid.Now(), c.ratePid.Now());
    db.row := i.row;
    ghost var before := c.currentState;
    c.SMEngine(db, i.feeds, i.now, i.nowCompute);
    ghost var (st, guard) := (c.currentState, c.currentState != before);
    StepComputes(a, i.row.abs, guard, UsesAbs(st), st, i.nowCompute, i.feeds.curTemp, i.row.tTemp);
    StepComputes(r, i.row.rate, guard, UsesRate(st), st, i.nowCompute, c.rateMovingAvg.value, c.rSetpoint.value);
  }

  lemma StepComputes(s: State, g: Gains, guard: bool, auto: bool, st: FSMState, now: int, input: real, setpoint: real)
    requires s.sampleTime == 1 && (s.inAuto == auto || guard)
    ensures var s' := Stepped(Retuned(s, g), guard, auto, st, now, input, setpoint);
            auto && (now - s.lastTime) % 0x1_0000_0000_0000_0000 != 0 ==> s'.lastTime == now && s'.lastInput == input
  {
    hide NextSum, Scaled, Clamp, Signed;
  }

  /** Between the regions of the states the controller goes on with what it was doing: exactly here. */
  lemma KeepsState(cur: real, target: real)
    ensures (forall prev :: Decided(prev, true, cur, target, false) == prev) <==>
            (|| (target < 220.0 && 220.0 < cur <= target + 10.0)
             || (target >= 220.0 && (cur >= target - 10.0 || cur >= 290.0) && (cur <= 300.0 || target >= 300.0)
                 && !(target > 220.0 && cur > 220.0 && target - 2.0 <= cur <= target + 2.0)))
  {
    if forall prev :: Decided(prev, true, cur, target, false) == prev {
      assert Decided(ST_Fault, true, cur, target, false) == ST_Fault;
    }
  }

  ghost function Average(avg: real, readings: seq<real>): real
    decreases |readings|
  {
    if readings == [] then avg
    else Average(if readings[0] > 10.0 then Averaged(avg, readings[0]) else avg, readings[1..])
  }

  /** The cut-off above 320 K needs a reading that is above it. */
  lemma {:induction false} NoFalseAlarm(avg: real, readings: seq<real>, bound: real)
    requires avg <= bound && forall i | 0 <= i < |readings| :: readings[i] <= bound
    ensures Average(avg, readings) <= bound
    decreases |readings|
  {
    hide Averaged;
    if readings != [] {
      NoFalseAlarm(if readings[0] > 10.0 then Averaged(avg, readings[0]) else avg, readings[1..], bound);
    }
  }
}
