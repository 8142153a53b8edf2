/**
 The PID controller, with doubles as reals. It reads its input and setpoint, and reads and writes its output, through
 pointers to cells that its owner keeps.
 */
module Pid {
  import opened Bytes

  class Cell {
    var value: real

    constructor (value: real)
      ensures this.value == value
    {
      this.value := value;
    }
  }

  datatype Gains = Gains(p: real, i: real, d: real)

  /** The fields of a controller, with what its output points to. Gains are as entered in disp, and signed in gains. */
  datatype State = State(disp: Gains, gains: Gains, pOnE: bool, reverse: bool, lastTime: int, sampleTime: nat,
                         outputSum: real, lastInput: real, outMin: real, outMax: real, inAuto: bool, output: real)

  function Clamp(x: real, lo: real, hi: real): (r: real)
    ensures lo <= hi ==> lo <= r <= hi && (lo <= x <= hi ==> r == x)
  {
    if x > hi then hi else if x < lo then lo else x
  }

  function Scaled(gain: real, x: real): real {
    gain * x
  }

  lemma ScaledSum(gain: real, x: real, y: real)
    ensures Scaled(gain, x + y) == Scaled(gain, x) + Scaled(gain, y) && Scaled(gain, 0.0) == 0.0
  {
  }

  /** Times are unsigned 64-bit numbers of seconds, and so is their difference. */
  predicate Due(s: State, now: int) {
    (now - s.lastTime) % TWO_TO_THE_64 >= s.sampleTime
  }

  // ---------------------------------------------------------------- what the operations mean

  /** The sum before it is clamped. */
  function NextSum(s: State, input: real, setpoint: real): real {
    s.outputSum + Scaled(s.gains.i, setpoint - input) - (if s.pOnE then 0.0 else Scaled(s.gains.p, input - s.lastInput))
  }

  function Computed(s: State, now: int, input: real, setpoint: real): State {
    if !s.inAuto || !Due(s, now) then s else
    var sum := Clamp(NextSum(s, input, setpoint), s.outMin, s.outMax);
    var onError := if s.pOnE then Scaled(s.gains.p, setpoint - input) else 0.0;
    var output := onError + (sum - Scaled(s.gains.d, input - s.lastInput));
    s.(outputSum := sum, output := Clamp(output, s.outMin, s.outMax), lastInput := input, lastTime := now)
  }

  function Limited(s: State, min: real, max: real): State {
    if min >= max then s
    else if !s.inAuto then s.(outMin := min, outMax := max)
    else s.(outMin := min, outMax := max, output := Clamp(s.output, min, max),
            outputSum := Clamp(s.outputSum, min, max))
  }

  function Moded(s: State, auto: bool, input: real): State {
    if auto && !s.inAuto then s.(inAuto := true, outputSum := Clamp(s.output, s.outMin, s.outMax), lastInput := input)
    else s.(inAuto := auto)
  }

  function Tuned(s: State, g: Gains): State {
    if g.p < 0.0 || g.i < 0.0 || g.d < 0.0 then s
    else s.(disp := g, gains := Signed(g, s.reverse, s.sampleTime))
  }

  function Signed(g: Gains, reverse: bool, sampleTime: nat): Gains {
    var t := if sampleTime == 0 then 1.0 else sampleTime as real;
    if reverse then Gains(0.0 - g.p, 0.0 - g.i * t, 0.0 - g.d / t) else Gains(g.p, g.i * t, g.d / t)
  }

  // ---------------------------------------------------------------- the class

  class Pid {
    const myInput: Cell
    const myOutput: Cell
    const mySetpoint: Cell
    var disp: Gains
    var gains: Gains
    var pOnE: bool
    var reverse: bool
    var lastTime: int
    var sampleTime: nat
    var outputSum: real
    var lastInput: real
    var outMin: real
    var outMax: real
    var inAuto: bool

    ghost function Now(): State
      reads this, myOutput
    {
      State(disp, gains, pOnE, reverse, lastTime, sampleTime, outputSum, lastInput, outMin, outMax, inAuto,
            myOutput.value)
    }

    /**
     junk is what the fields happen to hold that are not set: the sum, the last input, and the gains if some are
     negative.
     */
    constructor (input: Cell, output: Cell, setpoint: Cell, g: Gains, pOnE: bool, reverse: bool, now: int, junk: State)
      ensures myInput == input && myOutput == output && mySetpoint == setpoint
      ensures !inAuto && sampleTime == 1
      ensures Now() == Tuned(junk.(pOnE := if g.p < 0.0 || g.i < 0.0 || g.d < 0.0 then junk.pOnE else pOnE,
                                   reverse := reverse,
                                   lastTime := now - 1, sampleTime := 1, outMin := 0.0, outMax := 75.0, inAuto := false,
                                   output := output.value), g)
    {
      myInput, myOutput, mySetpoint := input, output, setpoint;
      inAuto := false;
      outMin, outMax := 0.0, 75.0;
      sampleTime := 1;
      this.reverse := reverse;
      outputSum, lastInput, disp, gains, this.pOnE := junk.outputSum, junk.lastInput, junk.disp, junk.gains, junk.pOnE;
      lastTime := now - 1;
      new;
      SetTunings(g, pOnE);
    }

    method Compute(now: int) returns (done: bool)
      requires myOutput != myInput && myOutput != mySetpoint
      modifies this`outputSum, this`lastInput, this`lastTime, myOutput
      ensures Now() == Computed(old(Now()), now, myInput.value, mySetpoint.value)
      ensures done == (old(inAuto) && Due(old(Now()), now))
    {
      hide Scaled;
      if !inAuto {
        return false;
      }
      var timeChange := (now - lastTime) % TWO_TO_THE_64;
      if timeChange >= sampleTime {
        var input := myInput.value;
        var error := mySetpoint.value - input;
        var dInput := input - lastInput;
        outputSum := outputSum + Scaled(gains.i, error);
        if !pOnE {
          outputSum := outputSum - Scaled(gains.p, dInput);
        }
        if outputSum > outMax {
          outputSum := outMax;
        } else if outputSum < outMin {
          outputSum := outMin;
        }
        var output := if pOnE then Scaled(gains.p, error) else 0.0;
        output := output + (outputSum - Scaled(gains.d, dInput));
        if output > outMax {
          output := outMax;
        } else if output < outMin {
          output := outMin;
        }
        myOutput.value := output;
        lastInput := input;
        lastTime := now;
        return true;
      } else {
        return false;
      }
    }

    method SetTunings(g: Gains, onError: bool)
      requires sampleTime > 0
      modifies this`pOnE, this`disp, this`gains
      ensures Now() == Tuned(old(Now()).(pOnE := if g.p < 0.0 || g.i < 0.0 || g.d < 0.0 then old(pOnE) else onError), g)
    {
      if g.p < 0.0 || g.i < 0.0 || g.d < 0.0 {
        return;
      }
      pOnE := onError;
      disp := g;
      var sampleTimeInSec := sampleTime as real;
      gains := Gains(g.p, g.i * sampleTimeInSec, g.d / sampleTimeInSec);
      if reverse {
        gains := Gains(0.0 - gains.p, 0.0 - gains.i, 0.0 - gains.d);
      }
    }

    method SetOutputLimits(min: real, max: real)
      modifies this`outMin, this`outMax, this`outputSum, myOutput
      ensures Now() == Limited(old(Now()), min, max)
    {
      if min >= max {
        return;
      }
      outMin, outMax := min, max;
      if inAuto {
        if myOutput.value > outMax {
          myOutput.value := outMax;
        } else if myOutput.value < outMin {
          myOutput.value := outMin;
        }
        if outputSum > outMax {
          outputSum := outMax;
        } else if outputSum < outMin {
          outputSum := outMin;
        }
      }
    }

    method SetMode(auto: bool)
      modifies this`inAuto, this`outputSum, this`lastInput
      ensures Now() == Moded(old(Now()), auto, myInput.value)
    {
      if auto && !inAuto {
        Initialize();
      }
      inAuto := auto;
    }

    method Initialize()
      modifies this`outputSum, this`lastInput
      ensures Now() == old(Now()).(outputSum := Clamp(myOutput.value, outMin, outMax), lastInput := myInput.value)
    {
      outputSum := myOutput.value;
      lastInput := myInput.value;
      if outputSum > outMax {
        outputSum := outMax;
      } else if outputSum < outMin {
        outputSum := outMin;
      }
    }
  }

  // ---------------------------------------------------------------- any mix of operations

  datatype Op =
    | Compute(now: int, input: real, setpoint: real)
    | SetOutputLimits(min: real, max: real)
    | SetMode(auto: bool, input: real)
    | SetTunings(g: Gains)

  ghost function Apply(s: State, op: Op): State {
    match op
    case Compute(now, input, setpoint) => Computed(s, now, input, setpoint)
    case SetOutputLimits(min, max) => Limited(s, min, max)
    case SetMode(auto, input) => Moded(s, auto, input)
    case SetTunings(g) => Tuned(s, g)
  }

  /** The operations that bring the output within the limits. */
  ghost predicate Settles(s: State, op: Op) {
    s.inAuto && ((op.Compute? && Due(s, op.now)) || (op.SetOutputLimits? && op.min < op.max))
  }

  /** New limits in manual mode leave the output where it is. */
  ghost predicate Unsettles(s: State, op: Op) {
    !s.inAuto && op.SetOutputLimits? && op.min < op.max
  }

  ghost predicate Sound(s: State) {
    s.outMin < s.outMax && (s.inAuto ==> s.outMin <= s.outputSum <= s.outMax)
  }

  ghost predicate Within(s: State) {
    s.outMin <= s.output <= s.outMax
  }

  ghost function Run(s: State, ops: seq<Op>): State
    decreases |ops|
  {
    if ops == [] then s else Run(Apply(s, ops[0]), ops[1..])
  }

  /**
   Whether the output ends up within the limits: it is brought there by what settles, and new limits in manual mode
   leave it to where the output happens to be.
   */
  ghost predicate Settled(s: State, ops: seq<Op>, settled: bool)
    decreases |ops|
  {
    if ops == [] then settled else Settled(Apply(s, ops[0]), ops[1..], StillSettled(s, ops[0], settled))
  }

  ghost predicate StillSettled(s: State, op: Op, settled: bool) {
    if Settles(s, op) then true
    else if Unsettles(s, op) then op.min <= s.output <= op.max
    else settled
  }

  /**
   No windup: whatever the operations, the sum stays within the limits in automatic mode; the output exactly if
   settled.
   */
  lemma {:induction false} NoWindup(s: State, ops: seq<Op>)
    requires Sound(s)
    ensures Sound(Run(s, ops)) && (Within(Run(s, ops)) <==> Settled(s, ops, Within(s)))
    decreases |ops|
  {
    hide Settles, Unsettles, StillSettled;
    if ops != [] {
      SettlesExactly(s, ops[0]);
      NoWindup(Apply(s, ops[0]), ops[1..]);
    }
  }

  lemma SettlesExactly(s: State, op: Op)
    requires Sound(s)
    ensures Sound(Apply(s, op)) && (Within(Apply(s, op)) <==> StillSettled(s, op, Within(s)))
  {
    hide Scaled, Due;
  }

  // ---------------------------------------------------------------- proportional on measurement

  datatype Sample = Sample(now: int, input: real, setpoint: real)

  ghost function Follow(s: State, samples: seq<Sample>): State
    decreases |samples|
  {
    if samples == [] then s
    else Follow(Computed(s, samples[0].now, samples[0].input, samples[0].setpoint), samples[1..])
  }

  /** Every sample is due. */
  ghost predicate AllDue(s: State, samples: seq<Sample>)
    decreases |samples|
  {
    samples == [] ||
    (&& Due(s, samples[0].now)
     && AllDue(Computed(s, samples[0].now, samples[0].input, samples[0].setpoint), samples[1..]))
  }

  /** No sum on the way has to be clamped. */
  ghost predicate Unclamped(s: State, samples: seq<Sample>)
    decreases |samples|
  {
    samples == [] ||
    (&& s.outMin <= NextSum(s, samples[0].input, samples[0].setpoint) <= s.outMax
     && Unclamped(Computed(s, samples[0].now, samples[0].input, samples[0].setpoint), samples[1..]))
  }

  ghost function Errors(samples: seq<Sample>): real {
    if samples == [] then 0.0 else samples[0].setpoint - samples[0].input + Errors(samples[1..])
  }

  /** The input before the last sample. */
  ghost function Before(s: State, samples: seq<Sample>): real
    requires samples != []
  {
    if |samples| == 1 then s.lastInput else samples[|samples| - 2].input
  }

  lemma ScaledIs(gain: real, x: real)
    ensures Scaled(gain, x) == gain * x
  {
  }

  /** The integral part adds up all errors; the proportional parts on measurement cancel but for the whole change. */
  lemma ClosedForm(s: State, samples: seq<Sample>)
    requires s.inAuto && AllDue(s, samples) && Unclamped(s, samples)
    ensures var s' := Follow(s, samples);
            s'.outputSum == s.outputSum + s.gains.i * Errors(samples)
                            - (if s.pOnE then 0.0 else s.gains.p * (s'.lastInput - s.lastInput))
  {
    hide Scaled, Errors, Follow, AllDue, Unclamped;
    ScaledSums(s, samples);
    ScaledIs(s.gains.i, Errors(samples));
    ScaledIs(s.gains.p, Follow(s, samples).lastInput - s.lastInput);
  }

  lemma {:induction false} ScaledSums(s: State, samples: seq<Sample>)
    requires s.inAuto && AllDue(s, samples) && Unclamped(s, samples)
    ensures var s' := Follow(s, samples);
            s'.outputSum == s.outputSum + Scaled(s.gains.i, Errors(samples))
                            - (if s.pOnE then 0.0 else Scaled(s.gains.p, s'.lastInput - s.lastInput))
    decreases |samples|
  {
    hide Scaled, Due;
    ScaledSum(s.gains.i, 0.0, 0.0);
    ScaledSum(s.gains.p, 0.0, 0.0);
    if samples != [] {
      var s1 := Computed(s, samples[0].now, samples[0].input, samples[0].setpoint);
      ScaledSums(s1, samples[1..]);
      var s' := Follow(s1, samples[1..]);
      var e, es := samples[0].setpoint - samples[0].input, Errors(samples[1..]);
      ScaledSum(s.gains.i, e, es);
      ScaledSum(s.gains.p, s'.lastInput - s1.lastInput, s1.lastInput - s.lastInput);
      assert s'.lastInput - s.lastInput == (s'.lastInput - s1.lastInput) + (s1.lastInput - s.lastInput);
    }
  }

  /** After any number of due samples the output is the sum, less the derivative gain times the last change of input. */
  lemma LastOutput(s: State, samples: seq<Sample>)
    requires s.inAuto && AllDue(s, samples) && samples != []
    ensures var (s', last) := (Follow(s, samples), samples[|samples| - 1]);
            var onError := if s.pOnE then s.gains.p * (last.setpoint - last.input) else 0.0;
            var output := s'.outputSum + onError - s.gains.d * (last.input - Before(s, samples));
            && s'.lastInput == last.input && s'.lastTime == last.now
            && s'.output == (if output > s.outMax then s.outMax else if output < s.outMin then s.outMin else output)
  {
    hide Scaled, Follow, AllDue, Before;
    var last := samples[|samples| - 1];
    ScaledOutput(s, samples);
    ScaledIs(s.gains.p, last.setpoint - last.input);
    ScaledIs(s.gains.d, last.input - Before(s, samples));
  }

  lemma {:induction false} ScaledOutput(s: State, samples: seq<Sample>)
    requires s.inAuto && AllDue(s, samples) && samples != []
    ensures var (s', last) := (Follow(s, samples), samples[|samples| - 1]);
            var onError := if s.pOnE then Scaled(s.gains.p, last.setpoint - last.input) else 0.0;
            var output := onError + (s'.outputSum - Scaled(s.gains.d, last.input - Before(s, samples)));
            s'.lastInput == last.input && s'.lastTime == last.now && s'.output == Clamp(output, s.outMin, s.outMax)
    decreases |samples|
  {
    hide Scaled, Due, Clamp;
    var s1 := Computed(s, samples[0].now, samples[0].input, samples[0].setpoint);
    if |samples| == 1 {
      assert Follow(s, samples) == Follow(s1, []) == s1;
    } else {
      assert samples[1..][|samples| - 2] == samples[|samples| - 1];
      assert Before(s1, samples[1..]) == Before(s, samples);
      ScaledOutput(s1, samples[1..]);
    }
  }

  // ---------------------------------------------------------------- the direction of the control

  lemma ScaledGrows(gain: real, x: real, y: real)
    requires gain >= 0.0 && x <= y
    ensures Scaled(gain, x) <= Scaled(gain, y)
  {
  }

  /** A higher input never makes the output higher, and a higher setpoint never makes it lower. */
  lemma Opposes(s: State, now: int, input: real, input': real, setpoint: real, setpoint': real)
    requires s.gains.p >= 0.0 && s.gains.i >= 0.0 && s.gains.d >= 0.0 && s.outMin <= s.outMax
    requires input <= input' && setpoint >= setpoint'
    ensures Computed(s, now, input, setpoint).output >= Computed(s, now, input', setpoint').output
  {
    hide Scaled, Due;
    ScaledGrows(s.gains.i, setpoint' - input', setpoint - input);
    ScaledGrows(s.gains.p, setpoint' - input', setpoint - input);
    ScaledGrows(s.gains.p, input - s.lastInput, input' - s.lastInput);
    ScaledGrows(s.gains.d, input - s.lastInput, input' - s.lastInput);
  }

  /** A computation happens in automatic mode once a sample time has passed, or when the clock was set back. */
  lemma ComputesWhen(s: State, now: int, input: real, setpoint: real)
    requires -(TWO_TO_THE_63 as int) <= now - s.lastTime < TWO_TO_THE_63 && s.sampleTime <= TWO_TO_THE_63
    ensures var s' := Computed(s, now, input, setpoint);
            if s.inAuto && (now < s.lastTime || now >= s.lastTime + s.sampleTime)
            then s'.lastTime == now && s'.lastInput == input else s' == s
  {
    hide Scaled, Clamp, NextSum;
    var d := now - s.lastTime;
    assert d % TWO_TO_THE_64 == if d < 0 then d + TWO_TO_THE_64 else d;
  }

  /** Gains count per second of the sample time, turned round in reverse; negative ones are refused as a whole. */
  lemma TuningScales(s: State, g: Gains)
    ensures g.p < 0.0 || g.i < 0.0 || g.d < 0.0 ==> Tuned(s, g) == s
    ensures var (s', t) := (Tuned(s, g), s.sampleTime as real);
            g.p >= 0.0 && g.i >= 0.0 && g.d >= 0.0 && t > 0.0 ==>
              && s'.disp == g && s' == s.(disp := g, gains := s'.gains)
              && (!s.reverse ==> s'.gains.p == g.p && s'.gains.i == t * g.i && t * s'.gains.d == g.d)
              && (s.reverse ==> s'.gains.p == -g.p && s'.gains.i == -(t * g.i) && t * s'.gains.d == -g.d)
  {
  }

  /** Only the switch from manual to automatic changes more than the mode, and never the output. */
  lemma SwitchesQuietly(s: State, auto: bool, input: real)
    ensures var s' := Moded(s, auto, input);
            && s'.inAuto == auto && s'.output == s.output && s'.outMin == s.outMin && s'.outMax == s.outMax
            && (s.inAuto || !auto ==> s' == s.(inAuto := auto))
  {
  }

  /** Switching to automatic at the setpoint leaves the output where it was, up to the limits. */
  lemma Bumpless(s: State, now: int, input: real)
    requires !s.inAuto && s.outMin < s.outMax && Due(s, now)
    ensures Computed(Moded(s, true, input), now, input, input).output == Clamp(s.output, s.outMin, s.outMax)
  {
    hide Scaled;
    var s1 := Moded(s, true, input);
    ScaledSum(s.gains.p, 0.0, 0.0);
    ScaledSum(s.gains.i, 0.0, 0.0);
    ScaledSum(s.gains.d, 0.0, 0.0);
    assert input - input == 0.0;
  }

  /** So automatic mode can start outside the limits: they were lowered in manual mode. */
  lemma StartsOutside(s: State, min: real, max: real, input: real)
    requires !s.inAuto && min < max < s.output
    ensures var s' := Run(s, [SetOutputLimits(min, max), SetMode(true, input)]);
            s'.inAuto && s'.output > s'.outMax && s'.outputSum == s'.outMax
  {
    var ops := [SetOutputLimits(min, max), SetMode(true, input)];
    var s1 := Apply(s, ops[0]);
    assert ops[1..] == [SetMode(true, input)] && ops[1..][1..] == [];
    assert Run(s1, ops[1..]) == Run(Apply(s1, ops[1..][0]), []);
  }
}
