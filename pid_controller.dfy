/**
 * The PID controller that turns a valve's temperature error into a valve
 * position (multistat/rootfs/app/pid_controller.py).
 *
 * The controller is an object whose fields are updated in place; its abstract
 * value is the `PidState` datatype, and each method is specified by a pure
 * step function on that value.  The wall clock read by `update` is the explicit
 * parameter `now`; floats are reals.
 */
module PidControl {
  import opened Common

  /**
   * `max(limits[0], min(limits[1], x))`: the output clamped to the limits.
   * With inverted limits the lower limit wins.
   */
  function Clamp(limits: (real, real), x: real): (r: real)
    ensures limits.0 <= limits.1 ==> limits.0 <= r <= limits.1
    ensures limits.0 > limits.1 ==> r == limits.0
    ensures limits.0 <= x <= limits.1 ==> r == x
    ensures x < limits.0 ==> r == limits.0
    ensures limits.0 <= limits.1 < x ==> r == limits.1
  {
    // Python's min and max keep the first argument unless the second is strictly better.
    var upper := if x < limits.1 then x else limits.1;
    if upper > limits.0 then upper else limits.0
  }

  /** The clamped proportional response alone: `clamp(kp * (setpoint - value))`. */
  function Proportional(limits: (real, real), kp: real, setpoint: real, value: real): real {
    Clamp(limits, kp * (setpoint - value))
  }

  /** `kp*e + ki*integral + kd*(e - lastError)/dt`, the unclamped PID sum. */
  function PidOutput(kp: real, ki: real, kd: real, error: real, integral: real, lastError: real, dt: real): real
    requires dt > 0.0
  {
    kp * error + ki * integral + kd * ((error - lastError) / dt)
  }

  /** Everything a controller holds: gains, setpoint, limits and the running state. */
  datatype PidState = PidState(
    kp: real, ki: real, kd: real,
    setpoint: real,
    outputLimits: (real, real),
    lastTime: Option<real>,
    lastError: Option<real>,
    integral: real)
  {
    /** The last sample time and the last error are recorded and cleared together. */
    predicate Valid() {
      lastTime.None? <==> lastError.None?
    }

    /** The part of the state that `update` never touches. */
    predicate SameSettings(other: PidState) {
      kp == other.kp && ki == other.ki && kd == other.kd
      && setpoint == other.setpoint && outputLimits == other.outputLimits
    }
  }

  /** A fresh controller: no sample yet, nothing integrated. */
  function Initial(kp: real, ki: real, kd: real, setpoint: real, outputLimits: (real, real)): (s: PidState)
    ensures s.Valid() && s.lastTime.None? && s.integral == 0.0
  {
    PidState(kp, ki, kd, setpoint, outputLimits, None, None, 0.0)
  }

  /** True when a sample at `now` is strictly later than the recorded one. */
  predicate Advances(s: PidState, now: real) {
    s.lastTime.Some? && now - s.lastTime.value > 0.0
  }

  /**
   * One call of `update(currentValue)` at time `now`: the new state and the
   * returned output.  The first call and a call whose time step is not
   * positive use the proportional term only; otherwise the error times the
   * time step is integrated and the derivative of the error is added.
   */
  function UpdateStep(s: PidState, currentValue: real, now: real): (res: (PidState, real))
    requires s.Valid()
    ensures res.0.Valid() && res.0.lastTime.Some? && res.0.SameSettings(s)
    ensures s.outputLimits.0 <= s.outputLimits.1 ==> s.outputLimits.0 <= res.1 <= s.outputLimits.1
    ensures s.ki == 0.0 && s.kd == 0.0 ==> res.1 == Proportional(s.outputLimits, s.kp, s.setpoint, currentValue)
    ensures !Advances(s, now) ==> res.1 == Proportional(s.outputLimits, s.kp, s.setpoint, currentValue)
    ensures res.0.integral - s.integral
            == if Advances(s, now) then (s.setpoint - currentValue) * (now - s.lastTime.value) else 0.0
    ensures s.lastTime.Some? && !Advances(s, now) ==> res.0 == s
    ensures s.lastTime.None? || Advances(s, now) ==>
              res.0.lastTime == Some(now) && res.0.lastError == Some(s.setpoint - currentValue)
  {
    var error := s.setpoint - currentValue;
    if s.lastTime.None? then
      (s.(lastTime := Some(now), lastError := Some(error)), Proportional(s.outputLimits, s.kp, s.setpoint, currentValue))
    else
      var dt := now - s.lastTime.value;
      if dt <= 0.0 then
        (s, Proportional(s.outputLimits, s.kp, s.setpoint, currentValue))
      else
        var integral := s.integral + error * dt;
        var output := PidOutput(s.kp, s.ki, s.kd, error, integral, s.lastError.value, dt);
        (s.(integral := integral, lastTime := Some(now), lastError := Some(error)),
         Clamp(s.outputLimits, output))
  }

  /** One measurement handed to `update`, with the time at which it is handed. */
  datatype Sample = Sample(value: real, time: real)

  /** A run of consecutive `update` calls: the final state and every output, in order. */
  function UpdateRun(s: PidState, samples: seq<Sample>): (res: (PidState, seq<real>))
    requires s.Valid()
    ensures res.0.Valid() && res.0.SameSettings(s)
    ensures |res.1| == |samples|
  {
    if samples == [] then (s, [])
    else
      var prefix := UpdateRun(s, samples[..|samples| - 1]);
      var last := samples[|samples| - 1];
      var step := UpdateStep(prefix.0, last.value, last.time);
      (step.0, prefix.1 + [step.1])
  }

  /**
   * With the integral and derivative gains at zero, every output of every run
   * is the clamped proportional response to that sample's error.
   */
  lemma {:induction false} ProportionalOnlyRun(s: PidState, samples: seq<Sample>)
    requires s.Valid() && s.ki == 0.0 && s.kd == 0.0
    ensures forall i :: 0 <= i < |samples| ==>
              UpdateRun(s, samples).1[i] == Proportional(s.outputLimits, s.kp, s.setpoint, samples[i].value)
  {
    if samples != [] {
      var n := |samples| - 1;
      ProportionalOnlyRun(s, samples[..n]);
      var prefix := UpdateRun(s, samples[..n]);
      assert prefix.0.SameSettings(s);
      var step := UpdateStep(prefix.0, samples[n].value, samples[n].time);
      assert step.1 == Proportional(s.outputLimits, s.kp, s.setpoint, samples[n].value);
      var outputs := UpdateRun(s, samples).1;
      assert outputs == prefix.1 + [step.1];
      forall i | 0 <= i < n
        ensures outputs[i] == Proportional(s.outputLimits, s.kp, s.setpoint, samples[i].value)
      {
        assert samples[..n][i] == samples[i];
      }
    }
  }

  /** Every output of a run lies within the limits when they are ordered. */
  lemma {:induction false} RunOutputsWithinLimits(s: PidState, samples: seq<Sample>)
    requires s.Valid() && s.outputLimits.0 <= s.outputLimits.1
    ensures forall i :: 0 <= i < |samples| ==>
              s.outputLimits.0 <= UpdateRun(s, samples).1[i] <= s.outputLimits.1
  {
    if samples != [] {
      var n := |samples| - 1;
      RunOutputsWithinLimits(s, samples[..n]);
      var prefix := UpdateRun(s, samples[..n]);
      assert UpdateRun(s, samples).1 == prefix.1 + [UpdateStep(prefix.0, samples[n].value, samples[n].time).1];
    }
  }

  /** A PID controller object (class PIDController). */
  class PIDController {
    var kp: real
    var ki: real
    var kd: real
    var setpoint: real
    const outputLimits: (real, real)
    var lastTime: Option<real>
    var lastError: Option<real>
    var integral: real

    /** The abstract value of this controller. */
    function State(): PidState
      reads this
    {
      PidState(kp, ki, kd, setpoint, outputLimits, lastTime, lastError, integral)
    }

    ghost predicate Valid()
      reads this
    {
      State().Valid()
    }

    constructor (kp: real := 1.0, ki: real := 0.1, kd: real := 0.05,
                 setpoint: real := 0.0, outputLimits: (real, real) := (0.0, 100.0))
      ensures Valid() && State() == Initial(kp, ki, kd, setpoint, outputLimits)
    {
      this.kp := kp;
      this.ki := ki;
      this.kd := kd;
      this.setpoint := setpoint;
      this.outputLimits := outputLimits;
      lastTime := None;
      lastError := None;
      integral := 0.0;
    }

    /** Changes the target and discards what was integrated towards the old one. */
    method SetSetpoint(setpoint: real)
      modifies this
      ensures State() == old(State()).(setpoint := setpoint, integral := 0.0)
    {
      this.setpoint := setpoint;
      integral := 0.0;
    }

    /** One control step at time `now`. */
    method Update(currentValue: real, now: real) returns (output: real)
      requires Valid()
      modifies this
      ensures Valid()
      ensures State() == UpdateStep(old(State()), currentValue, now).0
      ensures output == UpdateStep(old(State()), currentValue, now).1
    {
      var error := setpoint - currentValue;
      if lastTime.None? {
        lastTime := Some(now);
        lastError := Some(error);
        return Proportional(outputLimits, kp, setpoint, currentValue);
      }
      var dt := now - lastTime.value;
      if dt <= 0.0 {
        return Proportional(outputLimits, kp, setpoint, currentValue);
      }
      integral := integral + error * dt;
      output := Clamp(outputLimits, PidOutput(kp, ki, kd, error, integral, lastError.value, dt));
      lastTime := Some(now);
      lastError := Some(error);
    }

    /** Forgets the last sample and the integral; gains, setpoint and limits stay. */
    method Reset()
      modifies this
      ensures Valid()
      ensures State() == Initial(old(kp), old(ki), old(kd), old(setpoint), outputLimits)
    {
      lastTime := None;
      lastError := None;
      integral := 0.0;
    }

    /** Replaces the three gains and nothing else. */
    method SetTunings(kp: real, ki: real, kd: real)
      modifies this
      ensures State() == old(State()).(kp := kp, ki := ki, kd := kd)
    {
      this.kp := kp;
      this.ki := ki;
      this.kd := kd;
    }
  }
}
