/** One stepper axis: planning an absolute move from the tracked position, and committing it. */
module StepperAxis {
  import opened Arithmetic
  import opened StepProfile

  datatype AxisMotion = AxisMotion(minDeg: real, maxDeg: real, maxSpeedDegS: real, accelDegS2: real)

  datatype MovePlan = MovePlan(stepTimesUs: seq<nat>, forward: bool, steps: nat,
                               finalDeg: real, totalDurationUs: nat)
  {
    /** Microsteps by which a committed plan moves the axis. */
    function Signed(): int { Directed(forward, steps) }
  }

  function Directed(forward: bool, steps: int): int { if forward then steps else -steps }

  const EmptyPlan := MovePlan([], true, 0, 0.0, 0)

  function Clamp(v: real, lo: real, hi: real): real {
    if v < lo then lo else if v > hi then hi else v
  }

  /** The whole microstep nearest to `deg` after clamping it to the envelope. */
  function NearestMicrostep(motion: AxisMotion, microstepsPerDeg: real, deg: real): int {
    LlRound(Clamp(deg, motion.minDeg, motion.maxDeg) * microstepsPerDeg)
  }

  function Abs(x: int): nat { if x < 0 then -x else x }

  /** The fields of an axis object. */
  datatype Axis = Axis(microstepsPerDeg: real, motion: AxisMotion,
                       current: int, lastTargetDeg: real, known: bool)
  {
    function TargetMicrosteps(targetDeg: real): int {
      NearestMicrostep(motion, microstepsPerDeg, targetDeg)
    }

    function CurrentDeg(): real
      requires microstepsPerDeg > 0.0
    {
      current as real / microstepsPerDeg
    }

    /** The speed and acceleration a move really uses: an override counts only when positive. */
    function Accel(accelDegS2: real): real {
      (if accelDegS2 > 0.0 then accelDegS2 else motion.accelDegS2) * microstepsPerDeg
    }

    function Speed(speedDegS: real): real {
      (if speedDegS > 0.0 then speedDegS else motion.maxSpeedDegS) * microstepsPerDeg
    }

    function Plan(targetDeg: real, speedDegS: real, accelDegS2: real, sqrt: real -> real): (p: MovePlan)
      ensures current + p.Signed() == TargetMicrosteps(targetDeg)
      ensures p.steps == 0 ==> p.stepTimesUs == []
      ensures |p.stepTimesUs| == p.steps || p.stepTimesUs == []
    {
      var clamped := Clamp(targetDeg, motion.minDeg, motion.maxDeg);
      var delta := TargetMicrosteps(targetDeg) - current;
      if delta == 0 then EmptyPlan.(finalDeg := clamped)
      else
        var times := StepTimes(Abs(delta), Accel(accelDegS2), Speed(speedDegS), sqrt);
        MovePlan(times, delta > 0, Abs(delta), clamped, if times == [] then 0 else times[|times| - 1])
    }

    function Commit(p: MovePlan): Axis {
      if p.steps == 0 then this.(lastTargetDeg := p.finalDeg)
      else this.(current := current + p.Signed(), lastTargetDeg := p.finalDeg, known := true)
    }

    function MarkPositionUnknown(): Axis { this.(known := false) }

    function ResetToZero(): Axis { this.(current := 0, lastTargetDeg := 0.0, known := true) }
  }

  class StepperAxis {
    const microstepsPerDeg: real
    var motion: AxisMotion
    var currentMicrosteps: int
    var lastTargetDeg: real
    var positionKnown: bool

    constructor (microstepsPerDeg: real, motion: AxisMotion)
      ensures View() == Axis(microstepsPerDeg, motion, 0, 0.0, true)
    {
      this.microstepsPerDeg := microstepsPerDeg;
      this.motion := motion;
      currentMicrosteps, lastTargetDeg, positionKnown := 0, 0.0, true;
    }

    function View(): Axis
      reads this
    {
      Axis(microstepsPerDeg, motion, currentMicrosteps, lastTargetDeg, positionKnown)
    }

    method SetMotion(motion: AxisMotion)
      modifies this`motion
      ensures View() == old(View()).(motion := motion)
    {
      this.motion := motion;
    }

    /** Plans without touching the axis; a zero override means "use the envelope". */
    method PlanMove(targetDeg: real, speedDegS: real, accelDegS2: real, sqrt: real -> real) returns (plan: MovePlan)
      ensures plan == View().Plan(targetDeg, speedDegS, accelDegS2, sqrt)
    {
      plan := EmptyPlan;
      var clamped := Clamp(targetDeg, motion.minDeg, motion.maxDeg);
      plan := plan.(finalDeg := clamped);
      var target := NearestMicrostep(motion, microstepsPerDeg, targetDeg);
      var delta := target - currentMicrosteps;
      if delta == 0 {
        return;
      }
      var times := GenerateStepTimes(Abs(delta), View().Accel(accelDegS2), View().Speed(speedDegS), sqrt);
      plan := plan.(forward := delta > 0, steps := Abs(delta), stepTimesUs := times);
      plan := plan.(totalDurationUs := if times == [] then 0 else times[|times| - 1]);
    }

    method Commit(plan: MovePlan)
      modifies this`currentMicrosteps, this`lastTargetDeg, this`positionKnown
      ensures View() == old(View()).Commit(plan)
    {
      if plan.steps == 0 {
        lastTargetDeg := plan.finalDeg;
        return;
      }
      currentMicrosteps := currentMicrosteps + Directed(plan.forward, plan.steps);
      lastTargetDeg := plan.finalDeg;
      positionKnown := true;
    }

    method MarkPositionUnknown()
      modifies this`positionKnown
      ensures View() == old(View()).MarkPositionUnknown()
    {
      positionKnown := false;
    }

    method ResetToZero()
      modifies this`currentMicrosteps, this`lastTargetDeg, this`positionKnown
      ensures View() == old(View()).ResetToZero()
    {
      currentMicrosteps := 0;
      lastTargetDeg := 0.0;
      positionKnown := true;
    }
  }

  // ---------------------------------------------------------------- no drift

  /** One successful move, possibly under a freshly swapped envelope and with overrides. */
  datatype Move = Move(motion: AxisMotion, targetDeg: real, speedDegS: real, accelDegS2: real)

  function Perform(a: Axis, m: Move, sqrt: real -> real): Axis {
    var b := a.(motion := m.motion);
    b.Commit(b.Plan(m.targetDeg, m.speedDegS, m.accelDegS2, sqrt))
  }

  function PerformAll(a: Axis, ms: seq<Move>, sqrt: real -> real): Axis {
    if ms == [] then a else Perform(PerformAll(a, ms[..|ms| - 1], sqrt), ms[|ms| - 1], sqrt)
  }

  /** After any sequence of successful moves the microstep count is a function of the last target and
      envelope alone, whatever the start and whatever came before: rounding never accumulates. */
  lemma NoDrift(a: Axis, ms: seq<Move>, sqrt: real -> real)
    requires ms != []
    ensures var m := ms[|ms| - 1]; var end := PerformAll(a, ms, sqrt);
            && end.current == NearestMicrostep(m.motion, a.microstepsPerDeg, m.targetDeg)
            && end.lastTargetDeg == Clamp(m.targetDeg, m.motion.minDeg, m.motion.maxDeg)
  {
    var before := PerformAll(a, ms[..|ms| - 1], sqrt);
    ScaleKept(a, ms[..|ms| - 1], sqrt);
    PerformReaches(before, ms[|ms| - 1], sqrt);
  }

  lemma PerformReaches(a: Axis, m: Move, sqrt: real -> real)
    ensures var end := Perform(a, m, sqrt);
            && end.current == NearestMicrostep(m.motion, a.microstepsPerDeg, m.targetDeg)
            && end.lastTargetDeg == Clamp(m.targetDeg, m.motion.minDeg, m.motion.maxDeg)
            && end.microstepsPerDeg == a.microstepsPerDeg
  {
    var b := a.(motion := m.motion);
    var p := b.Plan(m.targetDeg, m.speedDegS, m.accelDegS2, sqrt);
    assert b.current + p.Signed() == b.TargetMicrosteps(m.targetDeg);
  }

  lemma {:induction false} ScaleKept(a: Axis, ms: seq<Move>, sqrt: real -> real)
    ensures PerformAll(a, ms, sqrt).microstepsPerDeg == a.microstepsPerDeg
  {
    if ms != [] {
      ScaleKept(a, ms[..|ms| - 1], sqrt);
    }
  }

  /** In degrees: the axis ends within half a microstep of the clamped target. */
  lemma EndsWithinHalfMicrostep(a: Axis, m: Move, sqrt: real -> real)
    requires a.microstepsPerDeg > 0.0
    ensures var deg := Clamp(m.targetDeg, m.motion.minDeg, m.motion.maxDeg);
            var half := 0.5 / a.microstepsPerDeg;
            -half <= Perform(a, m, sqrt).CurrentDeg() - deg <= half
  {
    PerformReaches(a, m, sqrt);
    NearestIsNear(Perform(a, m, sqrt), m);
  }

  lemma NearestIsNear(end: Axis, m: Move)
    requires end.microstepsPerDeg > 0.0
    requires end.current == NearestMicrostep(m.motion, end.microstepsPerDeg, m.targetDeg)
    ensures var deg := Clamp(m.targetDeg, m.motion.minDeg, m.motion.maxDeg);
            var half := 0.5 / end.microstepsPerDeg;
            -half <= end.CurrentDeg() - deg <= half
  {
    var deg := Clamp(m.targetDeg, m.motion.minDeg, m.motion.maxDeg);
    HalfStep(end.current as real, deg, end.microstepsPerDeg);
  }

  lemma HalfStep(c: real, d: real, k: real)
    requires k > 0.0 && -0.5 <= c - d * k <= 0.5
    ensures -(0.5 / k) <= c / k - d <= 0.5 / k
  {
    assert (d * k) / k == d;
    assert c / k - (d * k) / k == (c - d * k) / k;
  }

  /** No move leaves the mechanical envelope by more than the half microstep of rounding, and none of the positions in
      it is nearer to the requested one by more than that. */
  lemma StaysInEnvelope(a: Axis, m: Move, sqrt: real -> real, d: real)
    requires a.microstepsPerDeg > 0.0 && m.motion.minDeg <= d <= m.motion.maxDeg
    ensures var end := Perform(a, m, sqrt).CurrentDeg(); var half := 0.5 / a.microstepsPerDeg;
            && m.motion.minDeg - half <= end <= m.motion.maxDeg + half
            && Apart(end, m.targetDeg) <= Apart(d, m.targetDeg) + half
  {
    EndsWithinHalfMicrostep(a, m, sqrt);
  }

  function Apart(x: real, y: real): real { if x < y then y - x else x - y }

  /** Every position a move passes through lies between its start and its target. */
  lemma StaysBetween(a: Axis, targetDeg: real, speedDegS: real, accelDegS2: real, sqrt: real -> real, k: nat)
    requires k <= a.Plan(targetDeg, speedDegS, accelDegS2, sqrt).steps
    ensures var p := a.Plan(targetDeg, speedDegS, accelDegS2, sqrt);
            var here := a.current + Directed(p.forward, k);
            var end := a.Commit(p).current;
            && end == a.TargetMicrosteps(targetDeg)
            && (a.current <= here <= end || end <= here <= a.current)
  {
    var p := a.Plan(targetDeg, speedDegS, accelDegS2, sqrt);
    assert a.current + p.Signed() == a.TargetMicrosteps(targetDeg);
  }
}
