/** The whole motion compiler, from target angles to the signal on the step pins. */
module Pipeline {
  import opened Arithmetic
  import opened Timeline
  import opened StepProfile
  import opened ProfileLaws
  import opened StepperAxis
  import opened Waveform
  import opened Signal
  import opened SweepTracking
  import opened PulseCount
  import opened MotionControl

  /** One planning call: an axis, a target, and the speed and acceleration overrides (0 means none). */
  datatype Request = Request(axis: Axis, targetDeg: real, speedDegS: real, accelDegS2: real)
  {
    function Speed(): real { axis.Speed(speedDegS) }
    function Accel(): real { axis.Accel(accelDegS2) }
    function Plan(sqrt: real -> real): MovePlan { axis.Plan(targetDeg, speedDegS, accelDegS2, sqrt) }

    /** The envelope is positive and its speed limit leaves more than a pulse width between steps. */
    ghost predicate Drivable(width: nat) {
      Accel() > 0.0 && Speed() > 0.0 && MinGap(Speed()) > width
    }

    /** When step `k` starts: the trapezoid, in microseconds, rounded. */
    function StepStart(sqrt: real -> real, k: nat): int
      requires Accel() > 0.0 && Speed() > 0.0 && k < Plan(sqrt).steps
    {
      Profile(Plan(sqrt).steps, Accel(), Speed()).RoundedTime(sqrt, k)
    }

    /** How many microsteps away the target is. */
    function Distance(): nat { Abs(axis.TargetMicrosteps(targetDeg) - axis.current) }

    predicate LastStepBegun(sqrt: real -> real, t: int)
      requires Accel() > 0.0 && Speed() > 0.0
    {
      Plan(sqrt).steps > 0 ==> t >= StepStart(sqrt, Plan(sqrt).steps - 1)
    }

    /** Some step of the trapezoid is under way at `t`. */
    ghost predicate Stepping(sqrt: real -> real, width: nat, t: int)
      requires Accel() > 0.0 && Speed() > 0.0
    {
      exists k :: 0 <= k < Plan(sqrt).steps && StepStart(sqrt, k) <= t < StepStart(sqrt, k) + width
    }
  }

  lemma SlowEnough(v: real, width: nat)
    requires v > 0.0 && width >= 1 && MinGap(v) > width
    ensures v <= 1000000.0
  {
    var q := 1000000.0 / v;
    assert q >= 2.0;
    DivMul(1000000.0, v);
    MulMono(2.0, q, v);
  }

  /** The planned step times are the rounded trapezoid, untouched by the fix-up, and far enough apart. */
  lemma PlannedTimes(r: Request, sqrt: real -> real, width: nat)
    requires IsSqrt(sqrt) && width >= 1 && r.Drivable(width)
    ensures var p := r.Plan(sqrt);
            && |p.stepTimesUs| == p.steps
            && (p.steps > 0 ==> p.stepTimesUs[0] == 0)
            && GapsAtLeast(p.stepTimesUs, width + 1)
            && (forall k :: 0 <= k < p.steps ==> p.stepTimesUs[k] == r.StepStart(sqrt, k))
  {
    var p := r.Plan(sqrt);
    SlowEnough(r.Speed(), width);
    if p.steps > 0 {
      StepTimesAreRoundedProfile(p.steps, r.Accel(), r.Speed(), sqrt);
    }
  }

  lemma UnderWayIsStepping(r: Request, sqrt: real -> real, width: nat, t: int)
    requires IsSqrt(sqrt) && width >= 1 && r.Drivable(width)
    ensures UnderWay(r.Plan(sqrt).stepTimesUs, width, t) <==> r.Stepping(sqrt, width, t)
  {
    PlannedTimes(r, sqrt, width);
  }

  /** A two-axis move compiled to edge events, with the pins idle beforehand. */
  ghost predicate Compiled(yaw: Request, pitch: Request, sqrt: real -> real, pins: StepPins,
                           merged: seq<Timed<AxisId>>, events: seq<Timed<Edge>>, high: set<Pin>) {
    && pins.yawStep != pins.pitchStep && !pins.Asserted(high, pins.yawStep) && !pins.Asserted(high, pins.pitchStep)
    && (yaw.Plan(sqrt).steps > 0 || pitch.Plan(sqrt).steps > 0)
    && Coalesced(BothAxes(yaw.Plan(sqrt).stepTimesUs, pitch.Plan(sqrt).stepTimesUs), merged)
    && Coalesced(pins.RawEvents(merged), events)
  }

  /** The compiler is correct: for any two targets, either polarity and any sort, the replayed records assert an
      axis's step pin at microsecond `t` exactly when some step of that axis's trapezoid is under way. */
  lemma CompiledMoveSignal(yaw: Request, pitch: Request, sqrt: real -> real, pins: StepPins,
                           merged: seq<Timed<AxisId>>, events: seq<Timed<Edge>>, high: set<Pin>, axis: AxisId, t: nat)
    requires IsSqrt(sqrt) && yaw.Drivable(pins.Width()) && pitch.Drivable(pins.Width())
    requires Compiled(yaw, pitch, sqrt, pins, merged, events, high)
    ensures pins.Asserted(LevelsAt(high, Records(events), t), pins.PinOf(axis))
            <==> (if axis.Yaw? then yaw else pitch).Stepping(sqrt, pins.Width(), t)
  {
    PlannedTimes(yaw, sqrt, pins.Width());
    PlannedTimes(pitch, sqrt, pins.Width());
    var yt, pt := yaw.Plan(sqrt).stepTimesUs, pitch.Plan(sqrt).stepTimesUs;
    AxisSignal(pins, yt, pt, merged, events, high, axis, t);
    UnderWayIsStepping(if axis.Yaw? then yaw else pitch, sqrt, pins.Width(), t);
  }

  /** Any positive envelope, however fast. */
  ghost predicate Moves(r: Request) { r.Accel() > 0.0 && r.Speed() > 0.0 }

  lemma PlanStartsAtZero(r: Request, sqrt: real -> real)
    requires IsSqrt(sqrt) && Moves(r)
    ensures var times := r.Plan(sqrt).stepTimesUs;
            |times| == r.Plan(sqrt).steps && Ascending(times) && (times != [] ==> times[0] == 0)
  {
    var p := r.Plan(sqrt);
    PlanAscends(r.axis, r.targetDeg, r.speedDegS, r.accelDegS2, sqrt);
    if p.steps > 0 {
      FirstStepAtZero(Profile(p.steps, r.Accel(), r.Speed()), sqrt);
    }
  }

  /** Exactly when the compiler is correct: for any two targets and positive envelopes, the pin of an axis follows its
      planned step times at every microsecond if and only if those times are at least the spacing apart: more than
      the pulse width when active high, the pulse width when active low. */
  lemma CompiledMoveSignalIff(yaw: Request, pitch: Request, sqrt: real -> real, pins: StepPins,
                              merged: seq<Timed<AxisId>>, events: seq<Timed<Edge>>, high: set<Pin>, axis: AxisId)
    requires IsSqrt(sqrt) && Moves(yaw) && Moves(pitch)
    requires Compiled(yaw, pitch, sqrt, pins, merged, events, high)
    ensures var times := (if axis.Yaw? then yaw else pitch).Plan(sqrt).stepTimesUs;
            PinFollows(pins, times, events, high, axis) <==> GapsAtLeast(times, pins.Spacing())
  {
    PlanStartsAtZero(yaw, sqrt);
    PlanStartsAtZero(pitch, sqrt);
    AxisSignalIff(pins, yaw.Plan(sqrt).stepTimesUs, pitch.Plan(sqrt).stepTimesUs, merged, events, high, axis);
  }

  /** Two microsteps under an envelope that passes validation, which asks only for positive limits: 1000 microsteps
      per degree, a million degrees per second, half a billion degrees per second squared. */
  const Hasty := Request(Axis(1000.0, AxisMotion(-50.0, 50.0, 1000000.0, 500000000.0), 0, 0.0, true), 0.002, 0.0, 0.0)

  lemma HastySteps(sqrt: real -> real)
    requires IsSqrt(sqrt)
    ensures Moves(Hasty) && Hasty.Plan(sqrt).stepTimesUs == [0, 2]
  {
    assert Clamp(0.002, -50.0, 50.0) * 1000.0 == 2.0;
    assert Hasty.axis.TargetMicrosteps(0.002) == 2;
    var p := Profile(2, 500000000000.0, 1000000000.0);
    assert Hasty.Accel() == p.accel && Hasty.Speed() == p.vmax;
    assert p.RampLimit() == 1000000.0;
    assert p.Ramp() == 1 && p.Cruise() == 0;
    var t := p.RampTime(sqrt, 1);
    RampTimeSquare(p, sqrt, 0);
    RampTimeSquare(p, sqrt, 1);
    assert t * t == 0.000002 * 0.000002;
    SquareOrder(t, 0.000002);
    SquareOrder(0.000002, t);
    assert t == 0.000002;
    assert p.StepTime(sqrt, 1) == t;
    assert Rounded(p, sqrt) == [0, 2];
    FixUpIdentity([0, 2]);
    assert StepTimes(2, p.accel, p.vmax, sqrt) == [0, 2];
  }

  /** A move that is not what was planned: with the standard pulse width of 4 microseconds, either polarity, the
      second step of that request comes 2 microseconds after the first, and at some microsecond the yaw pin is not
      at the level the plan asks for. */
  lemma HastyMoveIsGarbled(pitch: Request, sqrt: real -> real, pins: StepPins,
                           merged: seq<Timed<AxisId>>, events: seq<Timed<Edge>>, high: set<Pin>)
    requires IsSqrt(sqrt) && Moves(pitch) && pins.stepPulseUs == 4
    requires Compiled(Hasty, pitch, sqrt, pins, merged, events, high)
    ensures exists t: nat :: pins.Asserted(LevelsAt(high, Records(events), t), pins.yawStep) != UnderWay([0, 2], 4, t)
  {
    HastySteps(sqrt);
    CompiledMoveSignalIff(Hasty, pitch, sqrt, pins, merged, events, high, Yaw);
    assert !GapsAtLeast([0, 2], pins.Spacing()) by {
      assert [0, 2][1] - [0, 2][0] == 2;
    }
  }

  /** The same axis staying where it is. */
  const Still := Hasty.(targetDeg := 0.0)

  const TwoPulses: seq<Timed<AxisId>> := [Timed(0, {Yaw}), Timed(2, {Yaw})]

  /** The merged edges of two 4 microsecond pulses that begin 2 microseconds apart. */
  function TwoPulseEvents(pins: StepPins): seq<Timed<Edge>> {
    var up, down := {pins.AssertEdge(pins.yawStep)}, {pins.DeassertEdge(pins.yawStep)};
    [Timed(0, up), Timed(2, up), Timed(4, down), Timed(6, down)]
  }

  lemma TwoPulseRaw(pins: StepPins)
    requires pins.stepPulseUs == 4
    ensures var e := TwoPulseEvents(pins); pins.RawEvents(TwoPulses) == [e[0], e[2], e[1], e[3]]
  {
    var e := TwoPulseEvents(pins);
    assert pins.Mask({Yaw}) == {pins.yawStep};
    assert TwoPulses[..1] == [TwoPulses[0]] && [TwoPulses[0]][..0] == [] && pins.RawEvents([]) == [];
    assert pins.AssertEvent(TwoPulses[0]) == e[0] && pins.DeassertEvent(TwoPulses[0]) == e[2];
    assert pins.AssertEvent(TwoPulses[1]) == e[1] && pins.DeassertEvent(TwoPulses[1]) == e[3];
    assert pins.RawEvents([TwoPulses[0]]) == [e[0], e[2]];
  }

  lemma TwoPulsesMerge(pins: StepPins)
    requires pins.stepPulseUs == 4
    ensures Coalesced(pins.RawEvents(TwoPulses), TwoPulseEvents(pins))
  {
    TwoPulseRaw(pins);
    EarlierEndFirst(TwoPulseEvents(pins));
  }

  lemma EarlierEndFirst(e: seq<Timed<Edge>>)
    requires |e| == 4 && StrictTimes(e)
    ensures Coalesced([e[0], e[2], e[1], e[3]], e)
  {
    AlreadyCoalesced(e);
    assert e == [e[0], e[1], e[2], e[3]];
    hide Coalesced;
    CoalesceAnySort([e[0], e[2], e[1], e[3]], e, e, e, e);
  }

  lemma StillStays(sqrt: real -> real)
    ensures Moves(Still) && Still.Plan(sqrt).stepTimesUs == []
  {
    assert Still.axis.TargetMicrosteps(0.0) == 0;
  }

  /** That move really compiles, to these lists. */
  lemma HastyMoveCompiles(sqrt: real -> real, pins: StepPins, high: set<Pin>)
    requires IsSqrt(sqrt) && pins.stepPulseUs == 4 && pins.yawStep != pins.pitchStep
    requires !pins.Asserted(high, pins.yawStep) && !pins.Asserted(high, pins.pitchStep)
    ensures Moves(Still) && Compiled(Hasty, Still, sqrt, pins, TwoPulses, TwoPulseEvents(pins), high)
  {
    HastySteps(sqrt);
    StillStays(sqrt);
    TwoPulsesMerge(pins);
    AlreadyCoalesced(TwoPulses);
    assert Hasty.Plan(sqrt).steps > 0;
    hide Coalesced, Axis.Plan;
    assert BothAxes([0, 2], []) == TwoPulses;
  }

  /** And it emits the right number of pulses: once an axis's last step has begun, its pin has been pulsed exactly
      as many times as there are microsteps between where the axis was and its target. */
  lemma CompiledMovePulses(yaw: Request, pitch: Request, sqrt: real -> real, pins: StepPins,
                           merged: seq<Timed<AxisId>>, events: seq<Timed<Edge>>, high: set<Pin>, axis: AxisId, t: nat)
    requires IsSqrt(sqrt) && yaw.Drivable(pins.Width()) && pitch.Drivable(pins.Width())
    requires Compiled(yaw, pitch, sqrt, pins, merged, events, high)
    requires (if axis.Yaw? then yaw else pitch).LastStepBegun(sqrt, t)
    ensures RiseCount(pins, high, Records(events), pins.PinOf(axis), t) == (if axis.Yaw? then yaw else pitch).Distance()
  {
    PlannedTimes(yaw, sqrt, pins.Width());
    PlannedTimes(pitch, sqrt, pins.Width());
    var r := if axis.Yaw? then yaw else pitch;
    AxisPulseCount(pins, yaw.Plan(sqrt).stepTimesUs, pitch.Plan(sqrt).stepTimesUs, merged, events, high, axis, t);
    WholePlanCounted(r, sqrt, pins.Width(), t);
  }

  /** Exactly when it does: for any targets and positive envelopes, once the last step of an axis has begun its pin has
      been pulsed as often as there are microsteps to go if and only if its steps are more than a pulse width apart. */
  lemma CompiledMovePulsesIff(yaw: Request, pitch: Request, sqrt: real -> real, pins: StepPins,
                              merged: seq<Timed<AxisId>>, events: seq<Timed<Edge>>, high: set<Pin>,
                              axis: AxisId, t: nat)
    requires IsSqrt(sqrt) && Moves(yaw) && Moves(pitch)
    requires Compiled(yaw, pitch, sqrt, pins, merged, events, high)
    requires AllBegun((if axis.Yaw? then yaw else pitch).Plan(sqrt).stepTimesUs, t)
    ensures var r := if axis.Yaw? then yaw else pitch;
            RiseCount(pins, high, Records(events), pins.PinOf(axis), t) == r.Distance()
            <==> GapsAtLeast(r.Plan(sqrt).stepTimesUs, pins.Width() + 1)
  {
    PlanStartsAtZero(yaw, sqrt);
    PlanStartsAtZero(pitch, sqrt);
    var r := if axis.Yaw? then yaw else pitch;
    var yt, pt := yaw.Plan(sqrt).stepTimesUs, pitch.Plan(sqrt).stepTimesUs;
    assert Waves(pins, yt, pt, events);
    assert |TimesFor(yt, pt, axis)| == r.Distance();
    hide Waves, Axis.Plan;
    RisesAreStepsIff(pins, yt, pt, events, high, axis, t);
  }

  lemma WholePlanCounted(r: Request, sqrt: real -> real, width: nat, t: nat)
    requires IsSqrt(sqrt) && width >= 1 && r.Drivable(width)
    requires r.LastStepBegun(sqrt, t)
    ensures CountUpTo(r.Plan(sqrt).stepTimesUs, t) == r.Distance()
  {
    PlannedTimes(r, sqrt, width);
    if r.Plan(sqrt).steps > 0 {
      AllCounted(r.Plan(sqrt).stepTimesUs, width, t);
    }
    assert r.Plan(sqrt).steps == r.Distance();
  }

  /** The number of pulses begun by `t` is the number of planned steps at or before `t`. */
  lemma AxisPulseCount(pins: StepPins, yaw: seq<nat>, pitch: seq<nat>, merged: seq<Timed<AxisId>>,
                       events: seq<Timed<Edge>>, high: set<Pin>, axis: AxisId, t: nat)
    requires pins.yawStep != pins.pitchStep && !pins.Asserted(high, pins.PinOf(axis))
    requires Coalesced(BothAxes(yaw, pitch), merged) && Coalesced(pins.RawEvents(merged), events)
    requires yaw != [] || pitch != []
    requires yaw != [] ==> yaw[0] == 0
    requires pitch != [] ==> pitch[0] == 0
    requires GapsAtLeast(if axis.Yaw? then yaw else pitch, pins.Width() + 1)
    ensures RiseCount(pins, high, Records(events), pins.PinOf(axis), t)
            == CountUpTo(if axis.Yaw? then yaw else pitch, t)
  {
    var times := if axis.Yaw? then yaw else pitch;
    assert GapsAtLeast(times, 1);
    AscendingFromGaps(times);
    forall u: nat | u <= t
      ensures RisesAt(pins, high, Records(events), pins.PinOf(axis), u) <==> u in times
    {
      AxisSignal(pins, yaw, pitch, merged, events, high, axis, u);
    }
    RisesAreCounted(pins, high, Records(events), pins.PinOf(axis), times, t);
  }

  lemma AllCounted(times: seq<nat>, width: nat, t: nat)
    requires GapsAtLeast(times, width + 1) && times != [] && t >= times[|times| - 1]
    ensures CountUpTo(times, t) == |times|
  {
    assert GapsAtLeast(times, 1);
    AscendingFromGaps(times);
    forall k | 0 <= k < |times| ensures times[k] <= t {
      assert k < |times| - 1 ==> times[k] < times[|times| - 1];
    }
    BoundaryUnique(times, t, |times|);
  }

  /** A planned sweep is tracked exactly: the step count reported at any positive elapsed time is the number of
      pulses its yaw-only waveform has begun on the yaw pin. */
  lemma PlannedSweepIsTracked(yaw: Request, sqrt: real -> real, pins: StepPins, merged: seq<Timed<AxisId>>,
                              events: seq<Timed<Edge>>, high: set<Pin>, us: int)
    requires IsSqrt(sqrt) && us > 0 && yaw.Drivable(pins.Width()) && yaw.Plan(sqrt).steps > 0
    requires pins.yawStep != pins.pitchStep && !pins.Asserted(high, pins.yawStep)
    requires Coalesced(BothAxes(yaw.Plan(sqrt).stepTimesUs, []), merged) && Coalesced(pins.RawEvents(merged), events)
    ensures Travelled(yaw.Plan(sqrt), us) == RiseCount(pins, high, Records(events), pins.yawStep, us)
  {
    PlannedTimes(yaw, sqrt, pins.Width());
    TrackingMatchesWaveform(pins, yaw.Plan(sqrt), merged, events, high, us);
  }
}
