/** The motion controller's position tracking: does the tracked position agree with the pulses that
    really went out?

    `World` pairs the controller's fields with the plant: the net pulses each axis has received since
    its datum was last set, counted up to the last landing. `Step` is one lock region of the
    controller; the regions of concurrent callers interleave freely between launch and landing. */
module MotionControl {
  import opened Timeline
  import opened StepProfile
  import opened ProfileLaws
  import opened StepperAxis

  /** What the waveform hardware is busy with. */
  datatype Flight = Grounded | Moving(yawPlan: MovePlan, pitchPlan: MovePlan) | Sweeping(plan: MovePlan)

  datatype World = World(yaw: Axis, pitch: Axis, busy: bool, enabled: bool, sweepActive: bool,
                         flight: Flight, yawNet: int, pitchNet: int)
  {
    predicate BothKnown() { yaw.known && pitch.known }
  }

  /** `MoveLand` and `SweepFinish` carry what the backend reported and how many pulses it really sent. */
  datatype Event =
    | MoveLaunch(yawDeg: real, pitchDeg: real)
    | MoveLand(ok: bool, yawPulses: nat, pitchPulses: nat)
    | HomeCheck
    | SweepLaunch(targetDeg: real, speedDegS: real, accelDegS2: real, started: bool)
    | SweepFinish(reached: bool, pulses: nat)
    | SetMotion(yawMotion: AxisMotion, pitchMotion: AxisMotion)
    | SetEnabled(asserted: bool)
    | AbortMotion

  function Launch(w: World, yawDeg: real, pitchDeg: real, sqrt: real -> real): World {
    if w.busy || !w.BothKnown() then w
    else
      var yawPlan := w.yaw.Plan(yawDeg, 0.0, 0.0, sqrt);
      var pitchPlan := w.pitch.Plan(pitchDeg, 0.0, 0.0, sqrt);
      if yawPlan.steps == 0 && pitchPlan.steps == 0 then w
      else w.(busy := true, enabled := true, flight := Moving(yawPlan, pitchPlan))
  }

  function Land(w: World, ok: bool, yawPulses: nat, pitchPulses: nat): World
    requires w.flight.Moving?
  {
    var yp, pp := w.flight.yawPlan, w.flight.pitchPlan;
    w.(busy := false, flight := Grounded,
       yaw := if ok then w.yaw.Commit(yp) else w.yaw.MarkPositionUnknown(),
       pitch := if ok then w.pitch.Commit(pp) else w.pitch.MarkPositionUnknown(),
       yawNet := w.yawNet + Directed(yp.forward, yawPulses),
       pitchNet := w.pitchNet + Directed(pp.forward, pitchPulses))
  }

  /** The first half of homing; with the position known it goes on to an ordinary move to (0, 0). */
  function Home(w: World): World {
    if w.BothKnown() then w
    else w.(yaw := w.yaw.ResetToZero(), pitch := w.pitch.ResetToZero(), yawNet := 0, pitchNet := 0)
  }

  /** StartYawSweep: note that it does not look at `known`. */
  function StartSweep(w: World, targetDeg: real, speedDegS: real, accelDegS2: real, started: bool,
                      sqrt: real -> real): World {
    if w.busy then w
    else
      var plan := w.yaw.Plan(targetDeg, speedDegS, accelDegS2, sqrt);
      if plan.steps == 0 then w.(sweepActive := false)
      else if !started then w.(enabled := true, sweepActive := false)
      else w.(busy := true, enabled := true, sweepActive := true, flight := Sweeping(plan))
  }

  function FinishSweep(w: World, reached: bool, pulses: nat): World
    requires !w.flight.Moving?
  {
    if !w.flight.Sweeping? then w.(busy := false)
    else
      var p := w.flight.plan;
      w.(busy := false, sweepActive := false, flight := Grounded,
         yaw := if reached then w.yaw.Commit(p) else w.yaw.MarkPositionUnknown(),
         yawNet := w.yawNet + Directed(p.forward, pulses))
  }

  /** What can happen at all: no more pulses than planned, landings only of flights, and one motion user
      at a time finishes a sweep. */
  predicate Possible(w: World, e: Event) {
    match e
    case MoveLand(_, yawPulses, pitchPulses) =>
      && w.flight.Moving?
      && yawPulses <= |w.flight.yawPlan.stepTimesUs|
      && pitchPulses <= |w.flight.pitchPlan.stepTimesUs|
    case SweepFinish(_, pulses) =>
      && !w.flight.Moving?
      && (w.flight.Sweeping? ==> pulses <= |w.flight.plan.stepTimesUs|)
    case _ => true
  }

  function Step(w: World, e: Event, sqrt: real -> real): World
    requires Possible(w, e)
  {
    match e
    case MoveLaunch(yawDeg, pitchDeg) => Launch(w, yawDeg, pitchDeg, sqrt)
    case MoveLand(ok, yawPulses, pitchPulses) => Land(w, ok, yawPulses, pitchPulses)
    case HomeCheck => Home(w)
    case SweepLaunch(deg, speed, accel, started) => StartSweep(w, deg, speed, accel, started, sqrt)
    case SweepFinish(reached, pulses) => FinishSweep(w, reached, pulses)
    case SetMotion(ym, pm) => w.(yaw := w.yaw.(motion := ym), pitch := w.pitch.(motion := pm))
    case SetEnabled(asserted) => w.(enabled := asserted)
    case AbortMotion => w
  }

  // ---------------------------------------------------------------- trust

  /** An axis that reports a known position is where the emitted pulses put it. */
  ghost predicate Trusted(w: World) {
    && (w.yaw.known ==> w.yaw.current == w.yawNet)
    && (w.pitch.known ==> w.pitch.current == w.pitchNet)
  }

  ghost predicate PositiveEnvelope(m: AxisMotion) { m.maxSpeedDegS > 0.0 && m.accelDegS2 > 0.0 }

  ghost predicate Inv(w: World) {
    && Trusted(w)
    && w.yaw.microstepsPerDeg > 0.0 && w.pitch.microstepsPerDeg > 0.0
    && PositiveEnvelope(w.yaw.motion) && PositiveEnvelope(w.pitch.motion)
    && (!w.flight.Grounded? ==> w.busy && w.BothKnown())
    && (w.sweepActive <==> w.flight.Sweeping?)
    && (w.flight.Moving? ==> WholePlan(w.flight.yawPlan) && WholePlan(w.flight.pitchPlan))
    && (w.flight.Sweeping? ==> WholePlan(w.flight.plan))
  }

  /** A plan with a strictly increasing time for each of its steps. */
  ghost predicate WholePlan(p: MovePlan) { |p.stepTimesUs| == p.steps && Ascending(p.stepTimesUs) }

  /** The contract asked of the surroundings: success means every pulse went out, "reached" is truthful,
      sweeps start from a known position, and envelopes pass validation. */
  ghost predicate Honest(w: World, e: Event) {
    match e
    case MoveLand(ok, yawPulses, pitchPulses) =>
      ok && w.flight.Moving? ==>
        yawPulses == |w.flight.yawPlan.stepTimesUs| && pitchPulses == |w.flight.pitchPlan.stepTimesUs|
    case SweepFinish(reached, pulses) =>
      reached && w.flight.Sweeping? ==> pulses == |w.flight.plan.stepTimesUs|
    case SweepLaunch(_, _, _, _) => w.BothKnown()
    case SetMotion(ym, pm) => PositiveEnvelope(ym) && PositiveEnvelope(pm)
    case _ => true
  }

  lemma PlanAscends(a: Axis, targetDeg: real, speedDegS: real, accelDegS2: real, sqrt: real -> real)
    ensures Ascending(a.Plan(targetDeg, speedDegS, accelDegS2, sqrt).stepTimesUs)
  {
    var p := a.Plan(targetDeg, speedDegS, accelDegS2, sqrt);
    var n, acc, v := p.steps, a.Accel(accelDegS2), a.Speed(speedDegS);
    if n > 0 && acc > 0.0 && v > 0.0 {
      FixUpGaps(Rounded(Profile(n, acc, v), sqrt));
    }
    assert GapsAtLeast(p.stepTimesUs, 1);
    AscendingFromGaps(p.stepTimesUs);
  }

  lemma PlanHasAllSteps(a: Axis, targetDeg: real, speedDegS: real, accelDegS2: real, sqrt: real -> real)
    requires a.microstepsPerDeg > 0.0 && PositiveEnvelope(a.motion)
    ensures WholePlan(a.Plan(targetDeg, speedDegS, accelDegS2, sqrt))
  {
    PlanAscends(a, targetDeg, speedDegS, accelDegS2, sqrt);
    assert a.Accel(accelDegS2) > 0.0 && a.Speed(speedDegS) > 0.0;
  }

  lemma StepKeepsInv(w: World, e: Event, sqrt: real -> real)
    requires Inv(w) && Possible(w, e) && Honest(w, e)
    ensures Inv(Step(w, e, sqrt))
  {
    match e
    case MoveLaunch(yawDeg, pitchDeg) =>
      PlanHasAllSteps(w.yaw, yawDeg, 0.0, 0.0, sqrt);
      PlanHasAllSteps(w.pitch, pitchDeg, 0.0, 0.0, sqrt);
    case SweepLaunch(deg, speed, accel, _) =>
      PlanHasAllSteps(w.yaw, deg, speed, accel, sqrt);
    case MoveLand(_, _, _) =>
    case HomeCheck =>
    case SweepFinish(_, _) =>
    case SetMotion(_, _) =>
    case SetEnabled(_) =>
    case AbortMotion =>
  }

  /** `w'` is reached from `w` through `es`, with every event possible and honest when it happens. */
  ghost predicate Runs(w: World, es: seq<Event>, w': World, sqrt: real -> real)
    decreases |es|
  {
    if es == [] then w == w'
    else Possible(w, es[0]) && Honest(w, es[0]) && Runs(Step(w, es[0], sqrt), es[1..], w', sqrt)
  }

  lemma {:induction false} InvOverRuns(w: World, es: seq<Event>, w': World, sqrt: real -> real)
    requires Inv(w) && Runs(w, es, w', sqrt)
    ensures Inv(w')
    decreases |es|
  {
    if es != [] {
      StepKeepsInv(w, es[0], sqrt);
      InvOverRuns(Step(w, es[0], sqrt), es[1..], w', sqrt);
    }
  }

  /** The two axes' fixed scale and their envelopes at start-up. */
  datatype Setup = Setup(yawPerDeg: real, pitchPerDeg: real, yaw: AxisMotion, pitch: AxisMotion)
  {
    ghost predicate Valid() { yawPerDeg > 0.0 && pitchPerDeg > 0.0 && PositiveEnvelope(yaw) && PositiveEnvelope(pitch) }
  }

  /** A controller just constructed: nothing moving, and the pose it finds itself in is (0, 0). */
  function Boot(c: Setup): World {
    World(Axis(c.yawPerDeg, c.yaw, 0, 0.0, true), Axis(c.pitchPerDeg, c.pitch, 0, 0.0, true),
          false, false, false, Grounded, 0, 0)
  }

  /** Position trust over whole runs: from start-up, any interleaving of moves, sweeps, aborts, homes and envelope
      changes leaves every axis that reports a known position exactly where its pulses put it. */
  lemma TrustOverRuns(c: Setup, es: seq<Event>, w: World, sqrt: real -> real)
    requires c.Valid() && Runs(Boot(c), es, w, sqrt)
    ensures Inv(w) && Trusted(w)
  {
    InvOverRuns(Boot(c), es, w, sqrt);
  }

  /** Until someone homes, an unknown position stays unknown and not one pulse is emitted. */
  lemma {:induction false} UnknownMeansStill(w: World, es: seq<Event>, w': World, sqrt: real -> real)
    requires Inv(w) && Runs(w, es, w', sqrt) && !w.BothKnown()
    requires HomeCheck !in es
    ensures !w'.BothKnown() && w'.yawNet == w.yawNet && w'.pitchNet == w.pitchNet
    decreases |es|
  {
    if es != [] {
      StepKeepsInv(w, es[0], sqrt);
      assert es[0] in es;
      UnknownMeansStill(Step(w, es[0], sqrt), es[1..], w', sqrt);
    }
  }

  /** Committing a landing is right if and only if the pulse counts are the planned ones. */
  lemma SuccessMustMeanAllPulses(w: World, yawPulses: nat, pitchPulses: nat, sqrt: real -> real)
    requires Inv(w) && Possible(w, MoveLand(true, yawPulses, pitchPulses))
    ensures Trusted(Step(w, MoveLand(true, yawPulses, pitchPulses), sqrt))
            <==> yawPulses == w.flight.yawPlan.steps && pitchPulses == w.flight.pitchPlan.steps
  {
  }

  /** Committing a sweep, even one started from an untrusted position, is right if and only if its pulses make up
      the whole difference between tracked and real position. */
  lemma ReachedMustBeTruthful(w: World, pulses: nat, sqrt: real -> real)
    requires w.flight.Sweeping? && Possible(w, SweepFinish(true, pulses)) && w.flight.plan.steps > 0
    requires w.pitch.known ==> w.pitch.current == w.pitchNet
    ensures Trusted(Step(w, SweepFinish(true, pulses), sqrt))
            <==> w.yaw.current + w.flight.plan.Signed() == w.yawNet + Directed(w.flight.plan.forward, pulses)
  {
  }

  // ---------------------------------------------------------------- one waveform at a time

  /** A waveform in the air: while it has not landed, nothing anybody asks for replaces it, moves the tracked position
      or adds a pulse; and it was launched with the motors on. */
  lemma {:induction false} FlightUndisturbed(w: World, es: seq<Event>, w': World, sqrt: real -> real)
    requires Inv(w) && !w.flight.Grounded? && Runs(w, es, w', sqrt)
    requires forall k :: 0 <= k < |es| ==> !es[k].MoveLand? && !es[k].SweepFinish?
    ensures w'.flight == w.flight && w'.busy && w'.yawNet == w.yawNet && w'.pitchNet == w.pitchNet
    ensures w'.yaw == w.yaw.(motion := w'.yaw.motion) && w'.pitch == w.pitch.(motion := w'.pitch.motion)
    decreases |es|
  {
    if es != [] {
      StepKeepsInv(w, es[0], sqrt);
      assert !es[0].MoveLand? && !es[0].SweepFinish?;
      FlightUndisturbed(Step(w, es[0], sqrt), es[1..], w', sqrt);
    }
  }

  /** A new waveform goes out only from the ground, with the motors on, and along the plan from where the axes were
      tracked to be to what was asked for; a move only from a known position. */
  lemma NewFlight(w: World, e: Event, sqrt: real -> real)
    requires Inv(w) && Possible(w, e) && Step(w, e, sqrt).flight != w.flight && !Step(w, e, sqrt).flight.Grounded?
    ensures var t := Step(w, e, sqrt);
            && w.flight.Grounded? && !w.busy && t.busy && t.enabled && (e.MoveLaunch? || e.SweepLaunch?)
            && (e.MoveLaunch? ==>
                  && t.flight.Moving? && w.BothKnown()
                  && w.yaw.current + t.flight.yawPlan.Signed() == w.yaw.TargetMicrosteps(e.yawDeg)
                  && w.pitch.current + t.flight.pitchPlan.Signed() == w.pitch.TargetMicrosteps(e.pitchDeg))
            && (e.SweepLaunch? ==>
                  && t.flight.Sweeping? && e.started
                  && w.yaw.current + t.flight.plan.Signed() == w.yaw.TargetMicrosteps(e.targetDeg))
  {
  }

  /** Exactly when a move goes out: nothing is under way, the position is known, and there is somewhere to go. */
  lemma MoveGoesOutIff(w: World, yawDeg: real, pitchDeg: real, sqrt: real -> real)
    requires Inv(w)
    ensures Step(w, MoveLaunch(yawDeg, pitchDeg), sqrt) != w
            <==> !w.busy && w.BothKnown()
                 && (w.yaw.current != w.yaw.TargetMicrosteps(yawDeg)
                     || w.pitch.current != w.pitch.TargetMicrosteps(pitchDeg))
  {
    var p, q := w.yaw.Plan(yawDeg, 0.0, 0.0, sqrt), w.pitch.Plan(pitchDeg, 0.0, 0.0, sqrt);
    assert w.yaw.current + p.Signed() == w.yaw.TargetMicrosteps(yawDeg);
    assert w.pitch.current + q.Signed() == w.pitch.TargetMicrosteps(pitchDeg);
  }

  // ---------------------------------------------------------------- envelopes and motors

  /** A new envelope holds for its own axis from the next plan on: whatever is asked for, the target lies inside it to
      half a microstep. The axes stay where they are. */
  lemma EnvelopeInForce(w: World, ym: AxisMotion, pm: AxisMotion, deg: real, sqrt: real -> real)
    requires w.yaw.microstepsPerDeg > 0.0 && w.pitch.microstepsPerDeg > 0.0
    requires ym.minDeg <= ym.maxDeg && pm.minDeg <= pm.maxDeg
    ensures var t := Step(w, SetMotion(ym, pm), sqrt);
            && InEnvelope(t.yaw, t.yaw.TargetMicrosteps(deg), ym)
            && InEnvelope(t.pitch, t.pitch.TargetMicrosteps(deg), pm)
            && t.yaw.current == w.yaw.current && t.pitch.current == w.pitch.current
            && t.yaw.known == w.yaw.known && t.pitch.known == w.pitch.known && t.flight == w.flight
  {
    TargetInEnvelope(w.yaw.(motion := ym), deg);
    TargetInEnvelope(w.pitch.(motion := pm), deg);
  }

  ghost predicate InEnvelope(a: Axis, microsteps: int, m: AxisMotion)
    requires a.microstepsPerDeg > 0.0
  {
    var half := 0.5 / a.microstepsPerDeg;
    m.minDeg - half <= microsteps as real / a.microstepsPerDeg <= m.maxDeg + half
  }

  lemma TargetInEnvelope(a: Axis, deg: real)
    requires a.microstepsPerDeg > 0.0 && a.motion.minDeg <= a.motion.maxDeg
    ensures InEnvelope(a, a.TargetMicrosteps(deg), a.motion)
  {
    NearestIsNear(a.(current := a.TargetMicrosteps(deg)), Move(a.motion, deg, 0.0, 0.0));
  }

  /** Motors that are switched off stay off until somebody switches them on or launches a waveform; a launch does switch
      them on (`NewFlight`), faulted or not. */
  lemma {:induction false} MotorsStayOff(w: World, es: seq<Event>, w': World, sqrt: real -> real)
    requires Runs(Step(w, SetEnabled(false), sqrt), es, w', sqrt)
    requires forall k :: 0 <= k < |es| ==> !es[k].MoveLaunch? && !es[k].SweepLaunch? && es[k] != SetEnabled(true)
    ensures !w'.enabled
  {
    OffOverRuns(Step(w, SetEnabled(false), sqrt), es, w', sqrt);
  }

  lemma {:induction false} OffOverRuns(w: World, es: seq<Event>, w': World, sqrt: real -> real)
    requires !w.enabled && Runs(w, es, w', sqrt)
    requires forall k :: 0 <= k < |es| ==> !es[k].MoveLaunch? && !es[k].SweepLaunch? && es[k] != SetEnabled(true)
    ensures !w'.enabled
    decreases |es|
  {
    if es != [] {
      assert !es[0].MoveLaunch? && !es[0].SweepLaunch? && es[0] != SetEnabled(true);
      OffOverRuns(Step(w, es[0], sqrt), es[1..], w', sqrt);
    }
  }

  /** Homing declares a new datum exactly when a position is unknown; otherwise it is an ordinary move. */
  lemma DatumIff(w: World, sqrt: real -> real)
    ensures Step(w, HomeCheck, sqrt) != w <==> !w.BothKnown()
    ensures Step(w, HomeCheck, sqrt).BothKnown()
  {
  }

  /** A landing frees the controller, and nothing else of a waveform does. */
  lemma LandingFrees(w: World, e: Event, sqrt: real -> real)
    requires Inv(w) && Possible(w, e) && !w.flight.Grounded?
    ensures var t := Step(w, e, sqrt);
            if e.MoveLand? || e.SweepFinish? then t.flight.Grounded? && !t.busy && !t.sweepActive
            else t.flight == w.flight && t.busy
  {
  }
}
