/** The controller object. Each method is proved against the steps of MotionControl; what the backend does
    is a parameter (`BackendRun`): whether it reported success, and how many pulses each axis really received. */
module MotionController {
  import opened Timeline
  import opened StepperAxis
  import opened Waveform
  import opened MotionControl
  import opened SweepTracking

  datatype BackendRun = BackendRun(ok: bool, yawPulses: nat, pitchPulses: nat, error: string)

  datatype MoveResult = MoveResult(success: bool, error: string, yawDeg: real, pitchDeg: real)

  ghost predicate Launches(w: World, yawDeg: real, pitchDeg: real, sqrt: real -> real) {
    && !w.busy && w.BothKnown()
    && (w.yaw.Plan(yawDeg, 0.0, 0.0, sqrt).steps != 0 || w.pitch.Plan(pitchDeg, 0.0, 0.0, sqrt).steps != 0)
  }

  class MotionController {
    const yaw: StepperAxis
    const pitch: StepperAxis
    var busy: bool
    var enabled: bool
    var sweepActive: bool
    var sweepPlan: MovePlan
    ghost var yawNet: int
    ghost var pitchNet: int

    ghost predicate Valid()
      reads this, yaw, pitch
    {
      && yaw != pitch
      && yaw.microstepsPerDeg > 0.0 && pitch.microstepsPerDeg > 0.0
      && (sweepActive ==> busy)
      && Ascending(sweepPlan.stepTimesUs)
      && |sweepPlan.stepTimesUs| <= sweepPlan.steps
    }

    ghost function View(): World
      reads this, yaw, pitch
    {
      World(yaw.View(), pitch.View(), busy, enabled, sweepActive,
            if sweepActive then Sweeping(sweepPlan) else Grounded, yawNet, pitchNet)
    }

    constructor (yaw: StepperAxis, pitch: StepperAxis)
      requires yaw != pitch && yaw.microstepsPerDeg > 0.0 && pitch.microstepsPerDeg > 0.0
      ensures Valid() && this.yaw == yaw && this.pitch == pitch
      ensures View() == World(yaw.View(), pitch.View(), false, false, false, Grounded,
                              yaw.View().current, pitch.View().current)
    {
      this.yaw, this.pitch := yaw, pitch;
      busy, enabled, sweepActive, sweepPlan := false, false, false, EmptyPlan;
      yawNet, pitchNet := yaw.currentMicrosteps, pitch.currentMicrosteps;
    }

    method Report(success: bool, error: string) returns (result: MoveResult)
      requires Valid()
      ensures result == MoveResult(success, error, View().yaw.CurrentDeg(), View().pitch.CurrentDeg())
    {
      result := MoveResult(success, error, yaw.View().CurrentDeg(), pitch.View().CurrentDeg());
    }

    /** The second lock region of a move. */
    method LandMove(yawPlan: MovePlan, pitchPlan: MovePlan, run: BackendRun)
      requires Valid() && !sweepActive
      modifies this, yaw, pitch
      ensures Valid() && enabled == old(enabled)
      ensures View() == Land(old(View()).(flight := Moving(yawPlan, pitchPlan)), run.ok, run.yawPulses, run.pitchPulses)
    {
      yawNet := yawNet + Directed(yawPlan.forward, run.yawPulses);
      pitchNet := pitchNet + Directed(pitchPlan.forward, run.pitchPulses);
      busy := false;
      if run.ok {
        yaw.Commit(yawPlan);
        pitch.Commit(pitchPlan);
      } else {
        yaw.MarkPositionUnknown();
        pitch.MarkPositionUnknown();
      }
    }

    /** Blocking absolute move: refuse, do nothing, or launch and land. */
    method MoveTo(yawDeg: real, pitchDeg: real, sqrt: real -> real, run: BackendRun)
      returns (result: MoveResult, ghost wave: seq<Timed<AxisId>>)
      requires Valid()
      modifies this, yaw, pitch
      ensures Valid()
      ensures var start := old(View()); var launched := Launches(start, yawDeg, pitchDeg, sqrt);
              && (!launched ==> View() == start)
              && (launched ==>
                    && var mid := Launch(start, yawDeg, pitchDeg, sqrt);
                    && mid.flight.Moving?
                    && Coalesced(BothAxes(mid.flight.yawPlan.stepTimesUs, mid.flight.pitchPlan.stepTimesUs), wave)
                    && View() == Land(mid, run.ok, run.yawPulses, run.pitchPulses))
              && (result.success <==> !start.busy && start.BothKnown() && (launched ==> run.ok))
      ensures result.yawDeg == View().yaw.CurrentDeg() && result.pitchDeg == View().pitch.CurrentDeg()
    {
      hide Axis.Plan, Axis.Commit;
      wave := [];
      if busy {
        result := Report(false, "motion already in flight");
        return;
      }
      if !yaw.positionKnown || !pitch.positionKnown {
        result := Report(false, "position unknown after an aborted move; re-home before moving");
        return;
      }
      var yawPlan := yaw.PlanMove(yawDeg, 0.0, 0.0, sqrt);
      var pitchPlan := pitch.PlanMove(pitchDeg, 0.0, 0.0, sqrt);
      if yawPlan.steps == 0 && pitchPlan.steps == 0 {
        result := Report(true, "");
        return;
      }
      if !enabled {
        enabled := true;
      }
      var merged := MergeAxisPlans(yawPlan, pitchPlan);
      wave := merged.pulses;
      busy := true;

      // The lock is free here while the waveform runs.
      LandMove(yawPlan, pitchPlan, run);
      result := Report(run.ok, if run.ok then "" else if run.error == "" then "motion aborted" else run.error);
    }

    /** Known: drive to (0, 0). Unknown: declare the present pose to be (0, 0), without motion. */
    method HomeGantry(sqrt: real -> real, run: BackendRun) returns (result: MoveResult, ghost wave: seq<Timed<AxisId>>)
      requires Valid()
      modifies this, yaw, pitch
      ensures Valid()
      ensures var start := old(View()); var launched := Launches(start, 0.0, 0.0, sqrt);
              && (!launched ==> View() == Home(start))
              && (launched ==>
                    && var mid := Launch(start, 0.0, 0.0, sqrt);
                    && mid.flight.Moving?
                    && Coalesced(BothAxes(mid.flight.yawPlan.stepTimesUs, mid.flight.pitchPlan.stepTimesUs), wave)
                    && View() == Land(mid, run.ok, run.yawPulses, run.pitchPulses))
              && (!start.BothKnown() ==> result.success && View().BothKnown())
              && (start.BothKnown() ==> (result.success <==> !start.busy && (launched ==> run.ok)))
    {
      wave := [];
      if !yaw.positionKnown || !pitch.positionKnown {
        yaw.ResetToZero();
        pitch.ResetToZero();
        yawNet, pitchNet := 0, 0;
        result := Report(true, "");
        return;
      }
      result, wave := MoveTo(0.0, 0.0, sqrt, run);
    }

    /** Launches a yaw-only sweep without waiting; `started` is what the backend answered. */
    method StartYawSweep(targetDeg: real, speedDegS: real, accelDegS2: real, sqrt: real -> real, started: bool)
      returns (ok: bool, ghost wave: seq<Timed<AxisId>>)
      requires Valid()
      modifies this
      ensures Valid()
      ensures View() == StartSweep(old(View()), targetDeg, speedDegS, accelDegS2, started, sqrt)
      ensures ok && sweepActive ==> Coalesced(BothAxes(sweepPlan.stepTimesUs, []), wave)
      ensures ok <==> !old(busy) && (yaw.View().Plan(targetDeg, speedDegS, accelDegS2, sqrt).steps == 0 || started)
    {
      wave := [];
      if busy {
        return false, [];
      }
      var plan := yaw.PlanMove(targetDeg, speedDegS, accelDegS2, sqrt);
      if plan.steps == 0 {
        sweepActive := false;
        return true, [];
      }
      if !enabled {
        enabled := true;
      }
      PlanAscends(yaw.View(), targetDeg, speedDegS, accelDegS2, sqrt);
      var merged := MergeAxisPlans(plan, EmptyPlan);
      wave := merged.pulses;
      sweepPlan := plan;
      sweepActive := true;
      busy := true;
      if !started {
        busy := false;
        sweepActive := false;
        return false, wave;
      }
      ok := true;
    }

    /** Commits or distrusts the sweep; `pulses` is how many yaw pulses really went out. */
    method FinishYawSweep(reachedTarget: bool, ghost pulses: nat)
      requires Valid()
      modifies this, yaw
      ensures Valid()
      ensures View() == FinishSweep(old(View()), reachedTarget, pulses)
    {
      busy := false;
      if sweepActive {
        if reachedTarget {
          yaw.Commit(sweepPlan);
        } else {
          yaw.MarkPositionUnknown();
        }
        yawNet := yawNet + Directed(sweepPlan.forward, pulses);
        sweepActive := false;
      }
    }

    method SweepMicrostepsTravelled(us: int) returns (n: int)
      requires Valid()
      ensures n == if sweepActive then Travelled(sweepPlan, us) else 0
    {
      if !sweepActive {
        return 0;
      }
      var times := sweepPlan.stepTimesUs;
      if times == [] || us <= 0 {
        return 0;
      }
      n := UpperBound(times, us);
      if sweepPlan.steps < n {
        n := sweepPlan.steps;
      }
    }

    method LiveYaw(us: int) returns (deg: real)
      requires Valid()
      ensures deg == LiveYawDeg(yaw.View(), sweepActive, sweepPlan, us)
    {
      if !sweepActive {
        deg := yaw.View().CurrentDeg();
        return;
      }
      var times := sweepPlan.stepTimesUs;
      var travelled := 0;
      if times != [] && us > 0 {
        travelled := UpperBound(times, us);
        if sweepPlan.steps < travelled {
          travelled := sweepPlan.steps;
        }
      }
      var delta := travelled as real / yaw.microstepsPerDeg;
      deg := yaw.View().CurrentDeg() + if sweepPlan.forward then delta else -delta;
    }
  }

  /** Homing an untrusted gantry restores trust at (0, 0) without a pulse; homing a trusted one that arrives
      ends at microstep 0 whenever 0 degrees lies in the envelope. */
  lemma HomeIsZero(start: World)
    requires Inv(start) && start.yaw.motion.minDeg <= 0.0 <= start.yaw.motion.maxDeg
    requires start.pitch.motion.minDeg <= 0.0 <= start.pitch.motion.maxDeg
    ensures !start.BothKnown() && start.flight.Grounded? ==>
              var h := Home(start);
              && Inv(h) && h.BothKnown() && h.yaw.current == h.yawNet == 0 && h.pitch.current == h.pitchNet == 0
              && h.yaw.lastTargetDeg == h.pitch.lastTargetDeg == 0.0
    ensures start.yaw.TargetMicrosteps(0.0) == 0 && start.pitch.TargetMicrosteps(0.0) == 0
  {
    assert 0.0 * start.yaw.microstepsPerDeg == 0.0 && 0.0 * start.pitch.microstepsPerDeg == 0.0;
  }
}
