/** When a move that is reported as successful has really been made. The backend reports success for every waveform
    it launched, so the position is right on three conditions: no abort stopped the transmitter before the record
    that holds the last step edge, the steps of each axis are more than a pulse width apart, and the step pins were
    idle to begin with. */
module AbortedMoves {
  import opened Arithmetic
  import opened Timeline
  import opened StepProfile
  import opened ProfileLaws
  import opened StepperAxis
  import opened Waveform
  import opened Signal
  import opened PulseCount
  import opened PigpioBackend
  import opened MotionControl
  import opened MotionController
  import opened Pipeline

  // ---------------------------------------------------------------- the record of the last step

  predicate HasStep(pins: StepPins, e: Timed<Edge>) {
    pins.AssertEdge(pins.yawStep) in e.bits || pins.AssertEdge(pins.pitchStep) in e.bits
  }

  /** Number of records up to and including the last one that holds a step edge. */
  function RecordsToLastStep(pins: StepPins, events: seq<Timed<Edge>>): (n: nat)
    ensures n <= |events|
  {
    if events == [] then 0
    else if HasStep(pins, events[|events| - 1]) then |events|
    else RecordsToLastStep(pins, events[..|events| - 1])
  }

  lemma {:induction false} LastStepIff(pins: StepPins, events: seq<Timed<Edge>>, n: nat)
    ensures n >= RecordsToLastStep(pins, events) <==> forall i :: n <= i < |events| ==> !HasStep(pins, events[i])
  {
    if events != [] {
      var p, l := events[..|events| - 1], events[|events| - 1];
      LastStepIff(pins, p, n);
      assert events == p + [l];
      assert forall i :: 0 <= i < |p| ==> p[i] == events[i];
    }
  }

  lemma CutAfterLastStepIff(pins: StepPins, yaw: seq<nat>, pitch: seq<nat>, events: seq<Timed<Edge>>, n: nat)
    requires Waves(pins, yaw, pitch, events)
    ensures n >= RecordsToLastStep(pins, events) <==> StepsWithin(yaw, events, n) && StepsWithin(pitch, events, n)
  {
    LastStepIff(pins, events, n);
    if n >= RecordsToLastStep(pins, events) {
      forall t: nat | t in yaw && n < |events| ensures t < events[n].time {
        StepBefore(pins, yaw, pitch, events, n, Yaw, t);
      }
      forall t: nat | t in pitch && n < |events| ensures t < events[n].time {
        StepBefore(pins, yaw, pitch, events, n, Pitch, t);
      }
    } else {
      var i :| n <= i < |events| && HasStep(pins, events[i]);
      StepBeyond(pins, yaw, pitch, events, n, i);
    }
  }

  lemma StepBeyond(pins: StepPins, yaw: seq<nat>, pitch: seq<nat>, events: seq<Timed<Edge>>, n: nat, i: nat)
    requires Waves(pins, yaw, pitch, events) && n <= i < |events| && HasStep(pins, events[i])
    ensures !StepsWithin(yaw, events, n) || !StepsWithin(pitch, events, n)
  {
    EdgesOfAxis(pins, yaw, pitch, events, Yaw, i);
    EdgesOfAxis(pins, yaw, pitch, events, Pitch, i);
    assert events[n].time <= events[i].time;
  }

  lemma StepBefore(pins: StepPins, yaw: seq<nat>, pitch: seq<nat>, events: seq<Timed<Edge>>,
                   n: nat, axis: AxisId, t: nat)
    requires Waves(pins, yaw, pitch, events) && n < |events| && t in TimesFor(yaw, pitch, axis)
    requires forall i :: n <= i < |events| ==> !HasStep(pins, events[i])
    ensures t < events[n].time
  {
    StepsAreEvents(pins, yaw, pitch, events, axis, t);
    var j :| 0 <= j < |events| && events[j].time == t;
    EdgesOfAxis(pins, yaw, pitch, events, axis, j);
    assert HasStep(pins, events[j]);
    assert j < n;
  }

  // ---------------------------------------------------------------- a finished waveform

  /** Steps an axis has taken when the backend has finished a launched waveform: `high` is the level of the pins
      before, and `turns` is what went on meanwhile. */
  ghost function StepsRun(pins: StepPins, high: set<Pin>, events: seq<Timed<Edge>>, turns: seq<Turn>, axis: AxisId): nat
    requires StrictTimes(events)
  {
    StepsOut(pins, high, events, SentBy(|events|, 0, turns), axis)
  }

  /** No abort before the last step edge, steps more than a pulse width apart, and the pins of moving axes idle. */
  ghost predicate Delivers(pins: StepPins, high: set<Pin>, yaw: seq<nat>, pitch: seq<nat>,
                           events: seq<Timed<Edge>>, turns: seq<Turn>) {
    && !AbortBefore(RecordsToLastStep(pins, events), turns)
    && GapsAtLeast(yaw, pins.Width() + 1) && GapsAtLeast(pitch, pins.Width() + 1)
    && (yaw != [] ==> !pins.Asserted(high, pins.yawStep)) && (pitch != [] ==> !pins.Asserted(high, pins.pitchStep))
  }

  /** Both motors take every planned step exactly on those three conditions. */
  lemma EveryStepTakenIff(pins: StepPins, high: set<Pin>, yaw: seq<nat>, pitch: seq<nat>,
                          events: seq<Timed<Edge>>, turns: seq<Turn>)
    requires Waves(pins, yaw, pitch, events)
    ensures StepsRun(pins, high, events, turns, Yaw) <= |yaw| && StepsRun(pins, high, events, turns, Pitch) <= |pitch|
    ensures (StepsRun(pins, high, events, turns, Yaw) == |yaw| && StepsRun(pins, high, events, turns, Pitch) == |pitch|)
            <==> Delivers(pins, high, yaw, pitch, events, turns)
  {
    var n := SentBy(|events|, 0, turns);
    AxisStepsOutIff(pins, yaw, pitch, events, high, n, Yaw);
    AxisStepsOutIff(pins, yaw, pitch, events, high, n, Pitch);
    EveryStepRisesIff(pins, yaw, pitch, events, high, Yaw);
    EveryStepRisesIff(pins, yaw, pitch, events, high, Pitch);
    CutAfterLastStepIff(pins, yaw, pitch, events, n);
    SentAtLeastIff(|events|, 0, turns, RecordsToLastStep(pins, events));
  }

  /** The levels the pins are left at when `n` records have been sent. */
  function LevelsLeft(high: set<Pin>, events: seq<Timed<Edge>>, n: nat): set<Pin>
    requires StrictTimes(events)
  {
    LevelsAt(high, Records(events)[..Min(n, |events|)], EndOf(events))
  }

  /** Where the records stop, in microseconds. */
  function CutTime(events: seq<Timed<Edge>>, n: nat): int {
    if n < |events| then events[n].time - 1 else EndOf(events)
  }

  lemma LevelsAtCut(high: set<Pin>, events: seq<Timed<Edge>>, n: nat)
    requires StrictTimes(events) && events != [] && events[0].time == 0
    ensures n == 0 ==> LevelsLeft(high, events, n) == high && CutTime(events, n) == -1
    ensures n > 0 ==>
              && CutTime(events, n) >= 0
              && LevelsLeft(high, events, n) == LevelsAt(high, Records(events), CutTime(events, n))
  {
    var r := Records(events);
    if n == 0 {
      assert r[..0] == [];
    } else if n < |events| {
      assert r[0..n] == r[..n] && r[0..] == r;
      PrefixReplay(events, high, 0, n, EndOf(events));
    } else {
      assert r[..|events|] == r;
    }
  }

  /** A cut leaves a step pin asserted exactly when it comes in mid-pulse; the next move of that axis then loses its
      first step, although nothing disturbs it. */
  lemma PinLeftAssertedIff(pins: StepPins, high: set<Pin>, yaw: seq<nat>, pitch: seq<nat>, events: seq<Timed<Edge>>,
                           n: nat, axis: AxisId)
    requires Waves(pins, yaw, pitch, events) && events != [] && !pins.Asserted(high, pins.PinOf(axis))
    requires GapsAtLeast(TimesFor(yaw, pitch, axis), pins.Width() + 1)
    ensures pins.Asserted(LevelsLeft(high, events, n), pins.PinOf(axis))
            <==> UnderWay(TimesFor(yaw, pitch, axis), pins.Width(), CutTime(events, n))
  {
    var merged :| Coalesced(BothAxes(yaw, pitch), merged) && Coalesced(pins.RawEvents(merged), events);
    if yaw == [] && pitch == [] {
      NoStepsNoEvents(pins, events);
    }
    FirstEventAtZero(pins, yaw, pitch, merged, events);
    hide LevelsLeft, CutTime;
    LevelsAtCut(high, events, n);
    if n > 0 {
      AxisSignal(pins, yaw, pitch, merged, events, high, axis, CutTime(events, n));
    }
  }

  lemma PulsesEndInTime(pins: StepPins, yaw: seq<nat>, pitch: seq<nat>, events: seq<Timed<Edge>>, axis: AxisId, k: nat)
    requires Waves(pins, yaw, pitch, events) && k < |TimesFor(yaw, pitch, axis)|
    ensures TimesFor(yaw, pitch, axis)[k] + pins.Width() <= EndOf(events)
  {
    var merged :| Coalesced(BothAxes(yaw, pitch), merged) && Coalesced(pins.RawEvents(merged), events);
    var t, p := TimesFor(yaw, pitch, axis)[k], pins.PinOf(axis);
    AxisPulsesOnItsPin(pins, yaw, pitch, merged, axis, t);
    assert t in TimesFor(yaw, pitch, axis);
    var e :| Pulse(pins, merged, p, e) && e.time == t;
    assert EndsAt(pins, merged, p, t + pins.Width());
    EdgesAreEvents(pins, merged, events, p, t + pins.Width());
  }

  /** A waveform that runs to its end leaves a step pin as idle as it found it. */
  lemma WholeWaveformLeavesIdle(pins: StepPins, high: set<Pin>, yaw: seq<nat>, pitch: seq<nat>,
                                events: seq<Timed<Edge>>, axis: AxisId)
    requires Waves(pins, yaw, pitch, events) && !pins.Asserted(high, pins.PinOf(axis))
    requires GapsAtLeast(TimesFor(yaw, pitch, axis), pins.Width() + 1)
    ensures !pins.Asserted(LevelsLeft(high, events, |events|), pins.PinOf(axis))
  {
    if events != [] {
      PinLeftAssertedIff(pins, high, yaw, pitch, events, |events|, axis);
      hide Waves;
      var times := TimesFor(yaw, pitch, axis);
      forall k | 0 <= k < |times| ensures times[k] + pins.Width() <= EndOf(events) {
        PulsesEndInTime(pins, yaw, pitch, events, axis, k);
      }
    }
  }

  // ---------------------------------------------------------------- landings

  /** The landing of a launched move: success is reported whatever the turns were. */
  ghost function Landing(pins: StepPins, high: set<Pin>, events: seq<Timed<Edge>>,
                          turns: seq<Turn>): MotionControl.Event
    requires StrictTimes(events)
  {
    MoveLand(true, StepsRun(pins, high, events, turns, Yaw), StepsRun(pins, high, events, turns, Pitch))
  }

  /** A successful move is where it says if and only if its waveform delivers: no abort before the last step edge,
      steps more than a pulse width apart, pins idle beforehand. That is also exactly when the landing honours the
      contract that trust over runs asks for. */
  lemma SuccessIsRightIff(w: World, pins: StepPins, high: set<Pin>, events: seq<Timed<Edge>>,
                          turns: seq<Turn>, sqrt: real -> real)
    requires Inv(w) && w.flight.Moving?
    requires Waves(pins, w.flight.yawPlan.stepTimesUs, w.flight.pitchPlan.stepTimesUs, events)
    ensures var land := Landing(pins, high, events, turns);
            var delivers := Delivers(pins, high, w.flight.yawPlan.stepTimesUs, w.flight.pitchPlan.stepTimesUs,
                                     events, turns);
            && MotionControl.Possible(w, land)
            && (Trusted(MotionControl.Step(w, land, sqrt)) <==> delivers)
            && (Honest(w, land) <==> delivers)
  {
    EveryStepTakenIff(pins, high, w.flight.yawPlan.stepTimesUs, w.flight.pitchPlan.stepTimesUs, events, turns);
    SuccessMustMeanAllPulses(w, StepsRun(pins, high, events, turns, Yaw),
                             StepsRun(pins, high, events, turns, Pitch), sqrt);
  }

  /** Likewise a sweep that is committed as having reached its target, `turns` running from its launch. */
  lemma CommittedSweepIsRightIff(w: World, pins: StepPins, high: set<Pin>, events: seq<Timed<Edge>>,
                                 turns: seq<Turn>, sqrt: real -> real)
    requires Inv(w) && w.flight.Sweeping? && w.flight.plan.steps > 0
    requires Waves(pins, w.flight.plan.stepTimesUs, [], events)
    ensures var finish := SweepFinish(true, StepsRun(pins, high, events, turns, Yaw));
            var delivers := Delivers(pins, high, w.flight.plan.stepTimesUs, [], events, turns);
            && MotionControl.Possible(w, finish)
            && (Trusted(MotionControl.Step(w, finish, sqrt)) <==> delivers)
            && (Honest(w, finish) <==> delivers)
  {
    EveryStepTakenIff(pins, high, w.flight.plan.stepTimesUs, [], events, turns);
    ReachedMustBeTruthful(w, StepsRun(pins, high, events, turns, Yaw), sqrt);
  }

  // ---------------------------------------------------------------- whole runs on this backend

  /** A controller event together with the waveform it ends, if any, and what went on while that was sent. */
  datatype Deed = Deed(event: MotionControl.Event, events: seq<Timed<Edge>>, turns: seq<Turn>)

  /** The deed is one this backend can bring about from these pin levels, and what it commits was delivered. */
  ghost predicate OnBackend(w: World, high: set<Pin>, d: Deed, pins: StepPins) {
    match d.event
    case MoveLand(ok, _, _) =>
      && w.flight.Moving?
      && (ok ==>
            && Waves(pins, w.flight.yawPlan.stepTimesUs, w.flight.pitchPlan.stepTimesUs, d.events)
            && d.event == Landing(pins, high, d.events, d.turns)
            && Delivers(pins, high, w.flight.yawPlan.stepTimesUs, w.flight.pitchPlan.stepTimesUs, d.events, d.turns))
    case SweepFinish(reached, pulses) =>
      w.flight.Sweeping? ==>
        && Waves(pins, w.flight.plan.stepTimesUs, [], d.events)
        && pulses == StepsRun(pins, high, d.events, d.turns, Yaw)
        && (reached ==> Delivers(pins, high, w.flight.plan.stepTimesUs, [], d.events, d.turns))
    case SweepLaunch(_, _, _, _) => w.BothKnown()
    case SetMotion(ym, pm) => PositiveEnvelope(ym) && PositiveEnvelope(pm)
    case _ => true
  }

  /** A waveform that was launched leaves its levels behind; nothing else touches the step pins. */
  function LevelsAfter(w: World, high: set<Pin>, d: Deed): set<Pin>
    requires StrictTimes(d.events)
  {
    var launched := (d.event.MoveLand? && d.event.ok) || (d.event.SweepFinish? && w.flight.Sweeping?);
    if launched then LevelsLeft(high, d.events, SentBy(|d.events|, 0, d.turns)) else high
  }

  ghost predicate BackendRuns(w: World, high: set<Pin>, ds: seq<Deed>, w': World, pins: StepPins, sqrt: real -> real)
    decreases |ds|
  {
    if ds == [] then w == w'
    else
      && MotionControl.Possible(w, ds[0].event) && OnBackend(w, high, ds[0], pins) && StrictTimes(ds[0].events)
      && BackendRuns(MotionControl.Step(w, ds[0].event, sqrt), LevelsAfter(w, high, ds[0]), ds[1..], w', pins, sqrt)
  }

  lemma BackendIsHonest(w: World, high: set<Pin>, d: Deed, pins: StepPins, sqrt: real -> real)
    requires Inv(w) && MotionControl.Possible(w, d.event) && OnBackend(w, high, d, pins)
    ensures Honest(w, d.event)
  {
    match d.event
    case MoveLand(ok, _, _) =>
      if ok {
        SuccessIsRightIff(w, pins, high, d.events, d.turns, sqrt);
      }
    case SweepFinish(reached, _) =>
      if reached && w.flight.Sweeping? {
        EveryStepTakenIff(pins, high, w.flight.plan.stepTimesUs, [], d.events, d.turns);
      }
    case _ =>
  }

  function EventsOf(ds: seq<Deed>): seq<MotionControl.Event> {
    if ds == [] then [] else [ds[0].event] + EventsOf(ds[1..])
  }

  lemma {:induction false} BackendRunsAreHonest(w: World, high: set<Pin>, ds: seq<Deed>, w': World,
                                                pins: StepPins, sqrt: real -> real)
    requires Inv(w) && BackendRuns(w, high, ds, w', pins, sqrt)
    ensures MotionControl.Runs(w, EventsOf(ds), w', sqrt)
    decreases |ds|
  {
    if ds != [] {
      BackendIsHonest(w, high, ds[0], pins, sqrt);
      StepKeepsInv(w, ds[0].event, sqrt);
      BackendRunsAreHonest(MotionControl.Step(w, ds[0].event, sqrt), LevelsAfter(w, high, ds[0]),
                           ds[1..], w', pins, sqrt);
      assert EventsOf(ds)[1..] == EventsOf(ds[1..]);
    }
  }

  /** Position trust on this backend: from start-up, over every run in which what is committed was delivered, an axis
      that reports a known position is where its motor's steps put it. */
  lemma TrustOnBackend(c: Setup, high: set<Pin>, ds: seq<Deed>, w: World, pins: StepPins, sqrt: real -> real)
    requires c.Valid() && BackendRuns(Boot(c), high, ds, w, pins, sqrt)
    ensures Trusted(w)
  {
    BackendRunsAreHonest(Boot(c), high, ds, w, pins, sqrt);
    TrustOverRuns(c, EventsOf(ds), w, sqrt);
  }

  ghost predicate BothIdle(pins: StepPins, high: set<Pin>) {
    !pins.Asserted(high, pins.yawStep) && !pins.Asserted(high, pins.pitchStep)
  }

  /** A waveform nobody cuts, with its steps more than a pulse width apart. */
  ghost predicate Uncut(pins: StepPins, yaw: seq<nat>, pitch: seq<nat>, d: Deed) {
    && Waves(pins, yaw, pitch, d.events) && !AbortBefore(|d.events|, d.turns)
    && GapsAtLeast(yaw, pins.Width() + 1) && GapsAtLeast(pitch, pins.Width() + 1)
  }

  /** A waveform nobody cuts delivers from idle pins, and leaves them idle. */
  lemma UncutDelivers(pins: StepPins, high: set<Pin>, yaw: seq<nat>, pitch: seq<nat>, d: Deed)
    requires Uncut(pins, yaw, pitch, d) && BothIdle(pins, high)
    ensures Delivers(pins, high, yaw, pitch, d.events, d.turns)
    ensures BothIdle(pins, LevelsLeft(high, d.events, SentBy(|d.events|, 0, d.turns)))
  {
    SentAtLeastIff(|d.events|, 0, d.turns, |d.events|);
    SentAtLeastIff(|d.events|, 0, d.turns, RecordsToLastStep(pins, d.events));
    WholeWaveformLeavesIdle(pins, high, yaw, pitch, d.events, Yaw);
    WholeWaveformLeavesIdle(pins, high, yaw, pitch, d.events, Pitch);
  }

  /** As `OnBackend`, but with every launched waveform uncut and nothing said about the pins. */
  ghost predicate QuietOnBackend(w: World, high: set<Pin>, d: Deed, pins: StepPins) {
    match d.event
    case MoveLand(ok, _, _) =>
      && w.flight.Moving?
      && (ok ==> Uncut(pins, w.flight.yawPlan.stepTimesUs, w.flight.pitchPlan.stepTimesUs, d)
                 && d.event == Landing(pins, high, d.events, d.turns))
    case SweepFinish(_, pulses) =>
      w.flight.Sweeping? ==> Uncut(pins, w.flight.plan.stepTimesUs, [], d)
                             && pulses == StepsRun(pins, high, d.events, d.turns, Yaw)
    case SweepLaunch(_, _, _, _) => w.BothKnown()
    case SetMotion(ym, pm) => PositiveEnvelope(ym) && PositiveEnvelope(pm)
    case _ => true
  }

  ghost predicate QuietRuns(w: World, high: set<Pin>, ds: seq<Deed>, w': World, pins: StepPins, sqrt: real -> real)
    decreases |ds|
  {
    if ds == [] then w == w'
    else
      && MotionControl.Possible(w, ds[0].event) && QuietOnBackend(w, high, ds[0], pins) && StrictTimes(ds[0].events)
      && QuietRuns(MotionControl.Step(w, ds[0].event, sqrt), LevelsAfter(w, high, ds[0]), ds[1..], w', pins, sqrt)
  }

  lemma QuietDeed(w: World, high: set<Pin>, d: Deed, pins: StepPins)
    requires BothIdle(pins, high) && QuietOnBackend(w, high, d, pins) && StrictTimes(d.events)
    ensures OnBackend(w, high, d, pins) && BothIdle(pins, LevelsAfter(w, high, d))
  {
    if d.event.MoveLand? && d.event.ok {
      UncutDelivers(pins, high, w.flight.yawPlan.stepTimesUs, w.flight.pitchPlan.stepTimesUs, d);
    } else if d.event.SweepFinish? && w.flight.Sweeping? {
      UncutDelivers(pins, high, w.flight.plan.stepTimesUs, [], d);
    }
  }

  lemma {:induction false} QuietRunsAreBackendRuns(w: World, high: set<Pin>, ds: seq<Deed>, w': World,
                                                   pins: StepPins, sqrt: real -> real)
    requires BothIdle(pins, high) && QuietRuns(w, high, ds, w', pins, sqrt)
    ensures BackendRuns(w, high, ds, w', pins, sqrt)
    decreases |ds|
  {
    if ds != [] {
      QuietDeed(w, high, ds[0], pins);
      QuietRunsAreBackendRuns(MotionControl.Step(w, ds[0].event, sqrt), LevelsAfter(w, high, ds[0]),
                              ds[1..], w', pins, sqrt);
    }
  }

  /** Without aborts the pins look after themselves: from start-up with idle pins, over every run in which no waveform
      is cut and the steps of each are more than a pulse width apart, a known position is where the motor is. */
  lemma TrustWithoutAborts(c: Setup, high: set<Pin>, ds: seq<Deed>, w: World, pins: StepPins, sqrt: real -> real)
    requires c.Valid() && BothIdle(pins, high) && QuietRuns(Boot(c), high, ds, w, pins, sqrt)
    ensures Trusted(w)
  {
    QuietRunsAreBackendRuns(Boot(c), high, ds, w, pins, sqrt);
    TrustOnBackend(c, high, ds, w, pins, sqrt);
  }

  /** A move that launches and is delivered really arrives: each motor has taken the steps that put its axis on the
      microstep nearest its clamped target, and the axis says so. */
  lemma SuccessfulMoveArrives(start: World, yawDeg: real, pitchDeg: real, sqrt: real -> real,
                              pins: StepPins, high: set<Pin>, events: seq<Timed<Edge>>, turns: seq<Turn>)
    requires Inv(start) && Launches(start, yawDeg, pitchDeg, sqrt)
    requires var mid := Launch(start, yawDeg, pitchDeg, sqrt);
             && mid.flight.Moving?
             && Waves(pins, mid.flight.yawPlan.stepTimesUs, mid.flight.pitchPlan.stepTimesUs, events)
             && Delivers(pins, high, mid.flight.yawPlan.stepTimesUs, mid.flight.pitchPlan.stepTimesUs, events, turns)
    ensures var mid := Launch(start, yawDeg, pitchDeg, sqrt); var land := Landing(pins, high, events, turns);
            && MotionControl.Possible(mid, land)
            && var end := MotionControl.Step(mid, land, sqrt);
               && end.BothKnown() && !end.busy
               && end.yawNet == end.yaw.current == start.yaw.TargetMicrosteps(yawDeg)
               && end.pitchNet == end.pitch.current == start.pitch.TargetMicrosteps(pitchDeg)
  {
    var launch := MoveLaunch(yawDeg, pitchDeg);
    StepKeepsInv(start, launch, sqrt);
    var mid := MotionControl.Step(start, launch, sqrt);
    SuccessIsRightIff(mid, pins, high, events, turns, sqrt);
    assert start.yaw.current + mid.flight.yawPlan.Signed() == start.yaw.TargetMicrosteps(yawDeg);
    assert start.pitch.current + mid.flight.pitchPlan.Signed() == start.pitch.TargetMicrosteps(pitchDeg);
  }

  // ---------------------------------------------------------------- false successes

  /** The edge events of a waveform that is one yaw step. */
  function OneStep(pins: StepPins): seq<Timed<Edge>> {
    [Timed(0, {pins.AssertEdge(pins.yawStep)}), Timed(pins.Width(), {pins.DeassertEdge(pins.yawStep)})]
  }

  lemma OneStepEvents(pins: StepPins)
    ensures pins.RawEvents([Timed(0, {Yaw})]) == OneStep(pins)
  {
    var pulse: Timed<AxisId> := Timed(0, {Yaw});
    assert pins.Mask({Yaw}) == {pins.yawStep};
    assert [pulse][..0] == [] && pins.RawEvents([]) == [];
    assert pins.AssertEvent(pulse) == OneStep(pins)[0];
    assert pins.DeassertEvent(pulse) == OneStep(pins)[1];
  }

  lemma OneStepIsCompiled(pins: StepPins)
    requires pins.yawStep != pins.pitchStep
    ensures Waves(pins, [0], [], OneStep(pins))
  {
    var pulse: Timed<AxisId> := Timed(0, {Yaw});
    assert BothAxes([0], []) == [pulse];
    OneStepEvents(pins);
    AlreadyCoalesced([pulse]);
    AlreadyCoalesced(OneStep(pins));
  }

  /** An aborted move reported as a success. From start-up at (0, 0) with idle pins a one-microstep move is launched,
      and an abort comes at the backend's first poll, before any record is out: the move lands as successful, both
      axes claim to know where they are, and the yaw axis is a microstep away from where it claims to be. */
  lemma AbortedMoveClaimsSuccess(c: Setup, pins: StepPins, high: set<Pin>, sqrt: real -> real)
    requires c.Valid() && c.yawPerDeg == 1.0 && c.yaw.minDeg <= 0.0 && c.yaw.maxDeg >= 1.0
    requires c.pitch.minDeg <= 0.0 <= c.pitch.maxDeg && IsSqrt(sqrt) && pins.yawStep != pins.pitchStep
    ensures var mid := Launch(Boot(c), 1.0, 0.0, sqrt); var turns := [Turn(0, true)];
            && mid.flight.Moving?
            && Waves(pins, mid.flight.yawPlan.stepTimesUs, mid.flight.pitchPlan.stepTimesUs, OneStep(pins))
            && MotionControl.Possible(mid, Landing(pins, high, OneStep(pins), turns))
            && var end := MotionControl.Step(mid, Landing(pins, high, OneStep(pins), turns), sqrt);
               end.BothKnown() && end.yaw.current == 1 && end.yawNet == 0
  {
    var boot := Boot(c);
    assert Clamp(1.0, c.yaw.minDeg, c.yaw.maxDeg) == 1.0;
    assert boot.yaw.TargetMicrosteps(1.0) == 1;
    assert boot.pitch.TargetMicrosteps(0.0) == 0 by {
      assert 0.0 * c.pitchPerDeg == 0.0;
    }
    StepKeepsInv(boot, MoveLaunch(1.0, 0.0), sqrt);
    var mid := Launch(boot, 1.0, 0.0, sqrt);
    OneStepStartsAtZero(boot.yaw.Accel(0.0), boot.yaw.Speed(0.0), sqrt);
    assert mid.flight.yawPlan.stepTimesUs == [0] && mid.flight.pitchPlan.stepTimesUs == [];
    OneStepIsCompiled(pins);
    var turns := [Turn(0, true)];
    SuccessIsRightIff(mid, pins, high, OneStep(pins), turns, sqrt);
    assert SentBy(2, 0, turns) == 0;
    assert Records(OneStep(pins))[..0] == [];
    NoRecordsNoRises(pins, high, pins.yawStep, EndOf(OneStep(pins)));
  }

  lemma OneStepStartsAtZero(accel: real, vmax: real, sqrt: real -> real)
    requires accel > 0.0 && vmax > 0.0
    ensures StepTimes(1, accel, vmax, sqrt) == [0]
  {
    var p := Profile(1, accel, vmax);
    assert p.Ramp() == 0 && p.Cruise() == 1;
    assert p.StepTime(sqrt, 0) == 0.0 + 0.0 / vmax == 0.0;
    assert Rounded(p, sqrt) == [0];
  }

  lemma TwoPulsesAreWaves(pins: StepPins)
    requires pins.stepPulseUs == 4 && pins.yawStep != pins.pitchStep
    ensures Waves(pins, [0, 2], [], TwoPulseEvents(pins))
  {
    assert BothAxes([0, 2], []) == TwoPulses;
    AlreadyCoalesced(TwoPulses);
    TwoPulsesMerge(pins);
  }

  /** An axis just started under the envelope of the hasty request. */
  ghost predicate HastySetup(c: Setup) {
    c.Valid() && c.yawPerDeg == 1000.0 && c.yaw == Hasty.axis.motion && c.pitch.minDeg <= 0.0 <= c.pitch.maxDeg
  }

  lemma HastyLaunch(c: Setup, sqrt: real -> real)
    requires HastySetup(c) && IsSqrt(sqrt)
    ensures var mid := Launch(Boot(c), 0.002, 0.0, sqrt);
            && Inv(mid) && mid.flight.Moving? && mid.yaw.current == 0 && mid.yawNet == 0
            && mid.flight.yawPlan.Signed() == 2
            && mid.flight.yawPlan.forward && mid.flight.yawPlan.stepTimesUs == [0, 2]
            && mid.flight.pitchPlan.stepTimesUs == []
  {
    var boot := Boot(c);
    HastySteps(sqrt);
    assert boot.yaw == Hasty.axis;
    assert boot.yaw.TargetMicrosteps(0.002) == 2 by {
      assert Clamp(0.002, -50.0, 50.0) * 1000.0 == 2.0;
    }
    assert boot.pitch.TargetMicrosteps(0.0) == 0 by {
      assert 0.0 * c.pitchPerDeg == 0.0;
    }
    StepKeepsInv(boot, MoveLaunch(0.002, 0.0), sqrt);
  }

  lemma HastyStepsRun(pins: StepPins, high: set<Pin>)
    requires pins.stepPulseUs == 4 && pins.yawStep != pins.pitchStep
    ensures Waves(pins, [0, 2], [], TwoPulseEvents(pins))
    ensures StepsRun(pins, high, TwoPulseEvents(pins), [], Yaw) < 2
            && StepsRun(pins, high, TwoPulseEvents(pins), [], Pitch) == 0
  {
    TwoPulsesAreWaves(pins);
    EveryStepTakenIff(pins, high, [0, 2], [], TwoPulseEvents(pins), []);
    assert !GapsAtLeast([0, 2], pins.Width() + 1) by {
      assert [0, 2][1] - [0, 2][0] == 2;
    }
  }

  lemma ShortLanding(mid: World, yawPulses: nat, sqrt: real -> real)
    requires Inv(mid) && mid.flight.Moving? && mid.yaw.current == 0 && mid.yawNet == 0
    requires mid.flight.yawPlan.Signed() == 2 && mid.flight.yawPlan.forward
             && mid.flight.pitchPlan.stepTimesUs == [] && yawPulses < 2
    ensures var land := MoveLand(true, yawPulses, 0);
            && MotionControl.Possible(mid, land)
            && var end := MotionControl.Step(mid, land, sqrt);
               end.BothKnown() && end.yaw.current == 2 && end.yawNet < 2
  {
  }

  /** A success without any abort that is false all the same: the two steps of the hasty request run together into
      one pulse, and the yaw axis claims a step its motor has not taken. */
  lemma HastyMoveClaimsSuccess(c: Setup, pins: StepPins, high: set<Pin>, sqrt: real -> real)
    requires HastySetup(c) && IsSqrt(sqrt) && pins.stepPulseUs == 4 && pins.yawStep != pins.pitchStep
    ensures var mid := Launch(Boot(c), 0.002, 0.0, sqrt);
            && mid.flight.Moving?
            && Waves(pins, mid.flight.yawPlan.stepTimesUs, mid.flight.pitchPlan.stepTimesUs, TwoPulseEvents(pins))
            && MotionControl.Possible(mid, Landing(pins, high, TwoPulseEvents(pins), []))
            && var end := MotionControl.Step(mid, Landing(pins, high, TwoPulseEvents(pins), []), sqrt);
               end.BothKnown() && end.yaw.current == 2 && end.yawNet < 2
  {
    HastyLaunch(c, sqrt);
    HastyStepsRun(pins, high);
    var mid := Launch(Boot(c), 0.002, 0.0, sqrt);
    hide Launch;
    ShortLanding(mid, StepsRun(pins, high, TwoPulseEvents(pins), [], Yaw), sqrt);
  }
}
