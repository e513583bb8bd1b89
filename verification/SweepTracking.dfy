/** Following a sweep by elapsed time: how many steps have begun, and what the live yaw reads. */
module SweepTracking {
  import opened Arithmetic
  import opened Timeline
  import opened ProfileLaws
  import opened StepperAxis
  import opened Waveform
  import opened Signal

  /** How many entries are at most `t`. */
  function CountUpTo(times: seq<nat>, t: int): (n: nat)
    ensures n <= |times|
  {
    if times == [] then 0
    else CountUpTo(times[..|times| - 1], t) + if times[|times| - 1] <= t then 1 else 0
  }

  /** In an ascending list the entries up to `t` are exactly the first CountUpTo ones. */
  lemma {:induction false} CountIsBoundary(times: seq<nat>, t: int)
    requires Ascending(times)
    ensures forall k :: 0 <= k < |times| ==> (times[k] <= t <==> k < CountUpTo(times, t))
  {
    if times != [] {
      var p := times[..|times| - 1];
      CountIsBoundary(p, t);
      forall k | 0 <= k < |p| ensures times[k] <= t <==> k < CountUpTo(p, t) {
        assert p[k] == times[k];
      }
      if times[|times| - 1] <= t && p != [] {
        assert times[|p| - 1] < times[|p|];
        assert |p| - 1 < CountUpTo(p, t);
      }
    }
  }

  lemma BoundaryUnique(times: seq<nat>, t: int, n: nat)
    requires Ascending(times) && n <= |times|
    requires forall k :: 0 <= k < n ==> times[k] <= t
    requires forall k :: n <= k < |times| ==> times[k] > t
    ensures n == CountUpTo(times, t)
  {
    CountIsBoundary(times, t);
    var c := CountUpTo(times, t);
    assert n < |times| ==> (times[n] <= t <==> n < c);
    assert c < |times| ==> times[c] > t;
  }

  /** `std::upper_bound` as an index: a binary search for the first entry beyond `key`. */
  method UpperBound(times: seq<nat>, key: int) returns (n: nat)
    requires Ascending(times)
    ensures n == CountUpTo(times, key)
  {
    var lo, hi := 0, |times|;
    while lo < hi
      invariant 0 <= lo <= hi <= |times|
      invariant forall k :: 0 <= k < lo ==> times[k] <= key
      invariant forall k :: hi <= k < |times| ==> times[k] > key
    {
      var mid := (lo + hi) / 2;
      if times[mid] <= key {
        lo := mid + 1;
      } else {
        hi := mid;
      }
    }
    BoundaryUnique(times, key, lo);
    n := lo;
  }

  /** Steps begun `us` microseconds into a sweep, as the controller reports them. */
  function Travelled(plan: MovePlan, us: int): (n: nat)
    ensures n <= plan.steps
  {
    if plan.stepTimesUs == [] || us <= 0 then 0
    else
      var c := CountUpTo(plan.stepTimesUs, us);
      if c < plan.steps then c else plan.steps
  }

  function LiveYawDeg(a: Axis, sweepActive: bool, plan: MovePlan, us: int): real
    requires a.microstepsPerDeg > 0.0
  {
    if !sweepActive then a.CurrentDeg()
    else
      var delta := Travelled(plan, us) as real / a.microstepsPerDeg;
      a.CurrentDeg() + if plan.forward then delta else -delta
  }

  // ---------------------------------------------------------------- agreement with the waveform

  /** Pulses the pin has begun in microseconds 0..t of a replay. */
  ghost function RiseCount(pins: StepPins, high: set<Pin>, recs: seq<GpioPulse>, p: Pin, t: nat): nat {
    (if t == 0 then 0 else RiseCount(pins, high, recs, p, t - 1))
    + if RisesAt(pins, high, recs, p, t) then 1 else 0
  }

  lemma CountStep(times: seq<nat>, t: nat)
    requires Ascending(times)
    ensures CountUpTo(times, t) == CountUpTo(times, t - 1) + if t in times then 1 else 0
    ensures CountUpTo(times, -1) == 0
  {
    BoundaryUnique(times, -1, 0);
    if t in times {
      var k :| 0 <= k < |times| && times[k] == t;
      BoundaryUnique(times, t - 1, k);
      BoundaryUnique(times, t, k + 1);
    } else {
      CountIsBoundary(times, t - 1);
      var c := CountUpTo(times, t - 1);
      forall k | c <= k < |times| ensures times[k] > t {
        assert times[k] in times;
      }
      BoundaryUnique(times, t, c);
    }
  }

  lemma {:induction false} RisesAreCounted(pins: StepPins, high: set<Pin>, recs: seq<GpioPulse>, p: Pin,
                                           times: seq<nat>, t: nat)
    requires Ascending(times)
    requires forall u: nat :: u <= t ==> (RisesAt(pins, high, recs, p, u) <==> u in times)
    ensures RiseCount(pins, high, recs, p, t) == CountUpTo(times, t)
  {
    CountStep(times, t);
    if t > 0 {
      RisesAreCounted(pins, high, recs, p, times, t - 1);
    }
  }

  /** Sweep tracking agrees with the hardware: at every positive elapsed time the reported step count is
      the number of pulses the yaw pin has begun in the replayed yaw-only waveform. */
  lemma TrackingMatchesWaveform(pins: StepPins, plan: MovePlan, merged: seq<Timed<AxisId>>,
                                events: seq<Timed<Edge>>, high: set<Pin>, us: int)
    requires us > 0
    requires pins.yawStep != pins.pitchStep && !pins.Asserted(high, pins.yawStep)
    requires plan.stepTimesUs != [] && |plan.stepTimesUs| == plan.steps && plan.stepTimesUs[0] == 0
    requires GapsAtLeast(plan.stepTimesUs, pins.Width() + 1)
    requires Coalesced(BothAxes(plan.stepTimesUs, []), merged) && Coalesced(pins.RawEvents(merged), events)
    ensures Travelled(plan, us) == RiseCount(pins, high, Records(events), pins.yawStep, us)
  {
    assert GapsAtLeast(plan.stepTimesUs, 1);
    AscendingFromGaps(plan.stepTimesUs);
    forall u: nat | u <= us
      ensures RisesAt(pins, high, Records(events), pins.yawStep, u) <==> u in plan.stepTimesUs
    {
      AxisSignal(pins, plan.stepTimesUs, [], merged, events, high, Yaw, u);
    }
    RisesAreCounted(pins, high, Records(events), pins.yawStep, plan.stepTimesUs, us);
  }

  lemma {:induction false} RisesAddUp(pins: StepPins, high: set<Pin>, recs: seq<GpioPulse>, p: Pin, t: nat, later: nat)
    requires t <= later
    ensures RiseCount(pins, high, recs, p, t) <= RiseCount(pins, high, recs, p, later)
  {
    if t < later {
      RisesAddUp(pins, high, recs, p, t, later - 1);
    }
  }

  /** The controller starts its clock some time after the hardware has started the waveform. At `t` microseconds of the
      waveform the report is then the number of pulses begun `lag` microseconds ago: never too many, and behind by at
      most lag / g + 1, g being the smallest gap of the profile. */
  lemma TrackingLags(pins: StepPins, plan: MovePlan, merged: seq<Timed<AxisId>>, events: seq<Timed<Edge>>,
                     high: set<Pin>, g: nat, t: nat, lag: nat)
    requires pins.yawStep != pins.pitchStep && !pins.Asserted(high, pins.yawStep)
    requires plan.stepTimesUs != [] && |plan.stepTimesUs| == plan.steps && plan.stepTimesUs[0] == 0
    requires g > pins.Width() && GapsAtLeast(plan.stepTimesUs, g) && t > 0
    requires Coalesced(BothAxes(plan.stepTimesUs, []), merged) && Coalesced(pins.RawEvents(merged), events)
    ensures var begun := RiseCount(pins, high, Records(events), pins.yawStep, t);
            && (t > lag ==> Travelled(plan, t - lag) == RiseCount(pins, high, Records(events), pins.yawStep, t - lag))
            && Travelled(plan, t - lag) <= begun <= Travelled(plan, t - lag) + lag / g + 1
  {
    assert GapsAtLeast(plan.stepTimesUs, pins.Width() + 1);
    TrackingMatchesWaveform(pins, plan, merged, events, high, t);
    WindowBound(plan, g, t - lag, lag);
    if t > lag {
      TrackingMatchesWaveform(pins, plan, merged, events, high, t - lag);
      RisesAddUp(pins, high, Records(events), pins.yawStep, t - lag, t);
    }
  }

  // ---------------------------------------------------------------- shape of the report

  lemma TravelledMonotone(plan: MovePlan, us: int, later: int)
    requires Ascending(plan.stepTimesUs) && us <= later
    ensures Travelled(plan, us) <= Travelled(plan, later)
  {
    var times := plan.stepTimesUs;
    CountIsBoundary(times, us);
    CountIsBoundary(times, later);
    var c, d := CountUpTo(times, us), CountUpTo(times, later);
    assert d < |times| ==> times[d] > later;
  }

  /** Once the last step has begun the live yaw reads what the axis reads after the sweep is committed. */
  lemma LiveYawEndsAtCommit(a: Axis, plan: MovePlan, us: int)
    requires a.microstepsPerDeg > 0.0 && Ascending(plan.stepTimesUs)
    requires plan.steps > 0 && |plan.stepTimesUs| == plan.steps
    requires us > 0 && us >= plan.stepTimesUs[plan.steps - 1]
    ensures LiveYawDeg(a, true, plan, us) == a.Commit(plan).CurrentDeg()
  {
    CountIsBoundary(plan.stepTimesUs, us);
    assert plan.steps - 1 < CountUpTo(plan.stepTimesUs, us);
    AddQuotients(a.current as real, plan.steps as real, a.microstepsPerDeg);
  }

  /** The angle of a microstep count. */
  function DegreesAt(a: Axis, microsteps: int): real
    requires a.microstepsPerDeg > 0.0
  {
    microsteps as real / a.microstepsPerDeg
  }

  /** While a sweep runs the live yaw is where the motor is: the start of the row plus the pulses the waveform has
      begun, in the direction of the sweep; without one it is the tracked angle. */
  lemma LiveYawFollowsMotor(a: Axis, pins: StepPins, plan: MovePlan, merged: seq<Timed<AxisId>>,
                            events: seq<Timed<Edge>>, high: set<Pin>, us: int)
    requires a.microstepsPerDeg > 0.0 && us > 0
    requires pins.yawStep != pins.pitchStep && !pins.Asserted(high, pins.yawStep)
    requires plan.stepTimesUs != [] && |plan.stepTimesUs| == plan.steps && plan.stepTimesUs[0] == 0
    requires GapsAtLeast(plan.stepTimesUs, pins.Width() + 1)
    requires Coalesced(BothAxes(plan.stepTimesUs, []), merged) && Coalesced(pins.RawEvents(merged), events)
    ensures var begun: int := RiseCount(pins, high, Records(events), pins.yawStep, us);
            LiveYawDeg(a, true, plan, us) == DegreesAt(a, a.current + (if plan.forward then begun else -begun))
    ensures LiveYawDeg(a, false, plan, us) == DegreesAt(a, a.current)
  {
    TrackingMatchesWaveform(pins, plan, merged, events, high, us);
    hide Travelled, RiseCount, Coalesced, StepPins.RawEvents, GapsAtLeast, Records, BothAxes, StepPins.Asserted;
    hide DegreesAt, LiveYawDeg;
    LiveYawInMicrosteps(a, plan, us);
  }

  lemma LiveYawInMicrosteps(a: Axis, plan: MovePlan, us: int)
    requires a.microstepsPerDeg > 0.0
    ensures var n: int := Travelled(plan, us);
            LiveYawDeg(a, true, plan, us) == DegreesAt(a, a.current + (if plan.forward then n else -n))
    ensures LiveYawDeg(a, false, plan, us) == DegreesAt(a, a.current)
  {
    hide Travelled;
    AddQuotients(a.current as real, Travelled(plan, us) as real, a.microstepsPerDeg);
  }

  lemma AddQuotients(c: real, s: real, k: real)
    requires k > 0.0
    ensures c / k + s / k == (c + s) / k && c / k - s / k == (c - s) / k
  {
  }

  /** Over any window of `d` microseconds the head advances at most d / g + 1 steps, g being the smallest
      gap of the profile. */
  lemma WindowBound(plan: MovePlan, g: nat, us: int, d: nat)
    requires g >= 1 && GapsAtLeast(plan.stepTimesUs, g)
    ensures Travelled(plan, us + d) - Travelled(plan, us) <= d / g + 1
  {
    var times := plan.stepTimesUs;
    assert GapsAtLeast(times, 1);
    AscendingFromGaps(times);
    QuotientBound(g, 0, d);
    if times != [] && us + d > 0 {
      var n2 := CountUpTo(times, us + d);
      var n1 := if us <= 0 then 0 else CountUpTo(times, us);
      CountIsBoundary(times, us + d);
      CountIsBoundary(times, us);
      if n1 < n2 {
        assert times[n2 - 1] <= us + d && times[n1] >= us;
        StepsWithin(times, g, n1, n2, d);
      }
    }
  }

  lemma StepsWithin(times: seq<nat>, g: nat, first: nat, last: nat, d: nat)
    requires g >= 1 && GapsAtLeast(times, g) && first < last <= |times| && times[last - 1] - times[first] <= d
    ensures last - first <= d / g + 1
  {
    GapsAscend(times, g, first, last - 1);
    QuotientBound(g, last - 1 - first, d);
  }

  lemma QuotientBound(g: nat, k: nat, d: nat)
    requires g >= 1 && g * k <= d
    ensures k <= d / g
  {
    assert d == g * (d / g) + d % g;
    assert g * (d / g + 1) == g * (d / g) + g;
    if k > d / g {
      MulKeepsOrder(d / g + 1, k, g);
    }
  }
}
