/** How many steps a motor really takes. A motor steps when its pin rises, so a step edge that comes while the
    pin is still asserted is lost. This module counts the rises in the replay of any prefix of the records, and
    says exactly when they are all the planned steps. */
module PulseCount {
  import opened Arithmetic
  import opened Timeline
  import opened ProfileLaws
  import opened Waveform
  import opened Signal
  import opened SweepTracking

  // ---------------------------------------------------------------- one microsecond of a replay

  /** Microsecond by microsecond: at the time of an event its record is applied to the level before ... */
  lemma {:induction false} TickAtEvent(events: seq<Timed<Edge>>, high: set<Pin>, i: nat, j: nat)
    requires StrictTimes(events) && i < j < |events|
    ensures var r, u := Records(events)[i..], events[j].time - events[i].time;
            u > 0 && LevelsAt(high, r, u) == Apply(LevelsAt(high, r, u - 1), RecordAt(events, j))
    decreases j - i
  {
    var r := Records(events)[i..];
    assert r[0] == RecordAt(events, i) && r[1..] == Records(events)[i + 1..];
    if i + 1 < j {
      TickAtEvent(events, Apply(high, r[0]), i + 1, j);
    } else {
      assert r[1..][0] == RecordAt(events, j);
    }
  }

  /** ... and at any other time the level stays. */
  lemma {:induction false} TickBetween(events: seq<Timed<Edge>>, high: set<Pin>, i: nat, u: nat)
    requires StrictTimes(events) && i < |events| && u > 0
    requires forall j :: i <= j < |events| ==> events[j].time != events[i].time + u
    ensures LevelsAt(high, Records(events)[i..], u) == LevelsAt(high, Records(events)[i..], u - 1)
    decreases |events| - i
  {
    var r := Records(events)[i..];
    assert r[0] == RecordAt(events, i) && r[1..] == Records(events)[i + 1..];
    if i + 1 < |events| {
      assert events[i + 1].time != events[i].time + u;
      if u > r[0].usDelay {
        TickBetween(events, Apply(high, r[0]), i + 1, u - r[0].usDelay);
      }
    } else {
      assert r[1..] == [];
    }
  }

  lemma RecordOnPin(pins: StepPins, events: seq<Timed<Edge>>, high: set<Pin>, p: Pin, j: nat)
    requires StrictTimes(events) && j < |events|
    ensures pins.Asserted(Apply(high, RecordAt(events, j)), p) && !pins.Asserted(high, p)
            ==> pins.AssertEdge(p) in events[j].bits
    ensures pins.Asserted(high, p) && pins.DeassertEdge(p) !in events[j].bits
            ==> pins.Asserted(Apply(high, RecordAt(events, j)), p)
  {
    RecordBits(events, j, p);
  }

  /** A compiled waveform of two strictly increasing step lists, each starting at 0. */
  ghost predicate Waves(pins: StepPins, yaw: seq<nat>, pitch: seq<nat>, events: seq<Timed<Edge>>) {
    && pins.yawStep != pins.pitchStep && Ascending(yaw) && Ascending(pitch)
    && (yaw != [] ==> yaw[0] == 0) && (pitch != [] ==> pitch[0] == 0)
    && exists merged :: Coalesced(BothAxes(yaw, pitch), merged) && Coalesced(pins.RawEvents(merged), events)
  }

  function TimesFor(yaw: seq<nat>, pitch: seq<nat>, axis: AxisId): seq<nat> { if axis.Yaw? then yaw else pitch }

  ghost predicate StepEndsAt(times: seq<nat>, width: nat, t: int) {
    exists k :: 0 <= k < |times| && times[k] + width == t
  }

  /** The edges of an axis in the events: assert edges at its steps, deassert edges a pulse width later. */
  lemma EdgesOfAxis(pins: StepPins, yaw: seq<nat>, pitch: seq<nat>, events: seq<Timed<Edge>>, axis: AxisId, j: nat)
    requires Waves(pins, yaw, pitch, events) && j < |events|
    ensures var times := TimesFor(yaw, pitch, axis); var p := pins.PinOf(axis);
            && (pins.AssertEdge(p) in events[j].bits <==> events[j].time in times)
            && (pins.DeassertEdge(p) in events[j].bits ==> StepEndsAt(times, pins.Width(), events[j].time))
  {
    var merged :| Coalesced(BothAxes(yaw, pitch), merged) && Coalesced(pins.RawEvents(merged), events);
    var times, p, t := TimesFor(yaw, pitch, axis), pins.PinOf(axis), events[j].time;
    EventEdges(pins, merged, events, p, j);
    AxisPulsesOnItsPin(pins, yaw, pitch, merged, axis, t);
    if EndsAt(pins, merged, p, t) {
      var e :| Pulse(pins, merged, p, e) && e.time + pins.Width() == t;
      AxisPulsesOnItsPin(pins, yaw, pitch, merged, axis, e.time);
      assert StartsAt(pins, merged, p, e.time);
      var k :| 0 <= k < |times| && times[k] == e.time;
    }
  }

  /** Every step is some event, and the first event is at 0. */
  lemma StepsAreEvents(pins: StepPins, yaw: seq<nat>, pitch: seq<nat>, events: seq<Timed<Edge>>, axis: AxisId, t: nat)
    requires Waves(pins, yaw, pitch, events) && t in TimesFor(yaw, pitch, axis)
    ensures events != [] && events[0].time == 0 && exists j :: 0 <= j < |events| && events[j].time == t
  {
    var merged :| Coalesced(BothAxes(yaw, pitch), merged) && Coalesced(pins.RawEvents(merged), events);
    FirstEventAtZero(pins, yaw, pitch, merged, events);
    AxisPulsesOnItsPin(pins, yaw, pitch, merged, axis, t);
    EdgesAreEvents(pins, merged, events, pins.PinOf(axis), t);
  }

  lemma NoTimesNoEntries<B(!new)>(s: seq<Timed<B>>, m: seq<Timed<B>>)
    requires Coalesced(s, m) && s == []
    ensures m == []
  {
    assert forall t :: !HasTime(s, t);
    assert m != [] ==> m[0] in m && HasTime(m, m[0].time);
  }

  lemma NoStepsNoEvents(pins: StepPins, events: seq<Timed<Edge>>)
    requires Waves(pins, [], [], events)
    ensures events == []
  {
    var merged: seq<Timed<AxisId>> :| Coalesced(BothAxes([], []), merged) && Coalesced(pins.RawEvents(merged), events);
    NoTimesNoEntries(BothAxes([], []), merged);
    NoTimesNoEntries(pins.RawEvents(merged), events);
  }

  // ---------------------------------------------------------------- rises of a full replay

  lemma RiseIsAStep(pins: StepPins, yaw: seq<nat>, pitch: seq<nat>, events: seq<Timed<Edge>>, high: set<Pin>,
                    axis: AxisId, t: nat)
    requires Waves(pins, yaw, pitch, events) && events != [] && events[0].time == 0
    requires RisesAt(pins, high, Records(events), pins.PinOf(axis), t)
    ensures t in TimesFor(yaw, pitch, axis)
  {
    var p, r := pins.PinOf(axis), Records(events);
    assert r[0..] == r && r[0] == RecordAt(events, 0);
    if t == 0 {
      RecordOnPin(pins, events, high, p, 0);
      EdgesOfAxis(pins, yaw, pitch, events, axis, 0);
    } else if j: nat :| j < |events| && events[j].time == t {
      TickAtEvent(events, high, 0, j);
      RecordOnPin(pins, events, LevelsAt(high, r, t - 1), p, j);
      EdgesOfAxis(pins, yaw, pitch, events, axis, j);
    } else {
      TickBetween(events, high, 0, t);
    }
  }

  /** A pin stays asserted until a pulse ends. */
  lemma StaysAsserted(pins: StepPins, yaw: seq<nat>, pitch: seq<nat>, events: seq<Timed<Edge>>, high: set<Pin>,
                      axis: AxisId, t: nat)
    requires Waves(pins, yaw, pitch, events) && events != [] && events[0].time == 0 && t > 0
    requires pins.Asserted(LevelsAt(high, Records(events), t - 1), pins.PinOf(axis))
    requires !StepEndsAt(TimesFor(yaw, pitch, axis), pins.Width(), t)
    ensures pins.Asserted(LevelsAt(high, Records(events), t), pins.PinOf(axis))
  {
    var p, r := pins.PinOf(axis), Records(events);
    assert r[0..] == r;
    if j: nat :| j < |events| && events[j].time == t {
      TickAtEvent(events, high, 0, j);
      RecordOnPin(pins, events, LevelsAt(high, r, t - 1), p, j);
      EdgesOfAxis(pins, yaw, pitch, events, axis, j);
    } else {
      TickBetween(events, high, 0, t);
    }
  }

  lemma {:induction false} StaysAssertedUntil(pins: StepPins, yaw: seq<nat>, pitch: seq<nat>, events: seq<Timed<Edge>>,
                                              high: set<Pin>, axis: AxisId, first: nat, last: nat)
    requires Waves(pins, yaw, pitch, events) && events != [] && events[0].time == 0 && first <= last
    requires pins.Asserted(LevelsAt(high, Records(events), first), pins.PinOf(axis))
    requires forall t :: first < t <= last ==> !StepEndsAt(TimesFor(yaw, pitch, axis), pins.Width(), t)
    ensures pins.Asserted(LevelsAt(high, Records(events), last), pins.PinOf(axis))
    decreases last
  {
    if first < last {
      StaysAssertedUntil(pins, yaw, pitch, events, high, axis, first, last - 1);
      StaysAsserted(pins, yaw, pitch, events, high, axis, last);
    }
  }

  /** Every planned step is a rise of the pin. */
  ghost predicate EveryStepRises(pins: StepPins, times: seq<nat>, events: seq<Timed<Edge>>, high: set<Pin>,
                                 axis: AxisId)
    requires StrictTimes(events)
  {
    forall t: nat :: t in times ==> RisesAt(pins, high, Records(events), pins.PinOf(axis), t)
  }

  /** When the steps up to the last but one of `n` are apart and the last comes too soon,
      no pulse ends between the two. */
  lemma NoEndBetween(times: seq<nat>, w: nat, n: nat)
    requires Ascending(times) && 2 <= n <= |times| && GapsAtLeast(times[..n - 1], w + 1)
             && times[n - 1] - times[n - 2] <= w
    ensures forall t :: times[n - 2] < t <= times[n - 1] - 1 ==> !StepEndsAt(times, w, t)
  {
    forall t | times[n - 2] < t <= times[n - 1] - 1 ensures !StepEndsAt(times, w, t) {
      forall k | 0 <= k < |times| ensures times[k] + w != t {
        if k < n - 2 {
          assert times[..n - 1][k] == times[k] && times[..n - 1][n - 2] == times[n - 2];
          GapBetween(times[..n - 1], w + 1, k, n - 2);
        } else if k > n - 1 {
          assert times[n - 1] < times[k];
        }
      }
    }
  }

  /** If every step rises, the steps are more than a pulse width apart: up to the first step that is not, every
      pulse has ended before the next begins, and that step finds its pin still asserted. */
  lemma {:induction false} RisingStepsHaveGaps(pins: StepPins, yaw: seq<nat>, pitch: seq<nat>, events: seq<Timed<Edge>>,
                                               high: set<Pin>, axis: AxisId, n: nat)
    requires Waves(pins, yaw, pitch, events) && events != [] && events[0].time == 0
    requires n <= |TimesFor(yaw, pitch, axis)|
    requires EveryStepRises(pins, TimesFor(yaw, pitch, axis), events, high, axis)
    ensures GapsAtLeast(TimesFor(yaw, pitch, axis)[..n], pins.Width() + 1)
  {
    assert StrictTimes(events) && Ascending(TimesFor(yaw, pitch, axis));
    hide Waves;
    if n >= 2 {
      RisingStepsHaveGaps(pins, yaw, pitch, events, high, axis, n - 1);
      var times, w := TimesFor(yaw, pitch, axis), pins.Width();
      var a, b := times[n - 2], times[n - 1];
      assert a in times && b in times && a < b;
      assert RisesAt(pins, high, Records(events), pins.PinOf(axis), a)
             && RisesAt(pins, high, Records(events), pins.PinOf(axis), b);
      if b - a <= w {
        NoEndBetween(times, w, n);
        StaysAssertedUntil(pins, yaw, pitch, events, high, axis, a, b - 1);
      }
    }
  }

  /** Every step rises exactly when the pin is idle to begin with and the steps are more than a pulse width apart:
      the same bound for both polarities. */
  lemma EveryStepRisesIff(pins: StepPins, yaw: seq<nat>, pitch: seq<nat>, events: seq<Timed<Edge>>, high: set<Pin>,
                          axis: AxisId)
    requires Waves(pins, yaw, pitch, events)
    ensures var times := TimesFor(yaw, pitch, axis);
            EveryStepRises(pins, times, events, high, axis)
            <==> (times != [] ==> !pins.Asserted(high, pins.PinOf(axis))) && GapsAtLeast(times, pins.Width() + 1)
  {
    var times, p := TimesFor(yaw, pitch, axis), pins.PinOf(axis);
    if times != [] {
      assert times[0] in times;
      StepsAreEvents(pins, yaw, pitch, events, axis, 0);
      if EveryStepRises(pins, times, events, high, axis) {
        assert RisesAt(pins, high, Records(events), p, 0);
        RisingStepsHaveGaps(pins, yaw, pitch, events, high, axis, |times|);
        assert times[..|times|] == times;
      }
      if !pins.Asserted(high, p) && GapsAtLeast(times, pins.Width() + 1) {
        var merged :| Coalesced(BothAxes(yaw, pitch), merged) && Coalesced(pins.RawEvents(merged), events);
        forall t: nat | t in times ensures RisesAt(pins, high, Records(events), p, t) {
          AxisSignal(pins, yaw, pitch, merged, events, high, axis, t);
        }
      }
    }
  }

  // ---------------------------------------------------------------- counting them

  /** When every rise is a step there are at most as many rises as steps, and as many exactly when every step rises. */
  lemma {:induction false} RiseCountAgainstSteps(pins: StepPins, high: set<Pin>, recs: seq<GpioPulse>, p: Pin,
                                                 times: seq<nat>, t: nat)
    requires Ascending(times) && forall u: nat :: RisesAt(pins, high, recs, p, u) ==> u in times
    ensures RiseCount(pins, high, recs, p, t) <= CountUpTo(times, t)
    ensures RiseCount(pins, high, recs, p, t) == CountUpTo(times, t)
            <==> forall u: nat :: u <= t && u in times ==> RisesAt(pins, high, recs, p, u)
  {
    CountStep(times, t);
    if t > 0 {
      RiseCountAgainstSteps(pins, high, recs, p, times, t - 1);
    }
  }

  /** Every step has begun by `t`. */
  ghost predicate AllBegun(times: seq<nat>, t: int) { forall u: nat :: u in times ==> u <= t }

  lemma AllCountedIff(times: seq<nat>, t: int)
    requires Ascending(times)
    ensures CountUpTo(times, t) == |times| <==> AllBegun(times, t)
  {
    CountIsBoundary(times, t);
    if CountUpTo(times, t) < |times| {
      assert times[CountUpTo(times, t)] in times;
    }
  }

  /** By the time of its last step a pin has risen once for each step exactly when it is idle to begin with and the
      steps are more than a pulse width apart. */
  lemma RisesAreStepsIff(pins: StepPins, yaw: seq<nat>, pitch: seq<nat>, events: seq<Timed<Edge>>, high: set<Pin>,
                         axis: AxisId, t: nat)
    requires Waves(pins, yaw, pitch, events) && AllBegun(TimesFor(yaw, pitch, axis), t)
    ensures var times := TimesFor(yaw, pitch, axis);
            RiseCount(pins, high, Records(events), pins.PinOf(axis), t) == |times|
            <==> (times != [] ==> !pins.Asserted(high, pins.PinOf(axis))) && GapsAtLeast(times, pins.Width() + 1)
  {
    var times, p, r := TimesFor(yaw, pitch, axis), pins.PinOf(axis), Records(events);
    EveryStepRisesIff(pins, yaw, pitch, events, high, axis);
    if yaw == [] && pitch == [] {
      NoStepsNoEvents(pins, events);
      NoRecordsNoRises(pins, high, p, t);
    } else {
      StepsAreEvents(pins, yaw, pitch, events, if yaw != [] then Yaw else Pitch, 0);
      forall u: nat | RisesAt(pins, high, r, p, u) ensures u in times {
        RiseIsAStep(pins, yaw, pitch, events, high, axis, u);
      }
      RiseCountAgainstSteps(pins, high, r, p, times, t);
      AllCountedIff(times, t);
    }
  }

  function EndOf(events: seq<Timed<Edge>>): nat { if events == [] then 0 else events[|events| - 1].time }

  /** Steps an axis takes when the first `n` records are replayed and no more: the rises of its pin. */
  ghost function StepsOut(pins: StepPins, high: set<Pin>, events: seq<Timed<Edge>>, n: nat, axis: AxisId): nat
    requires StrictTimes(events)
  {
    RiseCount(pins, high, Records(events)[..Min(n, |events|)], pins.PinOf(axis), EndOf(events))
  }

  /** A prefix of the records replays like all of them until the first missing one, and then stands still. */
  lemma {:induction false} PrefixReplay(events: seq<Timed<Edge>>, high: set<Pin>, i: nat, n: nat, u: nat)
    requires StrictTimes(events) && i < n < |events|
    ensures LevelsAt(high, Records(events)[i..n], u)
         == LevelsAt(high, Records(events)[i..], Min(u, events[n].time - events[i].time - 1))
    decreases n - i
  {
    var q, r := Records(events)[i..n], Records(events)[i..];
    assert q[0] == r[0] == RecordAt(events, i) && q[1..] == Records(events)[i + 1..n]
           && r[1..] == Records(events)[i + 1..];
    if i + 1 < n {
      if u >= r[0].usDelay {
        PrefixReplay(events, Apply(high, r[0]), i + 1, n, u - r[0].usDelay);
      }
    } else {
      assert q[1..] == [];
    }
  }

  lemma {:induction false} PrefixRiseCount(pins: StepPins, events: seq<Timed<Edge>>, high: set<Pin>, p: Pin,
                                           n: nat, t: nat)
    requires StrictTimes(events) && 0 < n < |events| && events[0].time == 0
    ensures RiseCount(pins, high, Records(events)[..n], p, t)
         == RiseCount(pins, high, Records(events), p, Min(t, events[n].time - 1))
  {
    var q, r := Records(events)[..n], Records(events);
    assert r[0..n] == q && r[0..] == r;
    PrefixReplay(events, high, 0, n, t);
    if t > 0 {
      PrefixReplay(events, high, 0, n, t - 1);
      PrefixRiseCount(pins, events, high, p, n, t - 1);
    }
  }

  lemma {:induction false} NoRecordsNoRises(pins: StepPins, high: set<Pin>, p: Pin, t: nat)
    ensures RiseCount(pins, high, [], p, t) == 0
  {
    if t > 0 {
      NoRecordsNoRises(pins, high, p, t - 1);
    }
  }

  /** The records hold all steps of the axis up to the cut. */
  ghost predicate StepsWithin(times: seq<nat>, events: seq<Timed<Edge>>, n: nat) {
    forall t: nat :: t in times && n < |events| ==> t < events[n].time
  }

  /** An axis takes all its planned steps from the first `n` records exactly when they hold them all, the pin is idle
      to begin with, and the steps are more than a pulse width apart. */
  lemma AxisStepsOutIff(pins: StepPins, yaw: seq<nat>, pitch: seq<nat>, events: seq<Timed<Edge>>, high: set<Pin>,
                        n: nat, axis: AxisId)
    requires Waves(pins, yaw, pitch, events)
    ensures var times := TimesFor(yaw, pitch, axis);
            && StepsOut(pins, high, events, n, axis) <= |times|
            && (StepsOut(pins, high, events, n, axis) == |times|
                <==> StepsWithin(times, events, n) && EveryStepRises(pins, times, events, high, axis))
  {
    var times, p, r := TimesFor(yaw, pitch, axis), pins.PinOf(axis), Records(events);
    if yaw == [] && pitch == [] {
      NoStepsNoEvents(pins, events);
      assert r[..0] == [];
      NoRecordsNoRises(pins, high, p, 0);
    } else {
      StepsAreEvents(pins, yaw, pitch, events, if yaw != [] then Yaw else Pitch, 0);
      forall u: nat | RisesAt(pins, high, r, p, u) ensures u in times {
        RiseIsAStep(pins, yaw, pitch, events, high, axis, u);
      }
      StepsUntil(pins, yaw, pitch, events, high, n, axis);
    }
  }

  lemma StepsUntil(pins: StepPins, yaw: seq<nat>, pitch: seq<nat>, events: seq<Timed<Edge>>, high: set<Pin>,
                   n: nat, axis: AxisId)
    requires Waves(pins, yaw, pitch, events) && events != [] && events[0].time == 0
    requires var times := TimesFor(yaw, pitch, axis);
             forall u: nat :: RisesAt(pins, high, Records(events), pins.PinOf(axis), u) ==> u in times
    ensures var times := TimesFor(yaw, pitch, axis);
            && StepsOut(pins, high, events, n, axis) <= |times|
            && (StepsOut(pins, high, events, n, axis) == |times|
                <==> StepsWithin(times, events, n) && EveryStepRises(pins, times, events, high, axis))
  {
    var times, p, r, end := TimesFor(yaw, pitch, axis), pins.PinOf(axis), Records(events), EndOf(events);
    forall u: nat | u in times ensures u <= end {
      StepsAreEvents(pins, yaw, pitch, events, axis, u);
    }
    if n == 0 {
      assert r[..0] == [];
      NoRecordsNoRises(pins, high, p, end);
      assert StepsWithin(times, events, 0) <==> times == [] by {
        if times != [] {
          assert times[0] in times;
        }
      }
    } else {
      var cut := if n < |events| then events[n].time - 1 else end;
      if n < |events| {
        PrefixRiseCount(pins, events, high, p, n, end);
      } else {
        assert r[..|events|] == r;
      }
      RiseCountAgainstSteps(pins, high, r, p, times, cut);
      AllCountedIff(times, cut);
    }
  }
}
