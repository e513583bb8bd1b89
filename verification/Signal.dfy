/** Signal preservation: replaying the DMA records produces exactly the planned pulses. */
module Signal {
  import opened Timeline
  import opened Waveform
  import opened ProfileLaws

  // ---------------------------------------------------------------- the planned signal

  ghost predicate Pulse(pins: StepPins, pulses: seq<Timed<AxisId>>, p: Pin, e: Timed<AxisId>) {
    e in pulses && p in pins.Mask(e.bits)
  }

  ghost predicate StartsAt(pins: StepPins, pulses: seq<Timed<AxisId>>, p: Pin, t: int) {
    exists e :: Pulse(pins, pulses, p, e) && e.time == t
  }

  ghost predicate EndsAt(pins: StepPins, pulses: seq<Timed<AxisId>>, p: Pin, t: int) {
    exists e :: Pulse(pins, pulses, p, e) && e.time + pins.Width() == t
  }

  /** Pin `p` should be asserted at time `t`: some pulse on it has begun and not yet ended. */
  ghost predicate Planned(pins: StepPins, pulses: seq<Timed<AxisId>>, p: Pin, t: int) {
    exists e :: Pulse(pins, pulses, p, e) && e.time <= t < e.time + pins.Width()
  }

  /** Pulses on one pin do not collide. */
  ghost predicate Spaced(pins: StepPins, pulses: seq<Timed<AxisId>>, p: Pin) {
    forall e, f :: Pulse(pins, pulses, p, e) && Pulse(pins, pulses, p, f) && e.time < f.time
                   ==> e.time + pins.Spacing() <= f.time
  }

  lemma WhereAPulseEnds(pins: StepPins, pulses: seq<Timed<AxisId>>, p: Pin, t: int)
    requires Spaced(pins, pulses, p) && EndsAt(pins, pulses, p, t)
    ensures !pins.stepActiveLow ==> !StartsAt(pins, pulses, p, t)
    ensures Planned(pins, pulses, p, t) <==> StartsAt(pins, pulses, p, t)
  {
    if StartsAt(pins, pulses, p, t) {
      var e :| Pulse(pins, pulses, p, e) && e.time == t;
      assert Planned(pins, pulses, p, t);
    }
  }

  lemma QuietStretch(pins: StepPins, pulses: seq<Timed<AxisId>>, p: Pin, a: int, b: int)
    requires a <= b
    requires forall t :: a < t <= b ==> !StartsAt(pins, pulses, p, t) && !EndsAt(pins, pulses, p, t)
    ensures Planned(pins, pulses, p, a) <==> Planned(pins, pulses, p, b)
  {
    if Planned(pins, pulses, p, a) {
      var e :| Pulse(pins, pulses, p, e) && e.time <= a < e.time + pins.Width();
      assert EndsAt(pins, pulses, p, e.time + pins.Width());
      assert e.time <= b < e.time + pins.Width();
    }
    if Planned(pins, pulses, p, b) {
      var e :| Pulse(pins, pulses, p, e) && e.time <= b < e.time + pins.Width();
      assert StartsAt(pins, pulses, p, e.time);
      assert e.time <= a < e.time + pins.Width();
    }
  }

  // ---------------------------------------------------------------- edges of the merged events

  lemma {:induction false} RawEdges(pins: StepPins, pulses: seq<Timed<AxisId>>, p: Pin, t: nat)
    ensures Requests(pins.RawEvents(pulses), t, pins.AssertEdge(p)) <==> StartsAt(pins, pulses, p, t)
    ensures Requests(pins.RawEvents(pulses), t, pins.DeassertEdge(p)) <==> EndsAt(pins, pulses, p, t)
  {
    if pulses != [] {
      var q, e := pulses[..|pulses| - 1], pulses[|pulses| - 1];
      assert pulses == q + [e];
      RawEdges(pins, q, p, t);
      assert forall x :: Pulse(pins, pulses, p, x) <==> Pulse(pins, q, p, x) || (x == e && p in pins.Mask(e.bits));
      var raw := pins.RawEvents(q);
      var up, down := pins.AssertEvent(e), pins.DeassertEvent(e);
      assert raw + [up, down] == raw + [up] + [down];
      RequestsAppend(raw, up, t, pins.AssertEdge(p));
      RequestsAppend(raw, up, t, pins.DeassertEdge(p));
      RequestsAppend(raw + [up], down, t, pins.AssertEdge(p));
      RequestsAppend(raw + [up], down, t, pins.DeassertEdge(p));
      StartsAtAppend(pins, q, e, p, t);
    }
  }

  lemma StartsAtAppend(pins: StepPins, q: seq<Timed<AxisId>>, e: Timed<AxisId>, p: Pin, t: int)
    ensures StartsAt(pins, q + [e], p, t) <==> StartsAt(pins, q, p, t) || (p in pins.Mask(e.bits) && e.time == t)
    ensures EndsAt(pins, q + [e], p, t)
            <==> EndsAt(pins, q, p, t) || (p in pins.Mask(e.bits) && e.time + pins.Width() == t)
  {
    var s := q + [e];
    assert forall x :: Pulse(pins, s, p, x) <==> Pulse(pins, q, p, x) || (x == e && p in pins.Mask(e.bits));
  }

  /** Every edge of the plan is some merged event's time. */
  lemma EdgesAreEvents(pins: StepPins, pulses: seq<Timed<AxisId>>, events: seq<Timed<Edge>>, p: Pin, t: nat)
    requires Coalesced(pins.RawEvents(pulses), events)
    requires StartsAt(pins, pulses, p, t) || EndsAt(pins, pulses, p, t)
    ensures exists i :: 0 <= i < |events| && events[i].time == t
  {
    RawEdges(pins, pulses, p, t);
    var b := if StartsAt(pins, pulses, p, t) then pins.AssertEdge(p) else pins.DeassertEdge(p);
    assert Requests(events, t, b);
    var e :| e in events && e.time == t && b in e.bits;
  }

  lemma EventEdges(pins: StepPins, pulses: seq<Timed<AxisId>>, events: seq<Timed<Edge>>, p: Pin, i: nat)
    requires Coalesced(pins.RawEvents(pulses), events) && i < |events|
    ensures pins.AssertEdge(p) in events[i].bits <==> StartsAt(pins, pulses, p, events[i].time)
    ensures pins.DeassertEdge(p) in events[i].bits <==> EndsAt(pins, pulses, p, events[i].time)
  {
    var t := events[i].time;
    RawEdges(pins, pulses, p, t);
    assert events[i] in events;
    assert forall e :: e in events && e.time == t ==> e == events[i];
    assert pins.AssertEdge(p) in events[i].bits <==> Requests(events, t, pins.AssertEdge(p));
    assert pins.DeassertEdge(p) in events[i].bits <==> Requests(events, t, pins.DeassertEdge(p));
  }

  // ---------------------------------------------------------------- one record, then all of them

  lemma RecordBits(events: seq<Timed<Edge>>, i: nat, p: Pin)
    requires StrictTimes(events) && i < |events|
    ensures p in RecordAt(events, i).gpioOn <==> On(p) in events[i].bits
    ensures p in RecordAt(events, i).gpioOff <==> Off(p) in events[i].bits
  {
    var bits := events[i].bits;
    if On(p) in bits {
      assert On(p).pin in (set e | e in bits && e.On? :: e.pin);
    }
    if Off(p) in bits {
      assert Off(p).pin in (set e | e in bits && e.Off? :: e.pin);
    }
  }

  lemma RecordDoesItsEdges(pins: StepPins, pulses: seq<Timed<AxisId>>, events: seq<Timed<Edge>>,
                           high: set<Pin>, p: Pin, i: nat)
    requires Coalesced(pins.RawEvents(pulses), events) && i < |events|
    requires Spaced(pins, pulses, p)
    requires pins.Asserted(high, p) <==> Planned(pins, pulses, p, events[i].time - 1)
    ensures pins.Asserted(Apply(high, RecordAt(events, i)), p) <==> Planned(pins, pulses, p, events[i].time)
  {
    var t: int := events[i].time;
    EventEdges(pins, pulses, events, p, i);
    RecordBits(events, i, p);
    if EndsAt(pins, pulses, p, t) {
      WhereAPulseEnds(pins, pulses, p, t);
    } else if StartsAt(pins, pulses, p, t) {
      var e :| Pulse(pins, pulses, p, e) && e.time == t;
      assert Planned(pins, pulses, p, t);
    } else {
      QuietStretch(pins, pulses, p, t - 1, t);
    }
  }

  /** Between two events, and after the last, the planned signal does not change. */
  lemma QuietAfterEvent(pins: StepPins, pulses: seq<Timed<AxisId>>, events: seq<Timed<Edge>>, p: Pin, i: nat, t: int)
    requires Coalesced(pins.RawEvents(pulses), events) && i < |events|
    requires events[i].time <= t
    requires i + 1 < |events| ==> t < events[i + 1].time
    ensures Planned(pins, pulses, p, events[i].time) <==> Planned(pins, pulses, p, t)
  {
    forall u | events[i].time < u <= t
      ensures !StartsAt(pins, pulses, p, u) && !EndsAt(pins, pulses, p, u)
    {
      forall j | 0 <= j < |events| ensures events[j].time != u {
        assert j <= i || i + 1 <= j;
      }
      if StartsAt(pins, pulses, p, u) || EndsAt(pins, pulses, p, u) {
        EdgesAreEvents(pins, pulses, events, p, u);
      }
    }
    QuietStretch(pins, pulses, p, events[i].time, t);
  }

  lemma {:induction false} ReplayFrom(pins: StepPins, pulses: seq<Timed<AxisId>>, events: seq<Timed<Edge>>,
                                      high: set<Pin>, p: Pin, i: nat, t: nat)
    requires Coalesced(pins.RawEvents(pulses), events) && i < |events|
    requires Spaced(pins, pulses, p)
    requires pins.Asserted(high, p) <==> Planned(pins, pulses, p, events[i].time - 1)
    ensures pins.Asserted(LevelsAt(high, Records(events)[i..], t), p)
            <==> Planned(pins, pulses, p, events[i].time + t)
    decreases |events| - i
  {
    var recs := Records(events)[i..];
    var now := Apply(high, recs[0]);
    assert recs[0] == RecordAt(events, i) && recs[1..] == Records(events)[i + 1..];
    RecordDoesItsEdges(pins, pulses, events, high, p, i);
    if i + 1 == |events| {
      QuietAfterEvent(pins, pulses, events, p, i, events[i].time + t);
      assert recs[1..] == [];
      assert t >= recs[0].usDelay ==> LevelsAt(now, recs[1..], t - recs[0].usDelay) == now;
    } else if t < recs[0].usDelay {
      QuietAfterEvent(pins, pulses, events, p, i, events[i].time + t);
    } else {
      QuietAfterEvent(pins, pulses, events, p, i, events[i + 1].time - 1);
      ReplayFrom(pins, pulses, events, now, p, i + 1, t - recs[0].usDelay);
    }
  }

  lemma NothingBeforeFirstEvent(pins: StepPins, pulses: seq<Timed<AxisId>>, events: seq<Timed<Edge>>, p: Pin)
    requires Coalesced(pins.RawEvents(pulses), events) && events != []
    ensures !Planned(pins, pulses, p, events[0].time - 1)
  {
    forall e | Pulse(pins, pulses, p, e) ensures events[0].time <= e.time {
      assert StartsAt(pins, pulses, p, e.time);
      EdgesAreEvents(pins, pulses, events, p, e.time);
    }
  }

  /** At every moment the replayed level of the pin is the planned one (time runs from the first event). */
  ghost predicate ReplayIsPlan(pins: StepPins, pulses: seq<Timed<AxisId>>, events: seq<Timed<Edge>>,
                               high: set<Pin>, p: Pin)
    requires StrictTimes(events) && events != []
  {
    forall t: nat :: pins.Asserted(LevelsAt(high, Records(events), t), p)
                     <==> Planned(pins, pulses, p, events[0].time + t)
  }

  /** Signal preservation, exactly: from a deasserted pin the replay equals the plan at every
      microsecond if and only if the pulses on that pin do not collide. Both polarities. */
  lemma SignalPreservedIff(pins: StepPins, pulses: seq<Timed<AxisId>>, events: seq<Timed<Edge>>,
                           high: set<Pin>, p: Pin)
    requires Coalesced(pins.RawEvents(pulses), events) && events != []
    requires !pins.Asserted(high, p)
    ensures ReplayIsPlan(pins, pulses, events, high, p) <==> Spaced(pins, pulses, p)
  {
    if Spaced(pins, pulses, p) {
      NothingBeforeFirstEvent(pins, pulses, events, p);
      assert Records(events)[0..] == Records(events);
      forall t: nat
        ensures pins.Asserted(LevelsAt(high, Records(events), t), p) <==> Planned(pins, pulses, p, events[0].time + t)
      {
        ReplayFrom(pins, pulses, events, high, p, 0, t);
      }
    } else {
      var e, f :| Pulse(pins, pulses, p, e) && Pulse(pins, pulses, p, f) && e.time < f.time
                  && f.time < e.time + pins.Spacing();
      CollisionShows(pins, pulses, events, high, p, e, f);
    }
  }

  /** The level right after event `i` is the result of applying record `i`. */
  lemma {:induction false} LevelAtEvent(events: seq<Timed<Edge>>, high: set<Pin>, i: nat, j: nat)
    returns (before: set<Pin>)
    requires StrictTimes(events) && i <= j < |events|
    ensures LevelsAt(high, Records(events)[i..], events[j].time - events[i].time) == Apply(before, RecordAt(events, j))
    decreases j - i
  {
    var recs := Records(events)[i..];
    assert recs[0] == RecordAt(events, i) && recs[1..] == Records(events)[i + 1..];
    if i == j {
      before := high;
    } else {
      before := LevelAtEvent(events, Apply(high, recs[0]), i + 1, j);
    }
  }

  ghost function LastTime(pulses: seq<Timed<AxisId>>): nat {
    if pulses == [] then 0
    else
      var m := LastTime(pulses[..|pulses| - 1]);
      if pulses[|pulses| - 1].time > m then pulses[|pulses| - 1].time else m
  }

  lemma {:induction false} LastTimeBounds(pulses: seq<Timed<AxisId>>, e: Timed<AxisId>)
    requires e in pulses
    ensures e.time <= LastTime(pulses)
  {
    var q, l := pulses[..|pulses| - 1], pulses[|pulses| - 1];
    assert pulses == q + [l];
    if e in q {
      LastTimeBounds(q, e);
    }
  }

  /** A collision is visible: follow it to the last colliding pair, whose first pulse is cut short or
      whose second is. */
  lemma {:induction false} CollisionShows(pins: StepPins, pulses: seq<Timed<AxisId>>, events: seq<Timed<Edge>>,
                                          high: set<Pin>, p: Pin, e: Timed<AxisId>, f: Timed<AxisId>)
    requires Coalesced(pins.RawEvents(pulses), events) && events != []
    requires Pulse(pins, pulses, p, e) && Pulse(pins, pulses, p, f)
    requires e.time < f.time < e.time + pins.Spacing()
    ensures !ReplayIsPlan(pins, pulses, events, high, p)
    decreases LastTime(pulses) - e.time
  {
    var t := e.time + pins.Width();
    assert EndsAt(pins, pulses, p, t);
    if pins.stepActiveLow && StartsAt(pins, pulses, p, t) {
      var g :| Pulse(pins, pulses, p, g) && g.time == t;
      LastTimeBounds(pulses, f);
      CollisionShows(pins, pulses, events, high, p, f, g);
    } else {
      EdgesAreEvents(pins, pulses, events, p, t);
      var j :| 0 <= j < |events| && events[j].time == t;
      EventEdges(pins, pulses, events, p, j);
      RecordBits(events, j, p);
      var before := LevelAtEvent(events, high, 0, j);
      assert Records(events)[0..] == Records(events);
      assert Planned(pins, pulses, p, t);
      assert events[0].time <= t;
      var u: nat := t - events[0].time;
      assert !pins.Asserted(LevelsAt(high, Records(events), u), p);
      assert Planned(pins, pulses, p, events[0].time + u);
    }
  }

  // ---------------------------------------------------------------- pulses, per axis

  /** The pin becomes asserted in microsecond `t`. */
  ghost predicate RisesAt(pins: StepPins, high: set<Pin>, recs: seq<GpioPulse>, p: Pin, t: nat) {
    && pins.Asserted(LevelsAt(high, recs, t), p)
    && !pins.Asserted(if t == 0 then high else LevelsAt(high, recs, t - 1), p)
  }

  /** The axis's step pin carries a pulse of this list at time `t`. */
  ghost predicate UnderWay(times: seq<nat>, width: nat, t: int) {
    exists k :: 0 <= k < |times| && times[k] <= t < times[k] + width
  }

  lemma AxisPulsesOnItsPin(pins: StepPins, yaw: seq<nat>, pitch: seq<nat>, merged: seq<Timed<AxisId>>,
                           axis: AxisId, t: int)
    requires pins.yawStep != pins.pitchStep
    requires Coalesced(BothAxes(yaw, pitch), merged)
    ensures var times := if axis.Yaw? then yaw else pitch; var p := pins.PinOf(axis);
            && (StartsAt(pins, merged, p, t) <==> t >= 0 && t in times)
            && (Planned(pins, merged, p, t) <==> UnderWay(times, pins.Width(), t))
  {
    var times := if axis.Yaw? then yaw else pitch;
    var p := pins.PinOf(axis);
    assert forall e :: Pulse(pins, merged, p, e) <==> e in merged && axis in e.bits;
    forall u: nat ensures u in times <==> exists e: Timed<AxisId> :: e.time == u && Pulse(pins, merged, p, e) {
      BothAxesRequests(yaw, pitch, u);
      assert Requests(merged, u, axis) <==> u in times;
    }
    if Planned(pins, merged, p, t) {
      var e :| Pulse(pins, merged, p, e) && e.time <= t < e.time + pins.Width();
      assert e.time in times;
      var k :| 0 <= k < |times| && times[k] == e.time;
    }
    if UnderWay(times, pins.Width(), t) {
      var k :| 0 <= k < |times| && times[k] <= t < times[k] + pins.Width();
      assert times[k] in times;
      var e :| Pulse(pins, merged, p, e) && e.time == times[k];
    }
  }

  /** The pulses of a pin are collision-free exactly when its axis's steps are far enough apart. */
  lemma SpacedIff(pins: StepPins, yaw: seq<nat>, pitch: seq<nat>, merged: seq<Timed<AxisId>>, axis: AxisId)
    requires pins.yawStep != pins.pitchStep
    requires Coalesced(BothAxes(yaw, pitch), merged) && Ascending(if axis.Yaw? then yaw else pitch)
    ensures Spaced(pins, merged, pins.PinOf(axis)) <==> GapsAtLeast(if axis.Yaw? then yaw else pitch, pins.Spacing())
  {
    if GapsAtLeast(if axis.Yaw? then yaw else pitch, pins.Spacing()) {
      GapsGiveSpacing(pins, yaw, pitch, merged, axis);
    }
    if Spaced(pins, merged, pins.PinOf(axis)) {
      SpacingGivesGaps(pins, yaw, pitch, merged, axis);
    }
  }

  lemma GapsGiveSpacing(pins: StepPins, yaw: seq<nat>, pitch: seq<nat>, merged: seq<Timed<AxisId>>, axis: AxisId)
    requires pins.yawStep != pins.pitchStep
    requires Coalesced(BothAxes(yaw, pitch), merged)
    requires GapsAtLeast(if axis.Yaw? then yaw else pitch, pins.Spacing())
    ensures Spaced(pins, merged, pins.PinOf(axis))
  {
    var times := if axis.Yaw? then yaw else pitch;
    var p := pins.PinOf(axis);
    forall e, f | Pulse(pins, merged, p, e) && Pulse(pins, merged, p, f) && e.time < f.time
      ensures e.time + pins.Spacing() <= f.time
    {
      AxisPulsesOnItsPin(pins, yaw, pitch, merged, axis, e.time);
      AxisPulsesOnItsPin(pins, yaw, pitch, merged, axis, f.time);
      assert StartsAt(pins, merged, p, e.time) && StartsAt(pins, merged, p, f.time);
      var i :| 0 <= i < |times| && times[i] == e.time;
      var j :| 0 <= j < |times| && times[j] == f.time;
      GapBetween(times, pins.Spacing(), i, j);
    }
  }

  lemma SpacingGivesGaps(pins: StepPins, yaw: seq<nat>, pitch: seq<nat>, merged: seq<Timed<AxisId>>, axis: AxisId)
    requires pins.yawStep != pins.pitchStep
    requires Coalesced(BothAxes(yaw, pitch), merged) && Ascending(if axis.Yaw? then yaw else pitch)
    requires Spaced(pins, merged, pins.PinOf(axis))
    ensures GapsAtLeast(if axis.Yaw? then yaw else pitch, pins.Spacing())
  {
    var times := if axis.Yaw? then yaw else pitch;
    var p := pins.PinOf(axis);
    forall k | 0 < k < |times| ensures times[k] - times[k - 1] >= pins.Spacing() {
      AxisPulsesOnItsPin(pins, yaw, pitch, merged, axis, times[k - 1]);
      AxisPulsesOnItsPin(pins, yaw, pitch, merged, axis, times[k]);
      assert times[k - 1] in times && times[k] in times;
      var e :| Pulse(pins, merged, p, e) && e.time == times[k - 1];
      var f :| Pulse(pins, merged, p, f) && f.time == times[k];
    }
  }

  /** The compiled waveform of two step lists on idle pins, the first step of each moving axis at 0. */
  ghost predicate Waveformed(pins: StepPins, yaw: seq<nat>, pitch: seq<nat>, merged: seq<Timed<AxisId>>,
                             events: seq<Timed<Edge>>, high: set<Pin>, axis: AxisId) {
    && pins.yawStep != pins.pitchStep && !pins.Asserted(high, pins.PinOf(axis))
    && Coalesced(BothAxes(yaw, pitch), merged) && Coalesced(pins.RawEvents(merged), events)
    && (yaw != [] || pitch != []) && (yaw != [] ==> yaw[0] == 0) && (pitch != [] ==> pitch[0] == 0)
    && Ascending(if axis.Yaw? then yaw else pitch)
  }

  /** The step pin of an axis is asserted at every microsecond exactly as its step list says. */
  ghost predicate PinFollows(pins: StepPins, times: seq<nat>, events: seq<Timed<Edge>>, high: set<Pin>, axis: AxisId)
    requires StrictTimes(events)
  {
    forall t: nat :: pins.Asserted(LevelsAt(high, Records(events), t), pins.PinOf(axis))
                    <==> UnderWay(times, pins.Width(), t)
  }

  /** For any two step lists the replay follows an axis's list if and only if its consecutive steps are at least the
      spacing apart. */
  lemma AxisSignalIff(pins: StepPins, yaw: seq<nat>, pitch: seq<nat>, merged: seq<Timed<AxisId>>,
                      events: seq<Timed<Edge>>, high: set<Pin>, axis: AxisId)
    requires Waveformed(pins, yaw, pitch, merged, events, high, axis)
    ensures var times := if axis.Yaw? then yaw else pitch;
            PinFollows(pins, times, events, high, axis) <==> GapsAtLeast(times, pins.Spacing())
  {
    var times := if axis.Yaw? then yaw else pitch;
    var p := pins.PinOf(axis);
    FirstEventAtZero(pins, yaw, pitch, merged, events);
    SignalPreservedIff(pins, merged, events, high, p);
    SpacedIff(pins, yaw, pitch, merged, axis);
    forall t: nat ensures Planned(pins, merged, p, events[0].time + t) <==> UnderWay(times, pins.Width(), t) {
      AxisPulsesOnItsPin(pins, yaw, pitch, merged, axis, t);
    }
    if ReplayIsPlan(pins, merged, events, high, p) {
      forall t: nat
        ensures pins.Asserted(LevelsAt(high, Records(events), t), p) <==> UnderWay(times, pins.Width(), t)
      {
        assert pins.Asserted(LevelsAt(high, Records(events), t), p) <==> Planned(pins, merged, p, events[0].time + t);
      }
    }
    if PinFollows(pins, times, events, high, axis) {
      forall t: nat
        ensures pins.Asserted(LevelsAt(high, Records(events), t), p) <==> Planned(pins, merged, p, events[0].time + t)
      {
      }
    }
  }

  /** The records start at the first step of whichever axis moves. */
  lemma FirstEventAtZero(pins: StepPins, yaw: seq<nat>, pitch: seq<nat>,
                         merged: seq<Timed<AxisId>>, events: seq<Timed<Edge>>)
    requires Coalesced(BothAxes(yaw, pitch), merged) && Coalesced(pins.RawEvents(merged), events)
    requires yaw != [] || pitch != []
    requires yaw != [] ==> yaw[0] == 0
    requires pitch != [] ==> pitch[0] == 0
    ensures events != [] && events[0].time == 0
  {
    var axis := if yaw != [] then Yaw else Pitch;
    BothAxesRequests(yaw, pitch, 0);
    assert (if axis.Yaw? then yaw else pitch)[0] == 0;
    assert Requests(merged, 0, axis);
    var e :| e in merged && e.time == 0 && axis in e.bits;
    var p := pins.PinOf(axis);
    assert Pulse(pins, merged, p, e);
    assert StartsAt(pins, merged, p, 0);
    EdgesAreEvents(pins, merged, events, p, 0);
  }

  /** The signal of one axis, end to end through merge, edges and delays: its step pin is asserted at
      `t` exactly when some step k has time_k <= t < time_k + width, and it rises exactly at the step
      times, so the motor receives exactly the planned pulses. */
  lemma AxisSignal(pins: StepPins, yaw: seq<nat>, pitch: seq<nat>, merged: seq<Timed<AxisId>>,
                   events: seq<Timed<Edge>>, high: set<Pin>, axis: AxisId, t: nat)
    requires pins.yawStep != pins.pitchStep && !pins.Asserted(high, pins.PinOf(axis))
    requires Coalesced(BothAxes(yaw, pitch), merged) && Coalesced(pins.RawEvents(merged), events)
    requires yaw != [] || pitch != []
    requires yaw != [] ==> yaw[0] == 0
    requires pitch != [] ==> pitch[0] == 0
    requires GapsAtLeast(if axis.Yaw? then yaw else pitch, pins.Width() + 1)
    ensures var times := if axis.Yaw? then yaw else pitch; var p := pins.PinOf(axis);
            && (pins.Asserted(LevelsAt(high, Records(events), t), p) <==> UnderWay(times, pins.Width(), t))
            && (RisesAt(pins, high, Records(events), p, t) <==> t in times)
  {
    var times := if axis.Yaw? then yaw else pitch;
    var p := pins.PinOf(axis);
    FirstEventAtZero(pins, yaw, pitch, merged, events);
    GapsGiveSpacing(pins, yaw, pitch, merged, axis);
    SignalPreservedIff(pins, merged, events, high, p);
    AxisPulsesOnItsPin(pins, yaw, pitch, merged, axis, t);
    assert pins.Asserted(LevelsAt(high, Records(events), t), p) <==> Planned(pins, merged, p, events[0].time + t);
    if t > 0 {
      AxisPulsesOnItsPin(pins, yaw, pitch, merged, axis, t - 1);
      assert pins.Asserted(LevelsAt(high, Records(events), t - 1), p)
             <==> Planned(pins, merged, p, events[0].time + (t - 1));
    }
    RisesWhereStepsStart(times, pins.Width(), t);
  }

  lemma RisesWhereStepsStart(times: seq<nat>, width: nat, t: nat)
    requires width >= 1 && GapsAtLeast(times, width + 1)
    ensures UnderWay(times, width, t) && (t == 0 || !UnderWay(times, width, t - 1)) <==> t in times
  {
    if t in times {
      var k :| 0 <= k < |times| && times[k] == t;
      assert UnderWay(times, width, t);
      forall j | 0 <= j < |times| ensures !(times[j] <= t - 1 < times[j] + width) {
        if times[j] < times[k] {
          GapBetween(times, width + 1, j, k);
        }
      }
    } else if UnderWay(times, width, t) {
      var k :| 0 <= k < |times| && times[k] <= t < times[k] + width;
      assert times[k] in times;
      assert times[k] <= t - 1 < times[k] + width;
    }
  }

  // ---------------------------------------------------------------- in terms of the configuration

  /** A step of the list began less than `pulseUs` microseconds ago, or in this very microsecond. */
  ghost predicate Pulsing(times: seq<nat>, pulseUs: int, t: nat) {
    exists k :: 0 <= k < |times| && (times[k] == t || times[k] <= t < times[k] + pulseUs)
  }

  /** The two step pins on the wire: a pin is high exactly while its axis is pulsing, for the configured pulse width but
      at least a microsecond, or exactly while it is not when the driver is active low. */
  lemma LevelsOnTheWire(pins: StepPins, yaw: seq<nat>, pitch: seq<nat>, merged: seq<Timed<AxisId>>,
                        events: seq<Timed<Edge>>, high: set<Pin>, t: nat)
    requires pins.yawStep != pins.pitchStep
    requires (pins.yawStep in high) == pins.stepActiveLow == (pins.pitchStep in high)
    requires Coalesced(BothAxes(yaw, pitch), merged) && Coalesced(pins.RawEvents(merged), events)
    requires yaw != [] || pitch != []
    requires yaw != [] ==> yaw[0] == 0
    requires pitch != [] ==> pitch[0] == 0
    requires GapsAtLeast(yaw, 2) && GapsAtLeast(yaw, pins.stepPulseUs + 1)
    requires GapsAtLeast(pitch, 2) && GapsAtLeast(pitch, pins.stepPulseUs + 1)
    ensures (pins.yawStep in LevelsAt(high, Records(events), t))
            <==> Pulsing(yaw, pins.stepPulseUs, t) != pins.stepActiveLow
    ensures (pins.pitchStep in LevelsAt(high, Records(events), t))
            <==> Pulsing(pitch, pins.stepPulseUs, t) != pins.stepActiveLow
  {
    AxisSignal(pins, yaw, pitch, merged, events, high, Yaw, t);
    AxisSignal(pins, yaw, pitch, merged, events, high, Pitch, t);
    PulsingIsUnderWay(pins, yaw, t);
    PulsingIsUnderWay(pins, pitch, t);
  }

  lemma PulsingIsUnderWay(pins: StepPins, times: seq<nat>, t: nat)
    ensures Pulsing(times, pins.stepPulseUs, t) <==> UnderWay(times, pins.Width(), t)
  {
  }

  /** How long the records take. */
  function Span(recs: seq<GpioPulse>): nat {
    if recs == [] then 0 else recs[0].usDelay + Span(recs[1..])
  }

  /** The delays add up to the time from the first edge to the last, plus the five microseconds that let the last one
      out. */
  lemma {:induction false} RecordsSpan(events: seq<Timed<Edge>>, i: nat)
    requires StrictTimes(events) && i < |events|
    ensures Span(Records(events)[i..]) == events[|events| - 1].time - events[i].time + 5
    decreases |events| - i
  {
    var recs := Records(events)[i..];
    assert recs[0] == RecordAt(events, i) && recs[1..] == Records(events)[i + 1..];
    if i + 1 < |events| {
      RecordsSpan(events, i + 1);
    } else {
      assert recs[1..] == [];
    }
  }
}
