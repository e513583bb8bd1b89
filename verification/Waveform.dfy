/** From two per-axis step lists to DMA records, and what those records do to the pins.

    The five stages are: step times, a merged pulse list, a list of pin edges, records with
    relative delays, and (in PigpioBackend) chunks. `LevelsAt` replays records the way the DMA
    engine does, and the signal theorem says the replay is the planned signal. */
module Waveform {
  import opened Timeline
  import opened StepperAxis

  datatype AxisId = Yaw | Pitch

  datatype WaveformPlan = WaveformPlan(pulses: seq<Timed<AxisId>>, yawForward: bool, pitchForward: bool,
                                       yawStepsSigned: int, pitchStepsSigned: int)

  // ---------------------------------------------------------------- stage 2: merging the axes

  function AxisPulses(times: seq<nat>, axis: AxisId): (s: seq<Timed<AxisId>>)
    ensures |s| == |times|
  {
    seq(|times|, i requires 0 <= i < |times| => Timed(times[i], {axis}))
  }

  function BothAxes(yaw: seq<nat>, pitch: seq<nat>): seq<Timed<AxisId>> {
    AxisPulses(yaw, Yaw) + AxisPulses(pitch, Pitch)
  }

  method MergeAxisPlans(yawPlan: MovePlan, pitchPlan: MovePlan) returns (wave: WaveformPlan)
    ensures Coalesced(BothAxes(yawPlan.stepTimesUs, pitchPlan.stepTimesUs), wave.pulses)
    ensures wave.yawForward == yawPlan.forward && wave.pitchForward == pitchPlan.forward
    ensures wave.yawStepsSigned == yawPlan.Signed() && wave.pitchStepsSigned == pitchPlan.Signed()
  {
    var yaw, pitch := yawPlan.stepTimesUs, pitchPlan.stepTimesUs;
    var pulses: seq<Timed<AxisId>> := [];
    for i := 0 to |yaw|
      invariant pulses == AxisPulses(yaw, Yaw)[..i]
    {
      pulses := pulses + [Timed(yaw[i], {Yaw})];
    }
    assert pulses == AxisPulses(yaw, Yaw);
    for i := 0 to |pitch|
      invariant pulses == AxisPulses(yaw, Yaw) + AxisPulses(pitch, Pitch)[..i]
    {
      pulses := pulses + [Timed(pitch[i], {Pitch})];
    }
    assert pulses == BothAxes(yaw, pitch);
    var sorted := SortByTime(pulses);
    var merged := MergeEqualTimes(sorted);
    CoalesceAnySort(pulses, sorted, sorted, merged, merged);
    wave := WaveformPlan(merged, yawPlan.forward, pitchPlan.forward, yawPlan.Signed(), pitchPlan.Signed());
  }

  lemma BothAxesRequests(yaw: seq<nat>, pitch: seq<nat>, t: nat)
    ensures Requests(BothAxes(yaw, pitch), t, Yaw) <==> t in yaw
    ensures Requests(BothAxes(yaw, pitch), t, Pitch) <==> t in pitch
  {
    var y, p := AxisPulses(yaw, Yaw), AxisPulses(pitch, Pitch);
    var s := y + p;
    if t in yaw {
      var i :| 0 <= i < |yaw| && yaw[i] == t;
      assert s[i] == Timed(t, {Yaw}) && s[i] in s;
    }
    if t in pitch {
      var i :| 0 <= i < |pitch| && pitch[i] == t;
      assert s[|y| + i] == Timed(t, {Pitch}) && s[|y| + i] in s;
    }
    assert forall e :: e in s ==> (e.bits == {Yaw} && e.time in yaw) || (e.bits == {Pitch} && e.time in pitch);
  }

  /** Lossless merge: the merged list is strictly increasing in time, its projection on each axis is
      exactly that axis's list, and any other merge of the same lists is the same list. */
  lemma LosslessMerge(yaw: seq<nat>, pitch: seq<nat>, merged: seq<Timed<AxisId>>)
    requires Ascending(yaw) && Ascending(pitch)
    requires Coalesced(BothAxes(yaw, pitch), merged)
    ensures StrictTimes(merged)
    ensures TimesOf(merged, Yaw) == yaw && TimesOf(merged, Pitch) == pitch
    ensures forall other :: Coalesced(BothAxes(yaw, pitch), other) ==> other == merged
  {
    TimesOfAscending(merged, Yaw);
    TimesOfAscending(merged, Pitch);
    forall t ensures t in TimesOf(merged, Yaw) <==> t in yaw {
      TimesOfContains(merged, Yaw, t);
      BothAxesRequests(yaw, pitch, t);
    }
    forall t ensures t in TimesOf(merged, Pitch) <==> t in pitch {
      TimesOfContains(merged, Pitch, t);
      BothAxesRequests(yaw, pitch, t);
    }
    AscendingEqual(TimesOf(merged, Yaw), yaw);
    AscendingEqual(TimesOf(merged, Pitch), pitch);
    forall other | Coalesced(BothAxes(yaw, pitch), other) ensures other == merged {
      StrictListsEqual(other, merged);
    }
  }

  // ---------------------------------------------------------------- stage 3: pin edges

  type Pin = n: nat | n < 32

  /** The part of the GPIO configuration the waveform depends on. */
  datatype StepPins = StepPins(yawStep: Pin, pitchStep: Pin, stepActiveLow: bool, stepPulseUs: int)
  {
    function Width(): (w: nat)
      ensures w >= 1
    {
      if stepPulseUs > 1 then stepPulseUs else 1
    }

    /** How far apart the pulses of one pin must start. When active high a deassert edge wins over an assert edge in
        the same record, so the next pulse must start strictly after the previous one ends; when active low it may
        start in the very microsecond the previous one ends. */
    function Spacing(): (g: nat)
      ensures g >= 1
    {
      if stepActiveLow then Width() else Width() + 1
    }

    function PinOf(axis: AxisId): Pin { if axis.Yaw? then yawStep else pitchStep }

    /** The pin mask of a pulse: the step pins of the axes it carries. */
    function Mask(axes: set<AxisId>): (m: set<Pin>)
      ensures forall p :: p in m <==> exists a :: a in axes && PinOf(a) == p
    {
      (if Yaw in axes then {yawStep} else {}) + (if Pitch in axes then {pitchStep} else {})
    }

    function AssertEdge(p: Pin): Edge { if stepActiveLow then Off(p) else On(p) }
    function DeassertEdge(p: Pin): Edge { if stepActiveLow then On(p) else Off(p) }

    /** Whether a step pin is asserted, given the set of pins that are high. */
    predicate Asserted(high: set<Pin>, p: Pin) { (p in high) != stepActiveLow }

    function AssertEvent(e: Timed<AxisId>): Timed<Edge> {
      Timed(e.time, set p | p in Mask(e.bits) :: AssertEdge(p))
    }

    function DeassertEvent(e: Timed<AxisId>): Timed<Edge> {
      Timed(e.time + Width(), set p | p in Mask(e.bits) :: DeassertEdge(p))
    }

    /** The edges of every pulse, in plan order; pulses without an axis are skipped. */
    function RawEvents(pulses: seq<Timed<AxisId>>): seq<Timed<Edge>> {
      if pulses == [] then []
      else
        var e := pulses[|pulses| - 1];
        RawEvents(pulses[..|pulses| - 1])
        + if Mask(e.bits) == {} then [] else [AssertEvent(e), DeassertEvent(e)]
    }
  }

  /** One bit of the two masks of a wave event: `On(p)` is bit p of gpio_on, `Off(p)` of gpio_off. */
  datatype Edge = On(pin: Pin) | Off(pin: Pin)

  method BuildEvents(pins: StepPins, pulses: seq<Timed<AxisId>>) returns (events: seq<Timed<Edge>>)
    ensures Coalesced(pins.RawEvents(pulses), events)
  {
    var raw: seq<Timed<Edge>> := [];
    for i := 0 to |pulses|
      invariant raw == pins.RawEvents(pulses[..i])
    {
      assert pulses[..i + 1][..i] == pulses[..i];
      var mask := pins.Mask(pulses[i].bits);
      if mask != {} {
        raw := raw + [pins.AssertEvent(pulses[i]), pins.DeassertEvent(pulses[i])];
      }
    }
    assert pulses[..|pulses|] == pulses;
    var sorted := SortByTime(raw);
    events := MergeEqualTimes(sorted);
    CoalesceAnySort(raw, sorted, sorted, events, events);
  }

  // ---------------------------------------------------------------- stage 4: DMA records

  datatype GpioPulse = GpioPulse(gpioOn: set<Pin>, gpioOff: set<Pin>, usDelay: nat)

  /** Delay of the last record, so that the last edge is really transmitted. */
  const TAIL_US: nat := 5

  function RecordAt(events: seq<Timed<Edge>>, i: nat): GpioPulse
    requires i < |events| && StrictTimes(events)
  {
    GpioPulse(set e | e in events[i].bits && e.On? :: e.pin,
              set e | e in events[i].bits && e.Off? :: e.pin,
              if i + 1 < |events| then events[i + 1].time - events[i].time else TAIL_US)
  }

  function Records(events: seq<Timed<Edge>>): (r: seq<GpioPulse>)
    requires StrictTimes(events)
    ensures |r| == |events|
  {
    seq(|events|, i requires 0 <= i < |events| => RecordAt(events, i))
  }

  method EventsToPigpioPulses(events: seq<Timed<Edge>>) returns (out: seq<GpioPulse>)
    requires StrictTimes(events)
    ensures out == Records(events)
  {
    out := [];
    for i := 0 to |events|
      invariant out == Records(events)[..i]
    {
      var on := set e | e in events[i].bits && e.On? :: e.pin;
      var off := set e | e in events[i].bits && e.Off? :: e.pin;
      var delay := if i + 1 < |events| then events[i + 1].time - events[i].time else TAIL_US;
      out := out + [GpioPulse(on, off, delay)];
    }
  }

  // ---------------------------------------------------------------- replay

  /** A record raises its `gpioOn` pins, then lowers its `gpioOff` pins. */
  function Apply(high: set<Pin>, r: GpioPulse): set<Pin> {
    high + r.gpioOn - r.gpioOff
  }

  /** The pins that are high `t` microseconds after the first record is applied: apply, wait, go on. */
  function LevelsAt(high: set<Pin>, recs: seq<GpioPulse>, t: nat): set<Pin>
    decreases |recs|
  {
    if recs == [] then high
    else
      var now := Apply(high, recs[0]);
      if t < recs[0].usDelay then now else LevelsAt(now, recs[1..], t - recs[0].usDelay)
  }
}
