/** How the Go simulator turns time into cells: the share of the estimated duration that has been scanned, pauses not
    counted; and what halts it. */
module SimTime {
  import opened Arithmetic
  import opened Options
  import opened SimScan

  // ---------------------------------------------------------------- the share

  /** The target is the whole part of the share of cells that the time scanned is of the estimated duration, which is
      0.11 s per cell to the nearest hundredth; nothing before the start and everything from the end on. */
  lemma TargetIsShare(cells: nat, elapsed: real)
    requires cells > 0
    ensures var d, n := Duration(cells), TargetAt(cells, elapsed);
            && d > 0.0 && -0.005 <= d - 0.11 * cells as real <= 0.005
            && (elapsed <= 0.0 ==> n == 0) && (n == cells <==> elapsed >= d)
            && (0.0 <= elapsed < d ==> n as real * d <= elapsed * cells as real < (n + 1) as real * d)
  {
    var d := Duration(cells);
    DurationPositive(cells);
    assert TargetAt(cells, elapsed) == WholeShare(Clamp01(elapsed / d), cells);
    DurationIsNear(cells);
    hide Duration, TargetAt, ProgressAt, WholeShare, Clamp01;
    ShareOfTime(elapsed, d, cells);
  }

  lemma DurationIsNear(cells: nat)
    ensures -0.005 <= Duration(cells) - 0.11 * cells as real <= 0.005
  {
  }

  lemma ShareOfTime(elapsed: real, d: real, cells: nat)
    requires cells > 0 && d > 0.0
    ensures var n := WholeShare(Clamp01(elapsed / d), cells);
            && (elapsed <= 0.0 ==> n == 0) && (n == cells <==> elapsed >= d)
            && (0.0 <= elapsed < d ==> n as real * d <= elapsed * cells as real < (n + 1) as real * d)
  {
    WholeShareAtEnds(cells);
    DivMul(elapsed, d);
    if elapsed <= 0.0 {
      QuotientMonotone(elapsed, 0.0, d);
      assert Clamp01(elapsed / d) == 0.0;
    } else if elapsed >= d {
      QuotientMonotone(d, elapsed, d);
    } else {
      ProperShare(elapsed / d, d, elapsed, cells);
    }
  }

  lemma WholeShareAtEnds(n: nat)
    ensures WholeShare(0.0, n) == 0 && WholeShare(1.0, n) == n
  {
  }

  lemma ProperShare(q: real, d: real, elapsed: real, cells: nat)
    requires cells > 0 && 0.0 < elapsed < d && q * d == elapsed
    ensures 0.0 <= q < 1.0
    ensures var n := WholeShare(q, cells);
            n < cells && n as real * d <= elapsed * cells as real < (n + 1) as real * d
  {
    ProperFraction(q, d, elapsed);
    var c := cells as real;
    var x, n := q * c, WholeShare(q, cells);
    assert x < c by {
      assert (1.0 - q) * c > 0.0;
    }
    SwapFactors(q, d, elapsed, c);
    ProductBetween(x, n as real, (n + 1) as real, d, elapsed * c);
  }

  lemma SwapFactors(q: real, d: real, e: real, c: real)
    requires q * d == e
    ensures e * c == (q * c) * d
  {
  }

  lemma ProperFraction(q: real, d: real, e: real)
    requires q * d == e && 0.0 < e < d
    ensures 0.0 < q < 1.0
  {
    if q >= 1.0 {
      MulMono(1.0, q, d);
    }
    if q <= 0.0 {
      MulMono(q, 0.0, d);
    }
  }

  // ---------------------------------------------------------------- an update

  /** An update in mid-scan fills exactly the target for the time scanned so far, and ends the scan exactly when that is
      the whole duration. */
  lemma UpdateCatchesUp(s: Sim, clock: real, now: real, sample: Surface)
    requires Law(s, clock, sample) && clock <= now && s.mode == Scanning
    ensures s.store.WellSized() && s.startedAt.Some? && s.store.w * s.store.h > 0
    ensures var cells, elapsed := s.store.w * s.store.h, s.accumulated + (now - s.startedAt.value);
            var t := Step(s, Update(now), sample);
            t.filledCells == TargetAt(cells, elapsed) && (t.mode == Idle <==> elapsed >= Duration(cells))
  {
    UpdateTakesTarget(s, clock, now, sample);
    var cells, elapsed := s.store.w * s.store.h, s.accumulated + (now - s.startedAt.value);
    assert (Step(s, Update(now), sample).mode == Idle) <==> ProgressAt(cells, elapsed) >= 1.0;
    hide UpdateAt, TargetAt, FillTo, Law;
    DurationPositive(cells);
    FullProgressIff(elapsed, Duration(cells));
  }

  lemma FullProgressIff(elapsed: real, d: real)
    requires d > 0.0
    ensures Clamp01(elapsed / d) >= 1.0 <==> elapsed >= d
  {
    DivMul(elapsed, d);
    if elapsed / d >= 1.0 {
      MulMono(1.0, elapsed / d, d);
    }
    if elapsed >= d {
      QuotientMonotone(d, elapsed, d);
    }
  }

  lemma UpdateTakesTarget(s: Sim, clock: real, now: real, sample: Surface)
    requires Law(s, clock, sample) && clock <= now && s.mode == Scanning
    ensures s.store.WellSized() && s.startedAt.Some? && s.store.w * s.store.h > 0
    ensures UpdateAt(s, now, sample).filledCells
            == TargetAt(Cells(s), s.accumulated + (now - s.startedAt.value))
  {
    var cells, elapsed := s.store.w * s.store.h, s.accumulated + (now - s.startedAt.value);
    TargetMonotone(cells, s.accumulated + (clock - s.startedAt.value), elapsed);
    UpdateEffect(s, now, sample);
    hide TargetAt, UpdateAt, GridLaw;
  }

  // ---------------------------------------------------------------- runs

  function After(s: Sim, es: seq<Event>, sample: Surface): (t: Sim)
    requires Live(s)
    ensures Live(t)
    decreases |es|
  {
    if es == [] then s
    else
      StepKeepsCells(s, es[0], sample);
      After(SimScan.Step(s, es[0], sample), es[1..], sample)
  }

  lemma StepKeepsCells(s: Sim, e: Event, sample: Surface)
    requires Live(s)
    ensures var t := SimScan.Step(s, e, sample); Live(t)
  {
  }

  lemma {:induction false} AfterBoth(s: Sim, a: seq<Event>, b: seq<Event>, sample: Surface)
    requires Live(s)
    ensures After(s, a + b, sample) == After(After(s, a, sample), b, sample)
    decreases |a|
  {
    hide SimScan.Step;
    if a == [] {
      assert a + b == b;
    } else {
      assert (a + b)[0] == a[0] && (a + b)[1..] == a[1..] + b;
      StepKeepsCells(s, a[0], sample);
      AfterBoth(SimScan.Step(s, a[0], sample), a[1..], b, sample);
    }
  }

  lemma AfterOne(s: Sim, e: Event, sample: Surface)
    requires Live(s)
    ensures After(s, [e], sample) == SimScan.Step(s, e, sample)
  {
    hide SimScan.Step;
    StepKeepsCells(s, e, sample);
    assert [e][1..] == [];
    assert After(SimScan.Step(s, e, sample), [], sample) == SimScan.Step(s, e, sample);
  }

  lemma FirstMiddleLast(s: Sim, first: Event, middle: seq<Event>, last: Event, sample: Surface)
    requires Live(s)
    ensures Live(SimScan.Step(s, first, sample))
    ensures After(s, [first] + (middle + [last]), sample)
            == SimScan.Step(After(SimScan.Step(s, first, sample), middle, sample), last, sample)
  {
    hide SimScan.Step, After, Live;
    StepKeepsCells(s, first, sample);
    var a := SimScan.Step(s, first, sample);
    AfterBoth(s, [first], middle + [last], sample);
    AfterOne(s, first, sample);
    AfterBoth(a, middle, [last], sample);
    AfterOne(After(a, middle, sample), last, sample);
  }

  // ---------------------------------------------------------------- pauses

  /** A pause and the resume that ends it. */
  datatype Break = Break(from: real, to: real)

  function Commands(breaks: seq<Break>): seq<Event> {
    if breaks == [] then [] else [PauseScan(breaks[0].from)] + ([ResumeScan(breaks[0].to)] + Commands(breaks[1..]))
  }

  function TimeOff(breaks: seq<Break>): real {
    if breaks == [] then 0.0 else (breaks[0].to - breaks[0].from) + TimeOff(breaks[1..])
  }

  lemma {:induction false} BreaksAddUp(s: Sim, breaks: seq<Break>, now: real, sample: Surface)
    requires Live(s) && s.mode == Scanning && s.startedAt.Some?
    ensures var t := After(s, Commands(breaks), sample);
            && t.store == s.store && Cells(t) == Cells(s) && t.filledCells == s.filledCells
            && t.mode == Scanning && t.startedAt.Some?
            && t.accumulated + (now - t.startedAt.value)
               == s.accumulated + (now - s.startedAt.value) - TimeOff(breaks)
    decreases |breaks|
  {
    if breaks != [] {
      var p, r := PauseScan(breaks[0].from), ResumeScan(breaks[0].to);
      var a := SimScan.Step(s, p, sample);
      var b := SimScan.Step(a, r, sample);
      AfterOne(s, p, sample);
      AfterOne(a, r, sample);
      AfterBoth(s, [p], [r] + Commands(breaks[1..]), sample);
      AfterBoth(a, [r], Commands(breaks[1..]), sample);
      BreaksAddUp(b, breaks[1..], now, sample);
    }
  }

  /** Pauses do not count: after a start, any pauses, and an update, the cells filled are the target for the time since
      the start less the time spent pausing. */
  lemma PausesDoNotCount(s: Sim, start: real, breaks: seq<Break>, now: real, sample: Surface)
    requires Live(s) && s.mode != Fault
    ensures After(s, [StartScan(start)] + (Commands(breaks) + [Update(now)]), sample).filledCells
            == TargetAt(Cells(s), now - start - TimeOff(breaks))
  {
    hide SimScan.Step, TargetAt, Commands, After, Live, Cells, TimeOff;
    StartStarts(s, start, sample);
    var a := SimScan.Step(s, StartScan(start), sample);
    BreaksAddUp(a, breaks, now, sample);
    var b := After(a, Commands(breaks), sample);
    UpdateFills(b, now, sample);
    FirstMiddleLast(s, StartScan(start), Commands(breaks), Update(now), sample);
  }

  lemma StartStarts(s: Sim, start: real, sample: Surface)
    requires Live(s) && s.mode != Fault
    ensures var t := SimScan.Step(s, StartScan(start), sample);
            && Live(t) && Cells(t) == Cells(s) && t.mode == Scanning
            && t.startedAt == Some(start) && t.accumulated == 0.0
  {
  }

  lemma UpdateFills(s: Sim, now: real, sample: Surface)
    requires Live(s) && s.mode == Scanning && s.startedAt.Some?
    ensures SimScan.Step(s, Update(now), sample).filledCells
            == TargetAt(Cells(s), s.accumulated + (now - s.startedAt.value))
  {
    var cells, elapsed := s.store.w * s.store.h, s.accumulated + (now - s.startedAt.value);
    TargetMonotone(cells, elapsed, elapsed);
    hide TargetAt, ProgressAt;
  }

  // ---------------------------------------------------------------- what halts a scan

  predicate Halts(s: Sim, e: Event) {
    || e.EStop?
    || (e.StopScan? && (s.mode == Scanning || s.mode == Paused))
    || (e.PauseScan? && s.mode == Scanning && s.startedAt.Some?)
    || (e.Home? && s.mode != Fault)
  }

  /** Nobody starts again what `halt` has halted: a pause can be resumed, a stop cannot. */
  predicate StaysHalted(halt: Event, es: seq<Event>) {
    forall k :: 0 <= k < |es| ==>
      !es[k].StartScan? && !es[k].SetResolution? && (halt.PauseScan? ==> !es[k].ResumeScan?)
  }

  /** After a stop, an e-stop, a pause or a home time fills no cell, whatever else is asked for, and a later resume
      brings back only what was paused. */
  lemma HaltedFillsNothing(s: Sim, halt: Event, es: seq<Event>, sample: Surface)
    requires Live(s) && Halts(s, halt) && StaysHalted(halt, es)
    ensures var h := SimScan.Step(s, halt, sample);
            h.store == s.store && After(h, es, sample).store == s.store
  {
    HaltedStays(SimScan.Step(s, halt, sample), halt.PauseScan?, es, sample);
  }

  lemma {:induction false} HaltedStays(s: Sim, mayBePaused: bool, es: seq<Event>, sample: Surface)
    requires Live(s)
    requires s.mode != Scanning && (s.mode == Paused ==> mayBePaused)
    requires forall k :: 0 <= k < |es| ==>
               !es[k].StartScan? && !es[k].SetResolution? && (mayBePaused ==> !es[k].ResumeScan?)
    ensures After(s, es, sample).store == s.store
    decreases |es|
  {
    if es != [] {
      assert !es[0].StartScan? && !es[0].SetResolution? && (mayBePaused ==> !es[0].ResumeScan?);
      StepKeepsCells(s, es[0], sample);
      HaltedStays(SimScan.Step(s, es[0], sample), mayBePaused, es[1..], sample);
    }
  }

  /** A jog is let through a fault, and takes it away. */
  predicate Lifts(e: Event) { e.ClearFault? || e.Jog? }

  /** At some point of the run there is no fault. */
  predicate LeavesFault(s: Sim, es: seq<Event>, sample: Surface)
    requires Live(s)
    decreases |es|
  {
    || s.mode != Fault
    || (es != [] && (StepKeepsCells(s, es[0], sample); LeavesFault(SimScan.Step(s, es[0], sample), es[1..], sample)))
  }

  /** How long a fault lasts: until it is cleared or somebody jogs. */
  lemma {:induction false} FaultLiftedIff(s: Sim, es: seq<Event>, sample: Surface)
    requires Live(s) && s.mode == Fault
    ensures LeavesFault(s, es, sample) <==> exists k :: 0 <= k < |es| && Lifts(es[k])
    decreases |es|
  {
    if es != [] {
      var t, rest := SimScan.Step(s, es[0], sample), es[1..];
      StepKeepsCells(s, es[0], sample);
      assert t.mode == Fault <==> !Lifts(es[0]);
      hide SimScan.Step;
      if t.mode == Fault {
        FaultLiftedIff(t, rest, sample);
        assert forall k :: 0 <= k < |rest| ==> rest[k] == es[k + 1];
        assert forall k :: 0 < k < |es| ==> es[k] == rest[k - 1];
      }
    }
  }

  /** After an e-stop a jog is enough to scan again, with nobody clearing the fault. */
  lemma JogLiftsFault(s: Sim, now: real, sample: Surface)
    requires Live(s)
    ensures After(s, [EStop(now)], sample).mode == Fault
    ensures After(s, [EStop(now)] + ([Jog(now)] + [StartScan(now)]), sample).mode == Scanning
  {
    var a := SimScan.Step(s, EStop(now), sample);
    var b := SimScan.Step(a, Jog(now), sample);
    assert Live(a) && Live(b) && a.mode == Fault && SimScan.Step(b, StartScan(now), sample).mode == Scanning;
    hide SimScan.Step, After, Live, Cells;
    AfterOne(s, EStop(now), sample);
    AfterOne(a, Jog(now), sample);
    AfterOne(b, StartScan(now), sample);
    AfterBoth(a, [Jog(now)], [StartScan(now)], sample);
    AfterBoth(s, [EStop(now)], [Jog(now)] + [StartScan(now)], sample);
  }
}
