/** The Go simulator's scan: elapsed time decides how many raster cells are filled. Times are seconds. */
module SimScan {
  import opened Arithmetic
  import opened Options
  import opened ScanGrid
  import opened Raster

  datatype Mode = Idle | Scanning | Paused | Manual | Fault

  datatype Sim = Sim(mode: Mode, store: Store, filledCells: nat, accumulated: real, startedAt: Option<real>)

  function Cells(s: Sim): nat { s.store.w * s.store.h }

  ghost predicate Live(s: Sim) { s.store.WellSized() && Cells(s) > 0 }

  /** The synthetic surface, as a function of column, row and grid size. */
  type Surface = (int, int, int, int) -> real

  ghost predicate Distances(sample: Surface) {
    forall x, y, w, h :: sample(x, y, w, h) >= 0.0
  }

  /** Estimated duration: 0.11 s per cell, to two decimals. */
  function Duration(cells: nat): real { Round2(cells as real * 0.11) }

  function Clamp01(v: real): real { if v < 0.0 then 0.0 else if v > 1.0 then 1.0 else v }

  function ProgressAt(cells: nat, elapsed: real): real
    requires cells > 0
  {
    DurationPositive(cells);
    Clamp01(elapsed / Duration(cells))
  }

  function TargetAt(cells: nat, elapsed: real): int
    requires cells > 0
  {
    WholeShare(ProgressAt(cells, elapsed), cells)
  }

  function WholeShare(p: real, n: nat): int { (p * n as real).Floor }

  lemma DurationPositive(cells: nat)
    requires cells > 0
    ensures Duration(cells) > 0.0
  {
    var x := cells as real * 0.11 * 100.0;
    assert LlRound(x) as real >= x - 0.5;
    assert x >= 11.0;
  }

  // ---------------------------------------------------------------- filling

  /** Raster cells `first` .. `last - 1` written in order. */
  function FillFrom(s: Store, first: nat, last: nat, sample: Surface): (t: Store)
    requires s.WellSized()
    ensures t.WellSized() && t.w == s.w && t.h == s.h && t.generation == s.generation
    decreases last - first
  {
    if first >= last then s
    else
      var p := FillFrom(s, first, last - 1, sample);
      var c := CoordForIndex(last - 1, s.w);
      Marked(p, c.x, c.y, sample(c.x, c.y, s.w, s.h))
  }

  /** fillToLocked clamps the target to the grid, writes what is missing, and moves the counter. */
  function FillTo(s: Sim, target: int, sample: Surface): Sim
    requires s.store.WellSized()
  {
    var n := ClampTarget(target, s.store.w * s.store.h);
    s.(store := FillFrom(s.store, s.filledCells, n, sample), filledCells := n)
  }

  function ClampTarget(target: int, cells: nat): nat {
    if target < 0 then 0 else if target > cells then cells else target
  }

  class Simulator {
    const grid: GridStore
    var filledCells: nat

    constructor (grid: GridStore)
      ensures this.grid == grid && filledCells == 0
    {
      this.grid, filledCells := grid, 0;
    }

    method FillToLocked(target: int, sample: Surface)
      requires grid.Valid()
      modifies this`filledCells, grid
      ensures grid.Valid() && old(grid.View()).WellSized()
      ensures var before := Sim(Scanning, old(grid.View()), old(filledCells), 0.0, None);
              var after := FillTo(before, target, sample);
              grid.View() == after.store && filledCells == after.filledCells
    {
      FlattenSize(grid.grid, grid.gridW);
      var n := ClampTarget(target, grid.gridW * grid.gridH);
      ghost var start := grid.View();
      var w, h := grid.gridW, grid.gridH;
      var i := filledCells;
      while i < n
        invariant i >= filledCells && (i <= n || i == filledCells)
        invariant grid.Valid() && grid.View() == FillFrom(start, filledCells, i, sample)
        invariant filledCells == old(filledCells)
        invariant grid.gridW == w && grid.gridH == h
      {
        var c := CoordForIndex(i, w);
        grid.MarkCell(c.x, c.y, sample(c.x, c.y, w, h));
        i := i + 1;
      }
      filledCells := n;
    }
  }

  /** The first `n` raster cells show the surface. */
  ghost predicate ShowsSurface(s: Store, n: nat, sample: Surface) {
    forall k :: 0 <= k < n ==> 0 <= CellOf(k, s.w) < |s.cells| && s.cells[CellOf(k, s.w)] == SurfaceAt(s, k, sample)
  }

  function SurfaceAt(s: Store, k: nat, sample: Surface): real {
    sample(CoordForIndex(k, s.w).x, CoordForIndex(k, s.w).y, s.w, s.h)
  }

  /** The first `n` raster cells are filled, and with the surface. */
  ghost predicate Filled(s: Store, n: nat, sample: Surface) {
    s.Good() && RasterFilled(s, n) && ShowsSurface(s, n, sample)
  }

  function Size(s: Store): nat { s.w * s.h }

  lemma {:induction false} FillingExtendsRaster(s: Store, first: nat, last: nat, sample: Surface)
    requires Filled(s, first, sample) && first <= last <= Size(s) && Distances(sample)
    ensures s.WellSized() && Filled(FillFrom(s, first, last, sample), last, sample)
    decreases last
  {
    assert s.WellSized();
    hide Filled, Store.WellSized, Distances, FillFrom, Size;
    if first == last {
      FillNothing(s, first, sample);
    } else {
      FillingExtendsRaster(s, first, last - 1, sample);
      FillingStep(s, first, last, sample);
    }
  }

  lemma FillNothing(s: Store, first: nat, sample: Surface)
    requires s.WellSized()
    ensures FillFrom(s, first, first, sample) == s
  {
  }

  lemma FillingStep(s: Store, first: nat, last: nat, sample: Surface)
    requires s.WellSized() && first < last <= Size(s) && Distances(sample)
    requires Filled(FillFrom(s, first, last - 1, sample), last - 1, sample)
    ensures Filled(FillFrom(s, first, last, sample), last, sample)
  {
    hide Filled, Distances, Size;
    var p := FillFrom(s, first, last - 1, sample);
    SameSize(p, s);
    FillingOneMore(p, last - 1, sample);
  }

  lemma SameSize(a: Store, b: Store)
    requires a.w == b.w && a.h == b.h
    ensures Size(a) == Size(b)
  {
  }

  lemma FillingOneMore(s: Store, n: nat, sample: Surface)
    requires Filled(s, n, sample) && n < Size(s) && Distances(sample)
    ensures var c := CoordForIndex(n, s.w);
            s.WellSized() && Filled(Marked(s, c.x, c.y, sample(c.x, c.y, s.w, s.h)), n + 1, sample)
  {
    FillOneMore(s, n, SurfaceAt(s, n, sample));
    OthersStayShown(s, n, sample);
    hide RasterFilled, ShowsSurface, Marked, CoordForIndex;
  }

  lemma FillOneMore(s: Store, n: nat, v: real)
    requires s.Good() && RasterFilled(s, n) && n < s.w * s.h && v >= 0.0
    ensures var c := CoordForIndex(n, s.w); var t := Marked(s, c.x, c.y, v); t.Good() && RasterFilled(t, n + 1)
  {
    var c := CoordForIndex(n, s.w);
    MarkExtendsRaster(s, n, v);
    MutationsAreLater(s, c.x, c.y, v, 0, 0);
  }

  lemma OthersStayShown(s: Store, n: nat, sample: Surface)
    requires s.WellSized() && ShowsSurface(s, n, sample) && n < s.w * s.h
    ensures var c := CoordForIndex(n, s.w); ShowsSurface(Marked(s, c.x, c.y, SurfaceAt(s, n, sample)), n + 1, sample)
  {
    var c := CoordForIndex(n, s.w);
    IndexRoundTrip(n, s.w, s.h);
    var t := Marked(s, c.x, c.y, SurfaceAt(s, n, sample));
    forall k | 0 <= k < n + 1
      ensures 0 <= CellOf(k, t.w) < |t.cells| && t.cells[CellOf(k, t.w)] == SurfaceAt(t, k, sample)
    {
      IndexRoundTrip(k, s.w, s.h);
      var a := CoordForIndex(k, s.w);
      MarkedCell(s, c.x, c.y, SurfaceAt(s, n, sample), a.x, a.y);
    }
  }

  // ---------------------------------------------------------------- commands

  datatype Event =
    | StartScan(now: real)
    | PauseScan(now: real)
    | ResumeScan(now: real)
    | StopScan(now: real)
    | EStop(now: real)
    | ClearFault(now: real)
    | Home(now: real)
    | Jog(now: real)
    | SetResolution(now: real, w: nat, h: nat)
    | Update(now: real)

  /** resetScanLocked: a wiped grid of a new generation. */
  function Reset(s: Sim): Sim {
    s.(store := Cleared(s.store), filledCells := 0, accumulated := 0.0, startedAt := None)
  }

  function UpdateAt(s: Sim, now: real, sample: Surface): Sim
    requires Live(s)
  {
    if s.mode != Scanning || s.startedAt.None? then s
    else
      var cells := s.store.w * s.store.h;
      var elapsed := s.accumulated + (now - s.startedAt.value);
      var t := FillTo(s, TargetAt(cells, elapsed), sample);
      if ProgressAt(cells, elapsed) >= 1.0 then t.(mode := Idle, startedAt := None, accumulated := 0.0) else t
  }

  function Step(s: Sim, e: Event, sample: Surface): Sim
    requires Live(s)
  {
    match e
    case StartScan(now) => if s.mode == Fault then s else Reset(s).(mode := Scanning, startedAt := Some(now))
    case PauseScan(now) =>
      if s.mode != Scanning || s.startedAt.None? then s
      else s.(accumulated := s.accumulated + (now - s.startedAt.value), startedAt := None, mode := Paused)
    case ResumeScan(now) => if s.mode != Paused then s else s.(mode := Scanning, startedAt := Some(now))
    case StopScan(_) =>
      if s.mode != Scanning && s.mode != Paused then s else s.(mode := Idle, startedAt := None, accumulated := 0.0)
    case EStop(_) => s.(mode := Fault, startedAt := None, accumulated := 0.0)
    case ClearFault(_) => s.(mode := Idle)
    case Home(_) => if s.mode == Fault then s else s.(mode := Idle)
    case Jog(_) => if s.mode == Scanning then s else s.(mode := Manual)
    case SetResolution(_, w, h) =>
      if s.mode == Scanning || s.mode == Paused then s
      else s.(store := Rebuilt(s.store, if w < 2 then 2 else w, if h < 2 then 2 else h), filledCells := 0)
    case Update(now) => UpdateAt(s, now, sample)
  }

  // ---------------------------------------------------------------- the law

  lemma TargetMonotone(cells: nat, a: real, b: real)
    requires cells > 0 && a <= b
    ensures 0 <= TargetAt(cells, a) <= TargetAt(cells, b) <= cells
  {
    ProgressMonotone(cells, a, b);
    FloorScaleMonotone(ProgressAt(cells, a), ProgressAt(cells, b), cells);
  }

  lemma ProgressMonotone(cells: nat, a: real, b: real)
    requires cells > 0 && a <= b
    ensures 0.0 <= ProgressAt(cells, a) <= ProgressAt(cells, b) <= 1.0
  {
    DurationPositive(cells);
    QuotientMonotone(a, b, Duration(cells));
  }

  lemma QuotientMonotone(a: real, b: real, d: real)
    requires d > 0.0 && a <= b
    ensures a / d <= b / d
  {
  }

  lemma FloorScaleMonotone(p: real, q: real, n: nat)
    requires 0.0 <= p <= q <= 1.0
    ensures 0 <= WholeShare(p, n) <= WholeShare(q, n) <= n
  {
    SharesInOrder(p, q, n as real);
    FloorsInOrder(p * n as real, q * n as real, n);
  }

  lemma SharesInOrder(p: real, q: real, c: real)
    requires 0.0 <= p <= q <= 1.0 && c >= 0.0
    ensures 0.0 <= p * c <= q * c <= c
  {
    MulMono(0.0, p, c);
    MulMono(p, q, c);
    MulMono(q, 1.0, c);
  }

  lemma FloorsInOrder(x: real, y: real, n: nat)
    requires 0.0 <= x <= y <= n as real
    ensures 0 <= x.Floor <= y.Floor <= n
  {
  }

  /** The grid shows a raster prefix of `filledCells` cells. */
  ghost predicate GridLaw(s: Store, filledCells: nat, sample: Surface) {
    && s.Good() && s.w >= 2 && s.h >= 2 && s.w * s.h > 0
    && RasterFilled(s, filledCells) && ShowsSurface(s, filledCells, sample)
  }

  /** No more cells are filled than the time scanned so far allows. */
  ghost predicate TimeLaw(mode: Mode, filledCells: nat, cells: nat, accumulated: real,
                          startedAt: Option<real>, clock: real)
    requires cells > 0
  {
    match mode
    case Scanning =>
      && startedAt.Some? && startedAt.value <= clock
      && filledCells <= TargetAt(cells, accumulated + (clock - startedAt.value))
    case Paused => filledCells <= TargetAt(cells, accumulated)
    case _ => true
  }

  ghost predicate Law(s: Sim, clock: real, sample: Surface) {
    && GridLaw(s.store, s.filledCells, sample)
    && TimeLaw(s.mode, s.filledCells, s.store.w * s.store.h, s.accumulated, s.startedAt, clock)
  }

  lemma FreshGridIsLawful(s: Store, w: nat, h: nat)
    requires s.WellSized() && w >= 2 && h >= 2
    ensures Cleared(s).Good() && RasterFilled(Cleared(s), 0)
    ensures Rebuilt(s, w, h).Good() && RasterFilled(Rebuilt(s, w, h), 0) && w * h > 0
  {
    EmptyIsRasterFilled(Cleared(s));
    EmptyIsRasterFilled(Rebuilt(s, w, h));
    MulStep(0, h, w);
  }

  lemma FillKeepsGridLaw(s: Sim, target: int, sample: Surface)
    requires GridLaw(s.store, s.filledCells, sample) && Distances(sample)
    requires s.filledCells <= target <= s.store.w * s.store.h
    ensures var t := FillTo(s, target, sample);
            && GridLaw(t.store, target, sample) && t.filledCells == target
            && t.store.w == s.store.w && t.store.h == s.store.h
  {
    FillingExtendsRaster(s.store, s.filledCells, target, sample);
  }

  /** What an update in mid-scan leaves: the target filled, and the scan going on or over. */
  lemma UpdateEffect(s: Sim, now: real, sample: Surface)
    requires Live(s) && s.mode == Scanning && s.startedAt.Some?
    ensures var t := UpdateAt(s, now, sample); var f := FillTo(s, Due(s, now), sample);
            && t.store == f.store && t.filledCells == f.filledCells
            && (t.mode == Idle || (t.mode == Scanning && t.accumulated == s.accumulated && t.startedAt == s.startedAt))
  {
  }

  /** Time has only gone on, so no more is filled than is due now. */
  lemma DueNow(s: Sim, clock: real, now: real, sample: Surface)
    requires Law(s, clock, sample) && clock <= now && s.mode == Scanning
    ensures s.store.w * s.store.h > 0 && s.startedAt.Some?
    ensures s.filledCells <= Due(s, now) <= s.store.w * s.store.h
  {
    TargetMonotone(s.store.w * s.store.h, s.accumulated + (clock - s.startedAt.value),
                   s.accumulated + (now - s.startedAt.value));
  }

  function Due(s: Sim, now: real): int
    requires s.store.w * s.store.h > 0 && s.startedAt.Some?
  {
    TargetAt(s.store.w * s.store.h, s.accumulated + (now - s.startedAt.value))
  }

  lemma UpdateKeepsGridLaw(s: Sim, clock: real, now: real, sample: Surface)
    requires Law(s, clock, sample) && clock <= now && Distances(sample) && s.mode == Scanning
    ensures s.store.w * s.store.h > 0 && s.startedAt.Some?
    ensures var t := UpdateAt(s, now, sample);
            && GridLaw(t.store, t.filledCells, sample) && t.store.w == s.store.w && t.store.h == s.store.h
            && t.filledCells == Due(s, now)
  {
    DueNow(s, clock, now, sample);
    UpdateEffect(s, now, sample);
    assert GridLaw(s.store, s.filledCells, sample);
    var f := FillTo(s, Due(s, now), sample);
    FillKeepsGridLaw(s, Due(s, now), sample);
    hide GridLaw, FillTo, Due, UpdateAt, Law, Distances, Store.WellSized;
  }

  lemma UpdateKeepsLaw(s: Sim, clock: real, now: real, sample: Surface)
    requires Law(s, clock, sample) && clock <= now && Distances(sample)
    ensures Law(UpdateAt(s, now, sample), now, sample)
  {
    assert Live(s);
    if s.mode == Scanning {
      UpdateKeepsGridLaw(s, clock, now, sample);
      UpdateEffect(s, now, sample);
      hide GridLaw, FillTo, TargetAt, UpdateAt, Distances;
    }
  }

  lemma TimePasses(s: Sim, clock: real, now: real, sample: Surface)
    requires Law(s, clock, sample) && clock <= now
    ensures Law(s, now, sample)
    ensures s.mode == Scanning ==>
              s.filledCells <= TargetAt(s.store.w * s.store.h, s.accumulated + (now - s.startedAt.value))
  {
    if s.mode == Scanning {
      TargetMonotone(s.store.w * s.store.h, s.accumulated + (clock - s.startedAt.value),
                     s.accumulated + (now - s.startedAt.value));
    }
  }

  lemma NewGridKeepsLaw(s: Sim, e: Event, sample: Surface)
    requires Law(s, e.now, sample) && (e.StartScan? || e.SetResolution?)
    ensures Law(Step(s, e, sample), e.now, sample)
  {
    if e.SetResolution? {
      FreshGridIsLawful(s.store, if e.w < 2 then 2 else e.w, if e.h < 2 then 2 else e.h);
    } else {
      StartKeepsLaw(s, e.now, sample);
    }
  }

  lemma StartKeepsLaw(s: Sim, now: real, sample: Surface)
    requires Law(s, now, sample)
    ensures Law(Step(s, StartScan(now), sample), now, sample)
  {
    FreshGridIsLawful(s.store, 2, 2);
    TargetMonotone(s.store.w * s.store.h, 0.0, 0.0);
  }

  lemma StepKeepsLaw(s: Sim, clock: real, e: Event, sample: Surface)
    requires Law(s, clock, sample) && clock <= e.now && Distances(sample)
    ensures Law(Step(s, e, sample), e.now, sample)
  {
    TimePasses(s, clock, e.now, sample);
    assert Live(s);
    hide GridLaw, UpdateAt, TargetAt;
    match e
    case Update(now) => UpdateKeepsLaw(s, clock, now, sample);
    case StartScan(_) => NewGridKeepsLaw(s, e, sample);
    case SetResolution(_, _, _) => NewGridKeepsLaw(s, e, sample);
    case _ =>
  }

  /** `t` is reached from `s` through `es`, on a clock that never goes back. */
  ghost predicate Runs(s: Sim, clock: real, es: seq<Event>, t: Sim, sample: Surface)
    decreases |es|
  {
    if es == [] then s == t
    else
      && Live(s) && clock <= es[0].now
      && Runs(Step(s, es[0], sample), es[0].now, es[1..], t, sample)
  }

  lemma {:induction false} LawOverRuns(s: Sim, clock: real, es: seq<Event>, t: Sim, sample: Surface)
    requires Law(s, clock, sample) && Runs(s, clock, es, t, sample) && Distances(sample)
    ensures exists end: real :: Law(t, end, sample)
    decreases |es|
  {
    if es != [] {
      StepKeepsLaw(s, clock, es[0], sample);
      LawOverRuns(Step(s, es[0], sample), es[0].now, es[1..], t, sample);
    }
  }

  /** A new service: an empty grid of the first generation. */
  function NewService(w: nat, h: nat): Sim {
    Sim(Idle, Rebuilt(Store(0, 0, [], [], 0, 0), if w < 2 then 2 else w, if h < 2 then 2 else h), 0, 0.0, None)
  }

  /** Segment law: along every run on a nondecreasing clock the grid version counts the filled cells, the k-th raster
      cell shows the surface there and carries version k + 1, and a delta from cursor `since` at the current
      generation carries exactly raster cells since .. filledCells - 1. */
  lemma SegmentLaw(w: nat, h: nat, clock: real, es: seq<Event>, s: Sim, sample: Surface, since: nat, gu: GridUpdate)
    requires Distances(sample) && Runs(NewService(w, h), clock, es, s, sample)
    requires s.store.WellSized() && IsUpdate(s.store, since, s.store.generation, gu)
    ensures s.store.version == s.filledCells <= s.store.w * s.store.h
    ensures forall k :: 0 <= k < s.filledCells ==>
              0 <= CellOf(k, s.store.w) < |s.store.cells| && s.store.cellVersion[CellOf(k, s.store.w)] == k + 1
    ensures forall k :: 0 <= k < s.filledCells ==>
              var c := CoordForIndex(k, s.store.w);
              s.store.cells[CellOf(k, s.store.w)] == sample(c.x, c.y, s.store.w, s.store.h)
    ensures forall k :: 0 <= k < s.store.w * s.store.h ==>
              (CellOf(k, s.store.w) in gu.idx <==> since <= k < s.filledCells)
  {
    var start := NewService(w, h);
    FreshGridIsLawful(Store(0, 0, [], [], 0, 0), start.store.w, start.store.h);
    assert Law(start, clock, sample);
    LawOverRuns(start, clock, es, s, sample);
    var end: real :| Law(s, end, sample);
    forall k | 0 <= k < s.store.w * s.store.h ensures CellOf(k, s.store.w) in gu.idx <==> since <= k < s.filledCells {
      RasterDelta(s.store, s.filledCells, since, gu, k);
    }
  }
}
