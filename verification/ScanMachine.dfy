/** The daemon's scan worker as a state machine over its lock regions.

    One `Worker` event is one lock region, or one call made without the lock, of the step loop or the
    sweep loop; commands, the manual-move worker and the safety supervisor interleave freely between them. A
    command that also aborts the motion is two events, its lock region and `AbortMotion`.
    `writes` (which worker wrote each cell, in order), `pausedWrites`, `cut`, `heard` (the sensor's last answer and
    where the head was) and `readings` (the answers that became cells since the last reset) are history. */
module ScanMachine {
  import opened Arithmetic
  import opened ScanGrid
  import opened Raster

  datatype ScanState = Idle | Scanning | Paused | Stopping
  datatype Mode = StepMode | SweepMode

  const LIDAR_READ_ATTEMPTS: nat := 3

  /** Where the scan worker is. `...Call`, `Polling` and the sampling points are inside a motion call or a sweep. */
  datatype Pc =
    | Gone
    | Wait(loop: Mode)  // parked, or about to pick the next cell or row
    | MoveCall(index: nat, w: nat, h: nat)
    | Moved(index: nat, w: nat, h: nat, ok: bool)
    | Reading(index: nat, w: nat, h: nat, attempt: nat)
    | Retry(index: nat, w: nat, h: nat, attempt: nat)
    | Captured(index: nat, w: nat, h: nat, got: bool, v: real)
    | RowMoveCall(row: nat, w: nat, h: nat)
    | RowMoved(row: nat, w: nat, h: nat, ok: bool)
    | SweepStartCall(row: nat, w: nat, h: nat)
    | SweepRefused(row: nat, w: nat, h: nat)
    | Polling(row: nat, w: nat, h: nat)   // about to ask whether the sweep is still busy
    | Sampling(row: nat, w: nat, h: nat)  // told that it is; about to look for a stop
    | SampleRead(row: nat, w: nat, h: nat)
    | Sampled(row: nat, w: nat, h: nat, x: nat, v: real)
    | SweepFinishCall(row: nat, w: nat, h: nat, aborted: bool)
    | RowDone(row: nat, w: nat, h: nat)
  {
    predicate InMotion() { MoveCall? || RowMoveCall? || SweepStartCall? || SweepUnderWay() || SweepFinishCall? }
    predicate SweepUnderWay() { Polling? || Sampling? || SampleRead? || Sampled? }
    /** A call made without the lock: motors, sensor or transmitter. */
    predicate Call() {
      MoveCall? || Reading? || RowMoveCall? || SweepStartCall? || Polling? || SampleRead? || SweepFinishCall?
    }
    /** A lock region that decides how to go on and touches neither the grid nor the cursors. */
    predicate Decision() { Moved? || Retry? || RowMoved? || SweepRefused? || Sampling? }
    predicate StepLoop() { MoveCall? || Moved? || Reading? || Retry? || Captured? }
    predicate SweepLoop() { !StepLoop() && !Gone? && !Wait? }
  }

  datatype Manual = NoMove | ManualCall | ManualReturned(ok: bool)

  /** The grid and how far the scan has got with it. */
  datatype Job = Job(mode: Mode, store: Store, scanIndex: nat, scanRow: nat, filledCells: nat, completed: bool,
                     readings: seq<CellMark>)

  /** `live`: the sweep's waveform still has steps to send. `cut`: it was stopped before it had sent them. */
  datatype Daemon = Daemon(scan: ScanState, pc: Pc, worker: nat, manual: Manual, faulted: bool, live: bool, cut: bool,
                           job: Job, writes: seq<nat>, pausedWrites: nat, heard: CellMark)

  /** What the world answers to a worker step: did the call succeed, the reading, the sampled column, and has a sweep
      that starts any step to make. */
  datatype Outcome = Outcome(ok: bool, v: real, x: int, moves: bool)

  datatype Event =
    | StartScan(known: bool)
    | PauseScan
    | ResumeScan
    | StopScan
    | EStop
    | ClearFault
    | SetResolution(w: int, h: int)
    | SetMode(mode: Mode, w: int, h: int)
    | HomeOrJog(isHome: bool, known: bool)
    | ManualReturns(ok: bool)
    | ManualFinishes
    | TriggerFault  // the supervisor, or the first half of an e-stop, latches a fault
    | AbortMotion   // what follows a fault, an e-stop or a stop
    | SweepDrains   // the last step of the sweep goes out
    | Worker(o: Outcome)

  function AtLeastTwo(n: int): int { if n < 2 then 2 else n }

  /** ResetScanLocked. */
  function ResetScan(j: Job): Job { Job(j.mode, Cleared(j.store), 0, 0, 0, false, []) }

  /** The grid part of ApplyResolutionLocked, whose sides are never below 2. */
  function ApplyGrid(j: Job, w: int, h: int): Job {
    ResetScan(j.(store := Rebuilt(j.store, AtLeastTwo(w), AtLeastTwo(h))))
  }

  /** The next raster cell is captured, to the centimetre. */
  function Capture(j: Job, index: nat, w: nat, v: real): Job
    requires j.store.WellSized()
  {
    var c := CoordForIndex(index, w);
    j.(store := Marked(j.store, c.x, c.y, Round2(v)), scanIndex := index + 1,
       filledCells := if j.filledCells < index + 1 then index + 1 else j.filledCells)
  }

  function CloseRow(j: Job, row: nat, w: nat): Job { j.(scanRow := row + 1, filledCells := (row + 1) * w) }

  /** A worker has written a cell: the grid moves on, and it is noted who wrote. */
  function Wrote(d: Daemon, j: Job): Daemon {
    d.(job := j.(readings := d.job.readings + [d.heard]), writes := d.writes + [d.worker],
       pausedWrites := if d.scan == Paused then d.pausedWrites + 1 else d.pausedWrites)
  }

  /** FinishScanLocked, and the worker leaves. */
  function Finish(d: Daemon): Daemon { d.(job := d.job.(completed := true), scan := Idle, pc := Gone) }

  /** On to the next cell or row, or done. */
  function Continue(d: Daemon, loop: Mode, last: bool): Daemon { if last then Finish(d) else d.(pc := Wait(loop)) }

  /** FailLocked plus TriggerFault: the worker leaves with the scan idle and a fault latched. */
  function FailScan(d: Daemon): Daemon { d.(faulted := true, scan := Idle, pc := Gone) }

  function Exit(d: Daemon): Daemon { d.(pc := Gone) }

  /** Stops the transmitter; a sweep with steps left is cut. */
  function Abort(d: Daemon): Daemon { d.(live := false, cut := d.cut || d.live) }

  /** The worker has seen the stop: it aborts the sweep itself and remembers having done so. */
  function BreakSweep(d: Daemon, row: nat, w: nat, h: nat): Daemon {
    Abort(d).(pc := SweepFinishCall(row, w, h, true))
  }

  function ClampColumn(x: int, w: nat): nat {
    var lo := if x < 0 then 0 else x;
    if lo >= w then (if w > 0 then w - 1 else 0) else lo
  }

  function PickWork(d: Daemon, loop: Mode): Daemon {
    var w, h := d.job.store.w, d.job.store.h;
    if d.scan == Stopping then Exit(d)
    else if d.scan != Scanning then d  // parked on the condition variable
    else if w == 0 || h == 0 then d.(scan := Idle, pc := Gone)
    else if loop == StepMode then
      if d.job.scanIndex >= w * h then Finish(d) else d.(pc := MoveCall(d.job.scanIndex, w, h))
    else
      if d.job.scanRow >= h then Finish(d) else d.(pc := RowMoveCall(d.job.scanRow, w, h))
  }

  /** After a blocking move: stop, fail, re-park if paused, otherwise go on to `next`. */
  function AfterMove(d: Daemon, ok: bool, loop: Mode, next: Pc): Daemon {
    if d.scan == Stopping then Exit(d)
    else if !ok then FailScan(d)
    else if d.scan == Paused then d.(pc := Wait(loop))
    else d.(pc := next)
  }

  function CaptureCell(d: Daemon, index: nat, w: nat, h: nat, got: bool, v: real): Daemon
    requires d.job.store.WellSized()
  {
    if d.scan == Stopping then Exit(d)
    else if !got then FailScan(d)
    else
      Continue(Wrote(d, Capture(d.job, index, w, v)), StepMode, index + 1 >= w * h)
  }

  function StoreSample(d: Daemon, row: nat, w: nat, h: nat, x: nat, v: real): Daemon
    requires d.job.store.WellSized()
  {
    if d.scan == Stopping then BreakSweep(d, row, w, h)
    else Wrote(d, d.job.(store := Marked(d.job.store, x, row, Round2(v)))).(pc := Polling(row, w, h))
  }

  function FinishRow(d: Daemon, row: nat, w: nat, h: nat): Daemon {
    if d.scan == Stopping then Exit(d) else Continue(d.(job := CloseRow(d.job, row, w)), SweepMode, row + 1 >= h)
  }

  /** Where the worker is after a call; a cut sweep is not busy. */
  function CallReturns(pc: Pc, cut: bool, o: Outcome): Pc
    requires pc.Call()
  {
    match pc
    case MoveCall(i, w, h) => Moved(i, w, h, o.ok)
    case Reading(i, w, h, attempt) =>
      if o.ok then Captured(i, w, h, true, o.v)
      else if attempt + 1 < LIDAR_READ_ATTEMPTS then Retry(i, w, h, attempt + 1)
      else Captured(i, w, h, false, 0.0)
    case RowMoveCall(row, w, h) => RowMoved(row, w, h, o.ok)
    case SweepStartCall(row, w, h) => if o.ok then Polling(row, w, h) else SweepRefused(row, w, h)
    case Polling(row, w, h) => if o.ok && !cut then Sampling(row, w, h) else SweepFinishCall(row, w, h, false)
    case SampleRead(row, w, h) => if o.ok then Sampled(row, w, h, ClampColumn(o.x, w), o.v) else Polling(row, w, h)
    case SweepFinishCall(row, w, h, _) => RowDone(row, w, h)
  }

  /** A sweep that starts is whole, and live if it has a step to make; one found idle is not live. */
  function CallStep(d: Daemon, o: Outcome): Daemon
    requires d.pc.Call()
  {
    var next := CallReturns(d.pc, d.cut, o);
    var starts := d.pc.SweepStartCall? && o.ok;
    d.(pc := next, live := (starts && o.moves) || (d.live && !starts && !next.SweepFinishCall?),
       cut := d.cut && !starts, heard := if o.ok then Heard(d.pc, o, d.heard) else d.heard)
  }

  /** What a call hears from the sensor: the distance at the cell the head was sent to or, in a sweep, at the column it
      has got to, which rounding may put outside the grid. */
  function Heard(pc: Pc, o: Outcome, last: CellMark): CellMark {
    match pc
    case Reading(i, w, _, _) => var c := CoordForIndex(i, w); CellMark(c.x, c.y, o.v)
    case SampleRead(row, _, _) => CellMark(o.x, row, o.v)
    case _ => last
  }

  function Decide(d: Daemon): Daemon
    requires d.pc.Decision()
  {
    match d.pc
    case Moved(i, w, h, ok) => AfterMove(d, ok, StepMode, Reading(i, w, h, 0))
    case Retry(i, w, h, attempt) => if d.scan == Stopping then Exit(d) else d.(pc := Reading(i, w, h, attempt))
    case RowMoved(row, w, h, ok) => AfterMove(d, ok, SweepMode, SweepStartCall(row, w, h))
    case SweepRefused(_, _, _) => FailScan(d)
    case Sampling(row, w, h) => if d.scan == Stopping then BreakSweep(d, row, w, h) else d.(pc := SampleRead(row, w, h))
  }

  function WorkerStep(d: Daemon, o: Outcome): (t: Daemon)
    requires d.job.store.WellSized()
    ensures t.job.store.WellSized()
  {
    var p := d.pc;
    if p.Call() then CallStep(d, o)
    else if p.Decision() then Decide(d)
    else if p.Captured? then CaptureCell(d, p.index, p.w, p.h, p.got, p.v)
    else if p.Sampled? then StoreSample(d, p.row, p.w, p.h, p.x, p.v)
    else if p.RowDone? then FinishRow(d, p.row, p.w, p.h)
    else if p.Wait? then PickWork(d, p.loop)
    else d
  }

  function Step(d: Daemon, e: Event): (t: Daemon)
    requires d.job.store.WellSized()
    ensures t.job.store.WellSized()
  {
    match e
    case EStop => d.(scan := if d.scan != Idle then Stopping else Idle)
    case ClearFault => d.(faulted := false, scan := Idle)
    case StartScan(_) =>
      if !Resets(d, e) then d
      else d.(job := ResetScan(d.job), scan := Scanning, pc := Wait(d.job.mode), worker := d.worker + 1)
    case PauseScan => if d.faulted || d.scan != Scanning then d else d.(scan := Paused, pausedWrites := 0)
    case ResumeScan => if d.faulted || d.scan != Paused then d else d.(scan := Scanning)
    case StopScan => if d.faulted || d.scan == Idle then d else d.(scan := Stopping)
    case SetResolution(w, h) => if !Resets(d, e) then d else d.(job := ApplyGrid(d.job, w, h))
    case SetMode(m, w, h) => if !Resets(d, e) then d else d.(job := ApplyGrid(d.job.(mode := m), w, h))
    case HomeOrJog(isHome, known) =>
      if d.faulted || d.scan != Idle || d.manual != NoMove || (!isHome && !known) then d else d.(manual := ManualCall)
    case ManualReturns(ok) => if d.manual == ManualCall then d.(manual := ManualReturned(ok)) else d
    case ManualFinishes => if d.manual.ManualReturned? then d.(manual := NoMove) else d
    case TriggerFault => d.(faulted := true)
    case AbortMotion => Abort(d)
    case SweepDrains => d.(live := false)
    case Worker(o) => WorkerStep(d, o)
  }

  /** The command is one that resets the grid, and its guards let it through. */
  predicate Resets(d: Daemon, e: Event) {
    match e
    case StartScan(known) => !d.faulted && d.scan == Idle && d.manual == NoMove && known
    case SetResolution(_, _) => !d.faulted && d.scan == Idle
    case SetMode(_, _, _) => !d.faulted && d.scan == Idle
    case _ => false
  }

  /** What the commands of a run are known to avoid. A fault can be cleared under a live worker, which forces
      the scan idle and so opens the guards of every other command while that worker is still in its loop.
      `ResetAfterExit`: nobody then resets the grid before it has left. `ClearAfterExit`: nobody clears before
      it has left. `NoNewScan`: no scan is started. `NoReset`: nothing resets the grid. */
  datatype Rule = ResetAfterExit | ClearAfterExit | NoNewScan | NoReset

  predicate Allowed(rule: Rule, d: Daemon, e: Event) {
    && (e.Worker? ==> e.o.v >= 0.0)
    && match rule
       case ResetAfterExit => Resets(d, e) ==> d.pc == Gone
       case ClearAfterExit => e == ClearFault ==> d.pc == Gone
       case NoNewScan => !e.StartScan?
       case NoReset => !Resets(d, e)
  }

  function After(d: Daemon, es: seq<Event>): (t: Daemon)
    requires d.job.store.WellSized()
    ensures t.job.store.WellSized()
    decreases |es|
  {
    if es == [] then d else After(Step(d, es[0]), es[1..])
  }

  predicate Runs(rule: Rule, d: Daemon, es: seq<Event>)
    requires d.job.store.WellSized()
    decreases |es|
  {
    es != [] ==> Allowed(rule, d, es[0]) && Runs(rule, Step(d, es[0]), es[1..])
  }

  function Boot(mode: Mode, w: int, h: int): (d: Daemon)
    ensures d.job.store.WellSized()
  {
    Daemon(Idle, Gone, 0, NoMove, false, false, false, ApplyGrid(Blank(mode), w, h), [], 0,
           CellMark(0, 0, 0.0))
  }

  function Blank(mode: Mode): Job { Job(mode, Store(0, 0, [], [], 0, 0), 0, 0, 0, false, []) }

  // ---------------------------------------------------------------- invariant

  /** What the worker holds across lock regions still describes the scan. */
  ghost predicate LocalsOk(pc: Pc, j: Job) {
    && (pc.StepLoop() ==> j.mode == StepMode && pc.index == j.scanIndex < j.store.w * j.store.h
                          && pc.w == j.store.w && pc.h == j.store.h)
    && (pc.SweepLoop() ==> j.mode == SweepMode && pc.row == j.scanRow < j.store.h
                           && pc.w == j.store.w && pc.h == j.store.h)
    && (pc.Wait? ==> pc.loop == j.mode && !Exhausted(j))
    && (pc.Captured? ==> pc.v >= 0.0)
    && (pc.Sampled? ==> pc.v >= 0.0 && pc.x < j.store.w)
  }

  /** What cell `i` shows when these readings have become cells, the latest at the end: the last one taken at it, to
      the centimetre; a reading beyond the edge of the grid counts for the column at the edge. */
  function Shown(readings: seq<CellMark>, w: nat, i: nat): real {
    if readings == [] then -1.0
    else
      var m := readings[|readings| - 1];
      if CellFor(m, w) == i then Round2(m.v) else Shown(readings[..|readings| - 1], w, i)
  }

  function CellFor(m: CellMark, w: nat): int { m.y * w + ClampColumn(m.x, w) }

  ghost predicate ShowsReadings(s: Store, readings: seq<CellMark>) {
    forall i :: 0 <= i < |s.cells| ==> s.cells[i] == Shown(readings, s.w, i)
  }

  /** The readings were taken along the raster. */
  ghost predicate AlongRaster(readings: seq<CellMark>, w: nat) {
    forall k :: 0 <= k < |readings| ==> Coord(readings[k].x, readings[k].y) == CoordForIndex(k, w)
  }

  /** How far the scan has got is what the grid shows. */
  ghost predicate Progress(j: Job) {
    && j.store.Good() && j.store.w >= 2 && j.store.h >= 2 && ShowsReadings(j.store, j.readings)
    && (j.mode == StepMode ==> RasterFilled(j.store, j.scanIndex) && j.filledCells == j.scanIndex
                               && |j.readings| == j.scanIndex && AlongRaster(j.readings, j.store.w))
    && (j.mode == SweepMode ==> j.filledCells == j.scanRow * j.store.w)
    && (j.completed ==> Exhausted(j))
  }

  /** No cell or row is left. */
  predicate Exhausted(j: Job) {
    match j.mode
    case StepMode => j.scanIndex >= j.store.w * j.store.h
    case SweepMode => j.scanRow >= j.store.h
  }

  /** Where the worker may be, given the state of the scan. */
  ghost predicate Control(d: Daemon) {
    && (d.scan == Scanning || d.scan == Paused ==> d.pc != Gone)
    && (d.job.mode == StepMode && d.scan == Paused ==> d.pausedWrites == 0 || (d.pausedWrites == 1 && d.pc.Wait?))
  }

  /** A worker about to store a reading holds the sensor's last answer. */
  ghost predicate HoldsAnswer(pc: Pc, heard: CellMark) {
    && (pc.Captured? && pc.got ==> pc.v == heard.v && CoordForIndex(pc.index, pc.w) == Coord(heard.x, heard.y))
    && (pc.Sampled? ==> pc.v == heard.v && pc.row == heard.y && pc.x == ClampColumn(heard.x, pc.w))
  }

  ghost predicate Inv(d: Daemon) {
    Progress(d.job) && LocalsOk(d.pc, d.job) && HoldsAnswer(d.pc, d.heard) && Control(d)
  }

  /** A worker in its loop holds the scan, and nobody else moves. */
  ghost predicate Exclusive(d: Daemon) { d.pc != Gone ==> d.scan != Idle && d.manual == NoMove }

  lemma ResetIsProgress(j: Job, w: int, h: int)
    requires j.store.WellSized()
    ensures j.store.w >= 2 && j.store.h >= 2 ==> Progress(ResetScan(j))
    ensures Progress(ApplyGrid(j, w, h))
  {
    EmptyIsRasterFilled(Cleared(j.store));
    EmptyIsRasterFilled(ApplyGrid(j, w, h).store);
  }

  // ---------------------------------------------------------------- the worker keeps the invariant

  /** What no worker step changes: the shape of the grid, who works, who moves by hand; the scan, unless it is the
      worker's last step; and nothing but a write of its own. A fault stays. */
  ghost predicate Frame(d: Daemon, t: Daemon) {
    && t.job.store.w == d.job.store.w && t.job.store.h == d.job.store.h
    && t.job.store.generation == d.job.store.generation && t.job.mode == d.job.mode
    && t.worker == d.worker && t.manual == d.manual
    && (t.scan == d.scan || (t.pc == Gone && t.scan == Idle)) && (d.faulted ==> t.faulted)
    && (t.writes == d.writes || t.writes == d.writes + [d.worker])
    && (d.scan == Stopping ==> t.writes == d.writes)
  }

  lemma CaptureFrame(d: Daemon, i: nat, w: nat, h: nat, got: bool, v: real)
    requires d.job.store.WellSized()
    ensures var t := CaptureCell(d, i, w, h, got, v);
            && Frame(d, t) && (t.pc == Wait(StepMode) || t.pc == Gone) && (d.scan == Stopping ==> t.pc == Gone)
            && t.writes == if d.scan == Stopping || !got then d.writes else d.writes + [d.worker]
  {
    hide Marked, CoordForIndex;
  }

  lemma SampleFrame(d: Daemon, row: nat, w: nat, h: nat, x: nat, v: real)
    requires d.job.store.WellSized()
    ensures Frame(d, StoreSample(d, row, w, h, x, v))
  {
    hide Marked;
  }

  lemma DecisionFrame(d: Daemon)
    requires d.pc.Decision()
    ensures Frame(d, Decide(d)) && Decide(d).job == d.job && Decide(d).writes == d.writes
  {
  }

  lemma RowFrame(d: Daemon, row: nat, w: nat, h: nat)
    ensures Frame(d, FinishRow(d, row, w, h)) && FinishRow(d, row, w, h).job.store == d.job.store
  {
  }

  lemma PickFrame(d: Daemon, loop: Mode)
    ensures Frame(d, PickWork(d, loop)) && PickWork(d, loop).job.store == d.job.store
  {
  }

  lemma WorkerFrame(d: Daemon, o: Outcome)
    requires d.job.store.WellSized()
    ensures Frame(d, WorkerStep(d, o)) && (d.pc == Gone ==> WorkerStep(d, o) == d)
  {
    hide CaptureCell, StoreSample, Decide, FinishRow, PickWork, Store.WellSized;
    var p := d.pc;
    if p.Captured? {
      CaptureFrame(d, p.index, p.w, p.h, p.got, p.v);
    } else if p.Sampled? {
      SampleFrame(d, p.row, p.w, p.h, p.x, p.v);
    } else if p.Decision() {
      DecisionFrame(d);
    } else if p.RowDone? {
      RowFrame(d, p.row, p.w, p.h);
    } else if p.Wait? {
      PickFrame(d, p.loop);
    }
  }

  function Note(j: Job, m: CellMark): Job { j.(readings := j.readings + [m]) }

  lemma CaptureKeepsProgress(j: Job, m: CellMark)
    requires Progress(j) && j.mode == StepMode && j.scanIndex < j.store.w * j.store.h && m.v >= 0.0
    requires CoordForIndex(j.scanIndex, j.store.w) == Coord(m.x, m.y)
    ensures var t := Note(Capture(j, j.scanIndex, j.store.w, m.v), m);
            Progress(t) && t.mode == j.mode && (Exhausted(t) <==> j.scanIndex + 1 >= j.store.w * j.store.h)
  {
    IndexRoundTrip(j.scanIndex, j.store.w, j.store.h);
    MarkExtendsRaster(j.store, j.scanIndex, Round2(m.v));
    MutationsAreLater(j.store, m.x, m.y, Round2(m.v), 0, 0);
    MarkShowsReading(j.store, j.readings, m);
  }

  lemma SampleKeepsProgress(j: Job, m: CellMark)
    requires Progress(j) && j.mode == SweepMode && m.v >= 0.0 && m.y == j.scanRow < j.store.h
    ensures Progress(Note(j.(store := Marked(j.store, ClampColumn(m.x, j.store.w), m.y, Round2(m.v))), m))
  {
    MutationsAreLater(j.store, ClampColumn(m.x, j.store.w), m.y, Round2(m.v), 0, 0);
    MarkShowsReading(j.store, j.readings, m);
  }

  lemma MarkShowsReading(s: Store, readings: seq<CellMark>, m: CellMark)
    requires s.WellSized() && s.w > 0 && 0 <= m.y < s.h && ShowsReadings(s, readings)
    ensures ShowsReadings(Marked(s, ClampColumn(m.x, s.w), m.y, Round2(m.v)), readings + [m])
  {
    IndexInRange(ClampColumn(m.x, s.w), m.y, s.w, s.h);
    assert (readings + [m])[..|readings|] == readings;
  }

  lemma CompletionIsProgress(j: Job)
    requires Progress(j) && Exhausted(j)
    ensures Progress(j.(completed := true))
  {
  }

  /** After a cell or a row is done the worker goes back to wait, or leaves with the scan complete. */
  lemma ContinueKeepsInv(d: Daemon, j: Job, writes: seq<nat>, pausedWrites: nat)
    requires Progress(j) && d.pc != Gone
    requires j.mode == StepMode && d.scan == Paused ==> pausedWrites <= 1
    ensures Inv(Continue(d.(job := j, writes := writes, pausedWrites := pausedWrites), j.mode, Exhausted(j)))
  {
    hide Progress, Exhausted;
    if Exhausted(j) {
      CompletionIsProgress(j);
    }
  }

  lemma CaptureKeepsInv(d: Daemon, o: Outcome)
    requires Inv(d) && d.pc.Captured?
    ensures Inv(WorkerStep(d, o))
  {
    hide CaptureCell;
    CaptureCellKeepsInv(d);
  }

  lemma CaptureCellKeepsInv(d: Daemon)
    requires Inv(d) && d.pc.Captured?
    ensures d.job.store.WellSized() && Inv(CaptureCell(d, d.pc.index, d.pc.w, d.pc.h, d.pc.got, d.pc.v))
  {
    assert d.job.store.WellSized();
    hide Progress, Exhausted, Store.WellSized;
    if d.pc.got {
      CaptureKeepsProgress(d.job, d.heard);
      var j := Note(Capture(d.job, d.job.scanIndex, d.job.store.w, d.heard.v), d.heard);
      var e := Wrote(d, Capture(d.job, d.job.scanIndex, d.job.store.w, d.heard.v));
      assert e.job == j;
      hide Capture;
      ContinueKeepsInv(d, j, e.writes, e.pausedWrites);
    }
  }

  lemma SampleKeepsInv(d: Daemon, o: Outcome)
    requires Inv(d) && d.pc.Sampled?
    ensures Inv(WorkerStep(d, o))
  {
    SampleKeepsProgress(d.job, d.heard);
  }

  lemma PickKeepsInv(d: Daemon)
    requires Inv(d) && d.pc.Wait?
    ensures Inv(PickWork(d, d.pc.loop))
  {
    hide Progress;
    if Exhausted(d.job) {
      CompletionIsProgress(d.job);
    }
  }

  lemma ClosingIsProgress(j: Job)
    requires Progress(j) && j.mode == SweepMode
    ensures var t := CloseRow(j, j.scanRow, j.store.w);
            Progress(t) && t.mode == j.mode && t.store == j.store && (Exhausted(t) <==> j.scanRow + 1 >= j.store.h)
  {
  }

  lemma RowKeepsInv(d: Daemon, o: Outcome)
    requires Inv(d) && d.pc.RowDone?
    ensures Inv(WorkerStep(d, o))
  {
    hide FinishRow;
    FinishRowKeepsInv(d);
  }

  lemma FinishRowKeepsInv(d: Daemon)
    requires Inv(d) && d.pc.RowDone?
    ensures Inv(FinishRow(d, d.pc.row, d.pc.w, d.pc.h))
  {
    ClosingIsProgress(d.job);
    hide Progress, CloseRow, Exhausted, Store.WellSized;
    ContinueKeepsInv(d, CloseRow(d.job, d.job.scanRow, d.job.store.w), d.writes, d.pausedWrites);
  }

  lemma CallKeepsInv(d: Daemon, o: Outcome)
    requires Inv(d) && o.v >= 0.0 && d.pc.Call()
    ensures Inv(CallStep(d, o))
  {
  }

  lemma DecisionKeepsInv(d: Daemon)
    requires Inv(d) && d.pc.Decision()
    ensures Inv(Decide(d))
  {
    hide Progress;
    DecisionFrame(d);
  }

  lemma WorkerKeepsInv(d: Daemon, o: Outcome)
    requires Inv(d) && o.v >= 0.0
    ensures Inv(WorkerStep(d, o))
  {
    var p := d.pc;
    if p.Call() {
      CallKeepsInv(d, o);
    } else if p.Decision() {
      DecisionKeepsInv(d);
    } else if p.Captured? {
      CaptureKeepsInv(d, o);
    } else if p.Sampled? {
      SampleKeepsInv(d, o);
    } else if p.RowDone? {
      RowKeepsInv(d, o);
    } else if p.Wait? {
      PickKeepsInv(d);
    }
  }

  /** A reset with no worker in its loop starts afresh. */
  lemma ResetKeepsInv(d: Daemon, e: Event)
    requires Inv(d) && Resets(d, e) && d.pc == Gone
    ensures Inv(Step(d, e))
  {
    match e
    case StartScan(_) => StartKeepsInv(d, e);
    case SetResolution(w, h) => FreshGridKeepsInv(d, d.job, w, h);
    case SetMode(m, w, h) => FreshGridKeepsInv(d, d.job.(mode := m), w, h);
  }

  lemma StartKeepsInv(d: Daemon, e: Event)
    requires Inv(d) && Resets(d, e) && e.StartScan?
    ensures Inv(Step(d, e))
  {
    assert d.job.store.WellSized();
    ResetIsProgress(d.job, 0, 0);
    hide Progress, ResetScan, Store.WellSized;
  }

  lemma FreshGridKeepsInv(d: Daemon, j: Job, w: int, h: int)
    requires Inv(d) && d.pc == Gone && j.store.WellSized() && d.scan == Idle
    ensures Inv(d.(job := ApplyGrid(j, w, h)))
  {
    ResetIsProgress(j, w, h);
    hide Progress, ApplyGrid;
  }

  /** Every other command leaves the grid, the cursors and the worker where they are. */
  lemma CommandKeepsInv(d: Daemon, e: Event)
    requires Inv(d) && !Resets(d, e) && !e.Worker?
    ensures Inv(Step(d, e))
  {
    assert d.job.store.WellSized();
    hide Progress, LocalsOk, ApplyGrid, ResetScan, WorkerStep;
  }

  lemma StepKeepsInv(rule: Rule, d: Daemon, e: Event)
    requires Inv(d) && Allowed(rule, d, e)
    requires Resets(d, e) ==> d.pc == Gone
    ensures Inv(Step(d, e))
  {
    if e.Worker? {
      WorkerKeepsInv(d, e.o);
    } else if Resets(d, e) {
      ResetKeepsInv(d, e);
    } else {
      CommandKeepsInv(d, e);
    }
  }

  lemma StepKeepsExclusive(d: Daemon, e: Event)
    requires d.job.store.WellSized() && Exclusive(d) && Allowed(ClearAfterExit, d, e)
    ensures Exclusive(Step(d, e))
  {
    hide WorkerStep;
    if e.Worker? {
      WorkerFrame(d, e.o);
    }
  }

  lemma {:induction false} InvOverRuns(d: Daemon, es: seq<Event>)
    requires Inv(d) && Runs(ResetAfterExit, d, es)
    ensures Inv(After(d, es))
    decreases |es|
  {
    if es != [] {
      StepKeepsInv(ResetAfterExit, d, es[0]);
      InvOverRuns(Step(d, es[0]), es[1..]);
    }
  }

  lemma {:induction false} ExclusiveOverRuns(d: Daemon, es: seq<Event>)
    requires Inv(d) && Exclusive(d) && Runs(ClearAfterExit, d, es)
    ensures Inv(After(d, es)) && Exclusive(After(d, es))
    ensures Runs(ResetAfterExit, d, es)
    decreases |es|
  {
    if es != [] {
      StepKeepsInv(ClearAfterExit, d, es[0]);
      StepKeepsExclusive(d, es[0]);
      ExclusiveOverRuns(Step(d, es[0]), es[1..]);
    }
  }

  lemma BootIsGood(mode: Mode, w: int, h: int)
    ensures Inv(Boot(mode, w, h)) && Exclusive(Boot(mode, w, h))
  {
    ResetIsProgress(Blank(mode), w, h);
  }

  // ---------------------------------------------------------------- the raster

  /** Taken along the raster, each reading is still there: no other went to its cell. */
  lemma {:induction false} ShownOnce(readings: seq<CellMark>, w: nat, h: nat, k: nat)
    requires AlongRaster(readings, w) && k < |readings| <= w * h
    ensures Shown(readings, w, CellOf(k, w)) == Round2(readings[k].v)
  {
    var n := |readings| - 1;
    IndexRoundTrip(n, w, h);
    assert CellFor(readings[n], w) == CellOf(n, w);
    if k < n {
      if CellOf(k, w) == CellOf(n, w) {
        CellOfInjective(k, n, w, h);
      }
      ShownOnce(readings[..n], w, h, k);
    }
  }

  /** Step-mode raster: under every interleaving, the non-empty cells are exactly the raster prefix
      0 .. scanIndex - 1, each captured once and in order, and each holds the reading taken there, to the centimetre;
      a pause lets at most one more capture through;
      and "Scan complete" is on record only when every cell is filled. Faults may be cleared at any time. */
  lemma StepModeRaster(mode: Mode, w: int, h: int, es: seq<Event>)
    requires Runs(ResetAfterExit, Boot(mode, w, h), es) && After(Boot(mode, w, h), es).job.mode == StepMode
    ensures var d := After(Boot(mode, w, h), es);
            && d.job.store.Good() && d.job.store.version == d.job.scanIndex <= d.job.store.w * d.job.store.h
            && (forall cell: nat :: cell < |d.job.store.cells| ==>
                  (d.job.store.cells[cell] >= 0.0 <==>
                    exists k :: 0 <= k < d.job.scanIndex && CellOf(k, d.job.store.w) == cell))
            && (forall k :: 0 <= k < d.job.scanIndex ==>
                  0 <= CellOf(k, d.job.store.w) < |d.job.store.cells|
                  && d.job.store.cellVersion[CellOf(k, d.job.store.w)] == k + 1)
            && |d.job.readings| == d.job.scanIndex
            && (forall k :: 0 <= k < d.job.scanIndex ==>
                  d.job.store.cells[CellOf(k, d.job.store.w)] == Round2(d.job.readings[k].v))
            && (d.scan == Paused ==> d.pausedWrites <= 1)
            && (d.job.completed ==> forall cell: nat :: cell < |d.job.store.cells| ==> d.job.store.cells[cell] >= 0.0)
  {
    BootIsGood(mode, w, h);
    InvOverRuns(Boot(mode, w, h), es);
    var d := After(Boot(mode, w, h), es);
    forall cell: nat | cell < |d.job.store.cells|
      ensures d.job.store.cells[cell] >= 0.0
              <==> exists k :: 0 <= k < d.job.scanIndex && CellOf(k, d.job.store.w) == cell
      ensures d.job.completed ==> d.job.store.cells[cell] >= 0.0
    {
      FilledCellsAreThePrefix(d.job.store, d.job.scanIndex, cell);
    }
    forall k | 0 <= k < d.job.scanIndex
      ensures d.job.store.cells[CellOf(k, d.job.store.w)] == Round2(d.job.readings[k].v)
    {
      CellOfInRange(k, d.job.store.w, d.job.store.h);
      ShownOnce(d.job.readings, d.job.store.w, d.job.store.h, k);
    }
  }

  /** A worker in its loop finds the grid as it left it, size and generation, unless a command resets the grid;
      and while the scan is under way none can. */
  lemma GridFixedDuringScan(d: Daemon, e: Event)
    requires d.job.store.WellSized()
    ensures var t := Step(d, e).job.store;
            (t.w == d.job.store.w && t.h == d.job.store.h && t.generation == d.job.store.generation) <==> !Resets(d, e)
    ensures !Resets(d, e) ==> Step(d, e).job.mode == d.job.mode
    ensures d.scan != Idle ==> !Resets(d, e)
    ensures Exclusive(d) && d.pc != Gone ==> !Resets(d, e)
  {
    hide WorkerStep;
    if e.Worker? {
      WorkerFrame(d, e.o);
    }
  }

  // ---------------------------------------------------------------- exclusion

  /** A worker step that goes well. */
  const Go := Worker(Outcome(true, 0.0, 0, true))

  const HomeNow := HomeOrJog(true, true)

  ghost predicate BothInMotion(d: Daemon) { d.pc.InMotion() && d.manual == ManualCall }

  /** Exclusion: with faults cleared only after the worker has left, in no reachable state are the scan worker and
      a manual-move worker both inside a motion call, and a new scan worker never starts while the previous one
      is still in its loop. */
  lemma OneMotionUser(mode: Mode, w: int, h: int, es: seq<Event>, e: Event)
    requires Runs(ClearAfterExit, Boot(mode, w, h), es)
    ensures var d := After(Boot(mode, w, h), es);
            && !BothInMotion(d)
            && (Step(d, e).worker != d.worker ==> d.pc == Gone)
  {
    BootIsGood(mode, w, h);
    ExclusiveOverRuns(Boot(mode, w, h), es);
    NewWorkerNeedsOldGone(After(Boot(mode, w, h), es), e);
  }

  lemma NewWorkerNeedsOldGone(d: Daemon, e: Event)
    requires d.job.store.WellSized()
    ensures Step(d, e).worker == if e.StartScan? && Resets(d, e) then d.worker + 1 else d.worker
    ensures d.pc == Gone ==> Step(d, e).worker > d.worker || Step(d, e).pc == Gone
  {
    hide WorkerStep;
    if e.Worker? {
      WorkerFrame(d, e.o);
    }
  }

  lemma AfterOne(d: Daemon, e: Event)
    requires d.job.store.WellSized()
    ensures After(d, [e]) == Step(d, e)
    ensures !e.StartScan? && (e.Worker? ==> e.o.v >= 0.0) ==> Runs(NoNewScan, d, [e])
  {
    assert [e][1..] == [];
    assert After(Step(d, e), []) == Step(d, e);
  }

  // ---------------------------------------------------------------- stopping

  function WritesBy(writes: seq<nat>, worker: nat): nat {
    if writes == [] then 0
    else WritesBy(writes[..|writes| - 1], worker) + if writes[|writes| - 1] == worker then 1 else 0
  }

  /** Worker `n` has made `c` writes and will make no more. */
  ghost predicate Silenced(d: Daemon, n: nat, c: nat) {
    && WritesBy(d.writes, n) == c
    && (d.worker > n || (d.worker == n && (d.pc == Gone || d.scan == Stopping)))
  }

  lemma SilencedStaysSilenced(d: Daemon, e: Event, n: nat, c: nat)
    requires d.job.store.WellSized() && Allowed(ClearAfterExit, d, e) && Silenced(d, n, c)
    ensures Silenced(Step(d, e), n, c)
  {
    hide WorkerStep;
    if e.Worker? {
      WorkerFrame(d, e.o);
      var t := WorkerStep(d, e.o);
      assert t.writes != d.writes ==> t.writes[..|t.writes| - 1] == d.writes;
    }
  }

  /** Once a stop has set `Stopping`, the worker then in its loop writes no further cell, in either mode,
      whatever happens afterwards, as long as no fault is cleared before it has left. */
  lemma StoppedWorkerWritesNoMore(d: Daemon, es: seq<Event>)
    requires d.job.store.WellSized() && d.scan == Stopping && Runs(ClearAfterExit, d, es)
    ensures WritesBy(After(d, es).writes, d.worker) == WritesBy(d.writes, d.worker)
  {
    SilencedOverRuns(d, es, d.worker, WritesBy(d.writes, d.worker));
  }

  lemma {:induction false} SilencedOverRuns(d: Daemon, es: seq<Event>, n: nat, c: nat)
    requires d.job.store.WellSized() && Silenced(d, n, c) && Runs(ClearAfterExit, d, es)
    ensures Silenced(After(d, es), n, c)
    decreases |es|
  {
    if es != [] {
      SilencedStaysSilenced(d, es[0], n, c);
      SilencedOverRuns(Step(d, es[0]), es[1..], n, c);
    }
  }

  /** How many of its own steps a stopped worker can still take. */
  function StepsLeft(pc: Pc): (n: nat)
    ensures n <= 5
  {
    match pc
    case Gone => 0
    case Wait(_) => 1
    case Moved(_, _, _, _) => 1
    case Retry(_, _, _, _) => 1
    case Captured(_, _, _, _, _) => 1
    case RowMoved(_, _, _, _) => 1
    case SweepRefused(_, _, _) => 1
    case RowDone(_, _, _) => 1
    case MoveCall(_, _, _) => 2
    case Reading(_, _, _, _) => 2
    case RowMoveCall(_, _, _) => 2
    case SweepFinishCall(_, _, _, _) => 2
    case Sampling(_, _, _) => 3
    case Sampled(_, _, _, _, _) => 3
    case Polling(_, _, _) => 4
    case SweepStartCall(_, _, _) => 5
    case SampleRead(_, _, _) => 5
  }

  function WorkerSteps(es: seq<Event>): nat {
    if es == [] then 0 else (if es[0].Worker? then 1 else 0) + WorkerSteps(es[1..])
  }

  /** Stopping is prompt, so the join after a stop returns: whatever the motors and the sensor answer and
      whatever commands arrive, the stopped worker has left its loop after at most five of its own steps. */
  lemma {:induction false} StopIsPrompt(d: Daemon, es: seq<Event>)
    requires d.job.store.WellSized() && d.scan == Stopping && Runs(ClearAfterExit, d, es)
    requires WorkerSteps(es) >= StepsLeft(d.pc)
    ensures After(d, es).worker > d.worker || After(d, es).pc == Gone
    decreases |es|
  {
    if d.pc == Gone {
      GoneStaysGone(d, es, d.worker);
    } else if es != [] {
      StoppingStep(d, es[0]);
      var t := Step(d, es[0]);
      if t.pc == Gone {
        GoneStaysGone(t, es[1..], d.worker);
      } else {
        StopIsPrompt(t, es[1..]);
      }
    }
  }

  lemma StoppingStep(d: Daemon, e: Event)
    requires d.job.store.WellSized() && d.scan == Stopping && d.pc != Gone && Allowed(ClearAfterExit, d, e)
    ensures var t := Step(d, e);
            && t.worker == d.worker
            && (t.pc == Gone || (t.scan == Stopping && StepsLeft(t.pc) <= StepsLeft(d.pc) - if e.Worker? then 1 else 0))
  {
    hide CaptureCell, ApplyGrid, ResetScan, Marked, Store.WellSized;
    if e.Worker? && d.pc.Captured? {
      CaptureFrame(d, d.pc.index, d.pc.w, d.pc.h, d.pc.got, d.pc.v);
    }
  }

  lemma {:induction false} GoneStaysGone(d: Daemon, es: seq<Event>, n: nat)
    requires d.job.store.WellSized() && d.worker >= n && (d.worker > n || d.pc == Gone)
    ensures After(d, es).worker > n || After(d, es).pc == Gone
    decreases |es|
  {
    if es != [] {
      NewWorkerNeedsOldGone(d, es[0]);
      GoneStaysGone(Step(d, es[0]), es[1..], n);
    }
  }

  // ---------------------------------------------------------------- what the worker says of a sweep

  /** `es` takes the worker through its sampling loop, up to the call that reports the sweep. */
  predicate SweepRun(d: Daemon, es: seq<Event>)
    requires d.job.store.WellSized()
    decreases |es|
  {
    if es == [] then d.pc.SweepFinishCall? else d.pc.SweepUnderWay() && SweepRun(Step(d, es[0]), es[1..])
  }

  /** Somebody stops the transmitter while the sweep has steps left. */
  predicate CutDuring(d: Daemon, es: seq<Event>)
    requires d.job.store.WellSized()
    decreases |es|
  {
    es != [] && ((es[0] == AbortMotion && d.live) || CutDuring(Step(d, es[0]), es[1..]))
  }

  /** At one of its two looks at the scan state the worker sees a stop. */
  predicate SawStop(d: Daemon, es: seq<Event>)
    requires d.job.store.WellSized()
    decreases |es|
  {
    && es != []
    && ((es[0].Worker? && d.scan == Stopping && (d.pc.Sampling? || d.pc.Sampled?)) || SawStop(Step(d, es[0]), es[1..]))
  }

  /** Does the report about to be made, `reached` unless the worker aborted, agree with what was sent? */
  predicate ReportIsTruthful(d: Daemon)
    requires d.pc.SweepFinishCall?
  {
    !d.pc.aborted ==> !d.cut
  }

  lemma SweepStep(d: Daemon, e: Event)
    requires d.job.store.WellSized() && d.pc.SweepUnderWay()
    ensures var t := Step(d, e); var saw := e.Worker? && d.scan == Stopping && (d.pc.Sampling? || d.pc.Sampled?);
            && (t.pc.SweepFinishCall? && !saw ==> !t.pc.aborted)
            && (saw ==> t.pc.SweepFinishCall? && t.pc.aborted)
            && (t.pc.SweepUnderWay() || t.pc.SweepFinishCall? ==> !saw ==>
                t.cut == (d.cut || (e == AbortMotion && d.live)))
  {
  }

  lemma {:induction false} SweepOutcome(d: Daemon, es: seq<Event>)
    requires d.job.store.WellSized() && d.pc.SweepUnderWay() && SweepRun(d, es)
    ensures var t := After(d, es);
            && t.pc.SweepFinishCall? && (t.pc.aborted <==> SawStop(d, es))
            && (!SawStop(d, es) ==> (t.cut <==> d.cut || CutDuring(d, es)))
    decreases |es|
  {
    var t, rest := Step(d, es[0]), es[1..];
    SweepStep(d, es[0]);
    if rest == [] {
      assert !SawStop(t, rest) && !CutDuring(t, rest);
    } else {
      SweepOutcome(t, rest);
    }
  }

  /** The worker's report of a sweep is truthful exactly when the sweep was not cut without the worker seeing a
      stop: `FinishYawSweep(true)` commits a sweep that a fault, an e-stop or even an ordinary stop has cut short,
      whenever the worker learns of it from the motor going idle rather than from the scan state. */
  lemma ReportTruthfulIff(d: Daemon, es: seq<Event>)
    requires d.job.store.WellSized() && d.pc.SweepUnderWay() && !d.cut && SweepRun(d, es)
    ensures After(d, es).pc.SweepFinishCall?
    ensures ReportIsTruthful(After(d, es)) <==> !(CutDuring(d, es) && !SawStop(d, es))
  {
    SweepOutcome(d, es);
  }

  /** In particular an abort that lands while the worker is about to poll is always misreported, a stop or not. */
  lemma AbortAtPollIsMisreported(d: Daemon, es: seq<Event>)
    requires d.job.store.WellSized() && d.pc.Polling? && d.live && SweepRun(Step(d, AbortMotion), es)
    ensures After(Step(d, AbortMotion), es).pc.SweepFinishCall? && !ReportIsTruthful(After(Step(d, AbortMotion), es))
  {
    var c := Step(d, AbortMotion);
    SweepOutcome(c, es);
    CutPollSeesNothing(c, es);
  }

  lemma {:induction false} CutPollSeesNothing(d: Daemon, es: seq<Event>)
    requires d.job.store.WellSized() && d.pc.Polling? && d.cut && SweepRun(d, es)
    ensures !SawStop(d, es)
    decreases |es|
  {
    if es != [] {
      var t := Step(d, es[0]);
      SweepStep(d, es[0]);
      if t.pc.Polling? {
        CutPollSeesNothing(t, es[1..]);
      }
    }
  }

  /** A sweep scan starts, its row move and its sweep start succeed, and its waveform is under way. */
  const SweepOpening := [StartScan(true), Go, Go, Go, Go]

  lemma SweepOpens()
    ensures var b := Boot(SweepMode, 2, 2); var d := After(b, SweepOpening);
            Runs(ClearAfterExit, b, SweepOpening) && d.pc.Polling? && d.scan == Scanning
            && d.live && !d.cut && !d.faulted
  {
    hide CaptureCell, StoreSample;
    var b := Boot(SweepMode, 2, 2);
    var d1 := Step(b, StartScan(true));
    var d2 := Step(d1, Go);
    assert d2 == d1.(pc := RowMoveCall(0, 2, 2));
    var d3 := Step(d2, Go);
    var d4 := Step(d3, Go);
    var d5 := Step(d4, Go);
    assert d5 == d1.(pc := Polling(0, 2, 2), live := true, cut := false);
    RunOne(ClearAfterExit, d4, Go, []);
    RunOne(ClearAfterExit, d3, Go, [Go]);
    RunOne(ClearAfterExit, d2, Go, [Go, Go]);
    RunOne(ClearAfterExit, d1, Go, [Go, Go, Go]);
    RunOne(ClearAfterExit, b, StartScan(true), [Go, Go, Go, Go]);
  }

  lemma RunOne(rule: Rule, d: Daemon, e: Event, rest: seq<Event>)
    requires d.job.store.WellSized()
    ensures After(d, [e] + rest) == After(Step(d, e), rest)
    ensures Runs(rule, d, [e] + rest) <==> Allowed(rule, d, e) && Runs(rule, Step(d, e), rest)
  {
    assert ([e] + rest)[1..] == rest;
  }

  lemma {:induction false} RunBoth(rule: Rule, d: Daemon, es: seq<Event>, rest: seq<Event>)
    requires d.job.store.WellSized()
    ensures After(d, es + rest) == After(After(d, es), rest)
    ensures Runs(rule, d, es + rest) <==> Runs(rule, d, es) && Runs(rule, After(d, es), rest)
    decreases |es|
  {
    if es == [] {
      assert es + rest == rest;
    } else {
      assert es + rest == [es[0]] + (es[1..] + rest);
      RunOne(ClearAfterExit, d, es[0], es[1..] + rest);
      RunBoth(rule, Step(d, es[0]), es[1..], rest);
    }
  }

  /** A concrete run: with the first sweep under way, a stop or a fault aborts the motion; the worker polls, finds
      the motors idle, and is about to report that the target was reached. */
  lemma MisreportedSweep(stop: bool)
    ensures var b := Boot(SweepMode, 2, 2);
            var es := SweepOpening + [if stop then StopScan else TriggerFault, AbortMotion, Go];
            Runs(ClearAfterExit, b, es) && After(b, es).pc.SweepFinishCall? && !ReportIsTruthful(After(b, es))
  {
    var b := Boot(SweepMode, 2, 2);
    var first := if stop then StopScan else TriggerFault;
    SweepOpens();
    RunBoth(ClearAfterExit, b, SweepOpening, [first, AbortMotion, Go]);
    LastThree(After(b, SweepOpening), first);
  }

  lemma LastThree(d: Daemon, first: Event)
    requires d.job.store.WellSized() && d.pc.Polling? && d.scan == Scanning && d.live && !d.cut && !d.faulted
    requires first == StopScan || first == TriggerFault
    ensures var es := [first, AbortMotion, Go];
            Runs(ClearAfterExit, d, es) && After(d, es).pc.SweepFinishCall? && !ReportIsTruthful(After(d, es))
  {
    FirstLeavesPoll(d, first);
    hide Step, WorkerStep, Store.WellSized;
    var s := Step(d, first);
    var a := Step(s, AbortMotion);
    CutPollFinishes(s);
    assert [first, AbortMotion, Go] == [first] + [AbortMotion, Go] && [AbortMotion, Go] == [AbortMotion] + [Go];
    RunOne(ClearAfterExit, a, Go, []);
    RunOne(ClearAfterExit, s, AbortMotion, [Go]);
    RunOne(ClearAfterExit, d, first, [AbortMotion, Go]);
  }

  lemma FirstLeavesPoll(d: Daemon, first: Event)
    requires d.job.store.WellSized() && (first == StopScan || first == TriggerFault)
    ensures var s := Step(d, first); s.pc == d.pc && s.live == d.live && s.cut == d.cut
  {
  }

  lemma CutPollFinishes(d: Daemon)
    requires d.job.store.WellSized() && d.pc.Polling? && d.live
    ensures var t := Step(Step(d, AbortMotion), Go); t.pc.SweepFinishCall? && !ReportIsTruthful(t)
  {
    hide CaptureCell, StoreSample, Decide, FinishRow, PickWork;
  }

  // ---------------------------------------------------------------- completion

  function WorkerRun(d: Daemon, os: seq<Outcome>): (t: Daemon)
    requires d.job.store.WellSized()
    ensures t.job.store.WellSized()
    decreases |os|
  {
    if os == [] then d else WorkerRun(WorkerStep(d, os[0]), os[1..])
  }

  /** Every call succeeds; the readings are any distances. */
  predicate AllSucceed(os: seq<Outcome>) { forall k :: 0 <= k < |os| ==> os[k].ok && os[k].v >= 0.0 }

  predicate ReadyForCell(d: Daemon) { d.job.mode == StepMode && d.scan == Scanning && d.pc == Wait(StepMode) }

  /** One undisturbed cell: pick, move, check, read, capture. */
  lemma CellTakesFiveSteps(d: Daemon, os: seq<Outcome>)
    requires Inv(d) && ReadyForCell(d) && d.job.scanIndex < d.job.store.w * d.job.store.h && |os| == 5 && AllSucceed(os)
    ensures Inv(WorkerRun(d, os)) && OneCellOn(d.job, WorkerRun(d, os))
  {
    PickKeepsInv(d);
    FourSteps(WorkerStep(d, os[0]), os[1..]);
  }

  /** `t` is ready for the cell after the next one of `j`, or done with the last. */
  predicate OneCellOn(j: Job, t: Daemon) {
    && t.job.scanIndex == j.scanIndex + 1 && t.job.store.w == j.store.w && t.job.store.h == j.store.h
    && if t.job.scanIndex < j.store.w * j.store.h then ReadyForCell(t)
       else t.job.completed && t.scan == Idle && t.pc == Gone
  }

  lemma FourSteps(d: Daemon, os: seq<Outcome>)
    requires Inv(d) && d.scan == Scanning && d.pc.MoveCall? && |os| == 4 && AllSucceed(os)
    ensures Inv(WorkerRun(d, os)) && OneCellOn(d.job, WorkerRun(d, os))
  {
    assert d.job.store.WellSized();
    hide CaptureCell, Progress, CoordForIndex, PickWork, StoreSample, FinishRow, Store.WellSized;
    var n, w, h := d.job.scanIndex, d.job.store.w, d.job.store.h;
    var d2 := WorkerStep(d, os[0]);
    assert d2 == d.(pc := Moved(n, w, h, true));
    var d3 := WorkerStep(d2, os[1]);
    assert d3 == d.(pc := Reading(n, w, h, 0));
    var d4 := WorkerStep(d3, os[2]);
    assert d4 == d.(pc := Captured(n, w, h, true, os[2].v), heard := Heard(d3.pc, os[2], d.heard));
    LastStepOfCell(d4, os[3]);
    RunFour(d, os);
  }

  lemma FirstOutcome(d: Daemon, os: seq<Outcome>)
    requires d.job.store.WellSized()
    ensures WorkerRun(d, os) == if os == [] then d else WorkerRun(WorkerStep(d, os[0]), os[1..])
  {
  }

  lemma RunFour(d: Daemon, os: seq<Outcome>)
    requires d.job.store.WellSized() && |os| == 4
    ensures WorkerRun(d, os) == WorkerStep(WorkerStep(WorkerStep(WorkerStep(d, os[0]), os[1]), os[2]), os[3])
  {
    hide WorkerStep, WorkerRun, Store.WellSized;
    assert os[1..][1..] == os[2..] && os[2..][1..] == os[3..] && os[3..][1..] == [];
    var d1 := WorkerStep(d, os[0]);
    var d2 := WorkerStep(d1, os[1]);
    var d3 := WorkerStep(d2, os[2]);
    FirstOutcome(d, os);
    FirstOutcome(d1, os[1..]);
    FirstOutcome(d2, os[2..]);
    FirstOutcome(d3, os[3..]);
    FirstOutcome(WorkerStep(d3, os[3]), []);
  }

  lemma LastStepOfCell(d: Daemon, o: Outcome)
    requires Inv(d) && d.scan == Scanning && d.pc.Captured? && d.pc.got
    ensures Inv(WorkerStep(d, o)) && OneCellOn(d.job, WorkerStep(d, o))
  {
    CaptureKeepsInv(d, o);
  }

  lemma {:induction false} RunSplits(d: Daemon, os: seq<Outcome>, k: nat)
    requires d.job.store.WellSized() && k <= |os|
    ensures WorkerRun(d, os) == WorkerRun(WorkerRun(d, os[..k]), os[k..])
    decreases k
  {
    if k == 0 {
      assert os[..0] == [] && os[0..] == os;
    } else {
      assert os[..k][0] == os[0] && os[..k][1..] == os[1..][..k - 1] && os[k..] == os[1..][k - 1..];
      RunSplits(WorkerStep(d, os[0]), os[1..], k - 1);
    }
  }

  /** An undisturbed step-mode scan completes: from any point at which the worker is ready for its next cell,
      whatever distances are read, five steps per remaining cell later the scan is reported complete, the worker
      has left, and the raster is exhausted. */
  lemma {:induction false} UndisturbedScanCompletes(d: Daemon, os: seq<Outcome>)
    requires Inv(d) && ReadyForCell(d) && d.job.scanIndex < d.job.store.w * d.job.store.h
    requires |os| == 5 * (d.job.store.w * d.job.store.h - d.job.scanIndex) && AllSucceed(os)
    ensures var t := WorkerRun(d, os);
            t.job.completed && t.scan == Idle && t.pc == Gone && t.job.scanIndex == d.job.store.w * d.job.store.h
    decreases |os|
  {
    CellTakesFiveSteps(d, os[..5]);
    RunSplits(d, os, 5);
    if |os| > 5 {
      UndisturbedScanCompletes(WorkerRun(d, os[..5]), os[5..]);
    } else {
      assert os[5..] == [];
    }
  }
}
