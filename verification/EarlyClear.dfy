/** What clearing a fault under a live scan worker undoes. The clear forces the scan idle without joining the worker,
    which opens the guards of every other command. For each law of ScanMachine that then fails there is a run from
    start-up that shows it, and the exact set of worker positions from which it can fail. */
module EarlyClear {
  import opened ScanGrid
  import opened Raster
  import opened ScanMachine

  // ---------------------------------------------------------------- exclusion

  /** A run from start-up that ends with both workers in a motion call: the first cell's move is under way when a
      fault is cleared and a home is asked for. */
  lemma HomeBesideScan()
    ensures var d := After(Boot(StepMode, 2, 2), [StartScan(true), Go, ClearFault, HomeNow]);
            BothInMotion(d)
  {
    var b := Boot(StepMode, 2, 2);
    var d1 := Step(b, StartScan(true));
    var d2 := Step(d1, Go);
    assert d2 == d1.(pc := MoveCall(0, 2, 2));
    var d3 := Step(d2, ClearFault);
    RunOne(NoReset, d3, HomeNow, []);
    RunOne(NoReset, d2, ClearFault, [HomeNow]);
    RunOne(NoReset, d1, Go, [ClearFault, HomeNow]);
    RunOne(NoReset, b, StartScan(true), [Go, ClearFault, HomeNow]);
  }

  /** Clearing a fault breaks exclusion at once, by the very next event, exactly when the worker is inside a motion
      call: the scan is forced idle without a join, and a home walks past the guards. */
  lemma ClearingBreaksExclusionIff(d: Daemon)
    requires d.job.store.WellSized() && Exclusive(d)
    ensures (exists e :: BothInMotion(Step(Step(d, ClearFault), e))) <==> d.pc.InMotion()
  {
    hide WorkerStep;
    var c := Step(d, ClearFault);
    if d.pc.InMotion() {
      assert BothInMotion(Step(c, HomeOrJog(true, true)));
    } else {
      forall e ensures !BothInMotion(Step(c, e)) {
        if e.Worker? {
          WorkerFrame(c, e.o);
        }
      }
    }
  }

  /** A worker here will not enter a motion call while the scan is idle. */
  ghost predicate StaysOut(d: Daemon) {
    d.scan == Idle && !d.pc.InMotion() && !(d.pc.RowMoved? && d.pc.ok)
  }

  lemma StayingOutLasts(d: Daemon, e: Event)
    requires d.job.store.WellSized() && StaysOut(d) && !e.StartScan?
    ensures StaysOut(Step(d, e))
  {
    hide CaptureCell, ApplyGrid, ResetScan, Marked, Store.WellSized, CoordForIndex, ClampColumn, Heard;
    if e.Worker? && d.pc.Captured? {
      CaptureFrame(d, d.pc.index, d.pc.w, d.pc.h, d.pc.got, d.pc.v);
    }
  }

  lemma {:induction false} StayingOutOverRuns(d: Daemon, es: seq<Event>)
    requires d.job.store.WellSized() && StaysOut(d) && Runs(NoNewScan, d, es)
    ensures StaysOut(After(d, es))
    decreases |es|
  {
    if es != [] {
      StayingOutLasts(d, es[0]);
      StayingOutOverRuns(Step(d, es[0]), es[1..]);
    }
  }

  /** These events, none of which starts a scan, bring the two workers together. */
  ghost predicate Collides(d: Daemon, es: seq<Event>)
    requires d.job.store.WellSized()
  {
    Runs(NoNewScan, d, es) && BothInMotion(After(d, es))
  }

  lemma HomeCollides(c: Daemon)
    requires c.job.store.WellSized() && c.scan == Idle && !c.faulted && c.manual == NoMove && c.pc.InMotion()
    ensures Collides(c, [HomeNow])
  {
    AfterOne(c, HomeNow);
  }

  lemma HomeThenSweepCollides(c: Daemon)
    requires c.job.store.WellSized() && c.scan == Idle && !c.faulted && c.manual == NoMove && c.pc.RowMoved? && c.pc.ok
    ensures Collides(c, [HomeNow, Go])
  {
    var m := Step(c, HomeNow);
    assert m == c.(manual := ManualCall);
    assert Step(m, Go) == m.(pc := SweepStartCall(c.pc.row, c.pc.w, c.pc.h));
    AfterOne(m, Go);
    assert [HomeNow, Go][1..] == [Go];
  }

  /** And over any number of further events, as long as no scan is started: exactly when the worker is inside a
      motion call or has just come out of the move to a row's start, from where it goes on into the sweep. */
  lemma ClearingEverBreaksExclusionIff(d: Daemon)
    requires d.job.store.WellSized() && Exclusive(d)
    ensures (exists es :: Collides(Step(d, ClearFault), es)) <==> d.pc.InMotion() || (d.pc.RowMoved? && d.pc.ok)
  {
    var c := Step(d, ClearFault);
    if d.pc.InMotion() {
      HomeCollides(c);
    } else if d.pc.RowMoved? && d.pc.ok {
      HomeThenSweepCollides(c);
    } else {
      forall es | Runs(NoNewScan, c, es) ensures !Collides(c, es) {
        StayingOutOverRuns(c, es);
      }
    }
  }

  // ---------------------------------------------------------------- the stop

  /** In an idle scan a worker here can still come to write a cell. */
  predicate CanStillWrite(pc: Pc, cut: bool) {
    match pc
    case MoveCall(_, _, _) => true
    case Moved(_, _, _, ok) => ok
    case Reading(_, _, _, _) => true
    case Retry(_, _, _, _) => true
    case Captured(_, _, _, got, _) => got
    case RowMoveCall(_, _, _) => true
    case RowMoved(_, _, _, ok) => ok
    case SweepStartCall(_, _, _) => true
    case Polling(_, _, _) => !cut
    case Sampling(_, _, _) => true
    case SampleRead(_, _, _) => true
    case Sampled(_, _, _, _, _) => true
    case _ => false
  }

  function StepsToWrite(pc: Pc): nat {
    match pc
    case RowMoveCall(_, _, _) => 6
    case RowMoved(_, _, _, _) => 5
    case SweepStartCall(_, _, _) => 4
    case Polling(_, _, _) => 3
    case MoveCall(_, _, _) => 3
    case Retry(_, _, _, _) => 2
    case Moved(_, _, _, _) => 2
    case Sampling(_, _, _) => 2
    case Reading(_, _, _, _) => 1
    case SampleRead(_, _, _) => 1
    case _ => 0
  }

  lemma IdleWorkerStep(d: Daemon)
    requires d.job.store.WellSized() && d.scan == Idle && CanStillWrite(d.pc, d.cut)
    ensures var t := WorkerStep(d, Go.o);
            if d.pc.Captured? || d.pc.Sampled? then |t.writes| == |d.writes| + 1
            else t.scan == Idle && t.writes == d.writes && CanStillWrite(t.pc, t.cut)
                 && StepsToWrite(t.pc) < StepsToWrite(d.pc)
  {
    hide CaptureCell, ApplyGrid, ResetScan, Marked, Store.WellSized;
    if d.pc.Captured? {
      CaptureFrame(d, d.pc.index, d.pc.w, d.pc.h, d.pc.got, d.pc.v);
    }
  }

  lemma {:induction false} WriteReached(d: Daemon) returns (es: seq<Event>)
    requires d.job.store.WellSized() && d.scan == Idle && CanStillWrite(d.pc, d.cut)
    ensures Runs(NoNewScan, d, es) && |After(d, es).writes| > |d.writes|
    decreases StepsToWrite(d.pc)
  {
    IdleWorkerStep(d);
    if d.pc.Captured? || d.pc.Sampled? {
      AfterOne(d, Go);
      es := [Go];
    } else {
      var rest := WriteReached(Step(d, Go));
      es := [Go] + rest;
      assert es[1..] == rest;
    }
  }

  lemma NoWriteStep(d: Daemon, e: Event)
    requires d.job.store.WellSized() && d.scan == Idle && !CanStillWrite(d.pc, d.cut) && !e.StartScan?
    ensures var t := Step(d, e); t.scan == Idle && !CanStillWrite(t.pc, t.cut) && t.writes == d.writes
  {
    hide CaptureCell, ApplyGrid, ResetScan, Marked, Store.WellSized;
    if e.Worker? && d.pc.Captured? {
      CaptureFrame(d, d.pc.index, d.pc.w, d.pc.h, d.pc.got, d.pc.v);
    }
  }

  lemma {:induction false} NoWriteOverRuns(d: Daemon, es: seq<Event>)
    requires d.job.store.WellSized() && d.scan == Idle && !CanStillWrite(d.pc, d.cut) && Runs(NoNewScan, d, es)
    ensures After(d, es).writes == d.writes
    decreases |es|
  {
    if es != [] {
      NoWriteStep(d, es[0]);
      NoWriteOverRuns(Step(d, es[0]), es[1..]);
    }
  }

  /** Why the fault must stay: clearing one after a stop takes the stop back. The worker can then write again
      exactly when it is on its way to a cell, that is, not parked, not holding a failed call, and not at the end
      of its row. */
  lemma ClearingLetsWorkerWriteIff(d: Daemon)
    requires d.job.store.WellSized()
    ensures (exists es :: Runs(NoNewScan, Step(d, ClearFault), es)
                       && |After(Step(d, ClearFault), es).writes| > |d.writes|)
            <==> CanStillWrite(d.pc, d.cut)
  {
    var c := Step(d, ClearFault);
    if CanStillWrite(d.pc, d.cut) {
      var es := WriteReached(c);
    } else {
      forall es | Runs(NoNewScan, c, es) ensures |After(c, es).writes| <= |d.writes| {
        NoWriteOverRuns(c, es);
      }
    }
  }

  /** A run from start-up in which a stopped worker writes: the first cell's move is under way when the scan is stopped,
      and then a fault is cleared. */
  lemma WriteAfterStop()
    ensures var b := Boot(StepMode, 2, 2); var stopped := After(b, [StartScan(true), Go, StopScan]);
            && stopped.scan == Stopping && stopped.writes == []
            && After(stopped, [ClearFault, Go, Go, Go, Go]).writes == [stopped.worker]
  {
    hide Marked, CoordForIndex;
    var b := Boot(StepMode, 2, 2);
    var d1 := Step(b, StartScan(true));
    var d2 := Step(d1, Go);
    assert d2 == d1.(pc := MoveCall(0, 2, 2));
    var d3 := Step(d2, StopScan);
    assert d3 == d2.(scan := Stopping);
    RunOne(NoReset, d2, StopScan, []);
    RunOne(NoReset, d1, Go, [StopScan]);
    RunOne(NoReset, b, StartScan(true), [Go, StopScan]);
    StoppedAtMoveWrites(d3);
  }

  lemma FromMoveToCapture(d: Daemon)
    requires d.job.store.WellSized() && d.pc.MoveCall? && d.scan == Idle
    ensures var t := After(d, [Go, Go, Go]);
            t == d.(pc := Captured(d.pc.index, d.pc.w, d.pc.h, true, 0.0), heard := t.heard)
  {
    hide CaptureCell, StoreSample, FinishRow, PickWork, CoordForIndex, Store.WellSized;
    var i, w, h := d.pc.index, d.pc.w, d.pc.h;
    var d1 := Step(d, Go);
    assert d1 == d.(pc := Moved(i, w, h, true));
    var d2 := Step(d1, Go);
    assert d2 == d.(pc := Reading(i, w, h, 0));
    RunOne(NoReset, d2, Go, []);
    RunOne(NoReset, d1, Go, [Go]);
    RunOne(NoReset, d, Go, [Go, Go]);
  }

  lemma StoppedAtMoveWrites(d: Daemon)
    requires d.job.store.WellSized() && d.pc.MoveCall?
    ensures After(d, [ClearFault, Go, Go, Go, Go]).writes == d.writes + [d.worker]
  {
    var c := Step(d, ClearFault);
    assert c == d.(faulted := false, scan := Idle);
    hide CoordForIndex, Marked, PickWork, Store.WellSized;
    FromMoveToCapture(c);
    var c3 := After(c, [Go, Go, Go]);
    LastGoWrites(c3);
    hide Step, After;
    RunOne(NoReset, c3, Go, []);
    RunBoth(NoReset, c, [Go, Go, Go], [Go]);
    assert [Go, Go, Go] + [Go] == [Go, Go, Go, Go];
    RunOne(NoReset, d, ClearFault, [Go, Go, Go, Go]);
    AfterOne(c3, Go);
  }

  lemma LastGoWrites(d: Daemon)
    requires d.job.store.WellSized() && d.pc.Captured? && d.pc.got && d.scan == Idle
    ensures Step(d, Go).writes == d.writes + [d.worker]
  {
    CaptureFrame(d, d.pc.index, d.pc.w, d.pc.h, true, d.pc.v);
    hide CaptureCell;
  }

  // ---------------------------------------------------------------- the raster

  /** The count of captured cells is the version of the grid, as the raster law has it. */
  predicate CountStands(d: Daemon) { d.job.store.version == d.job.scanIndex }

  /** A reset that leaves the scan in step mode. */
  predicate StepReset(d: Daemon, e: Event) { Resets(d, e) && (e.SetResolution? || (e.SetMode? && e.mode == StepMode)) }

  /** After a reset under it, the worker can do no harm: it will write nothing, or is at the first cell, or is
      parked. */
  ghost predicate Harmless(d: Daemon) {
    && d.scan == Idle && d.job.store.WellSized() && d.job.store.w >= 2 && d.job.store.h >= 2 && CountStands(d)
    && !d.pc.SweepLoop()
    && (d.pc.StepLoop() && CanStillWrite(d.pc, d.cut) ==> d.pc.index == 0 && d.job.scanIndex == 0 && d.pc.w >= 2)
  }

  lemma HarmlessCapture(d: Daemon, o: Outcome)
    requires Harmless(d) && d.pc.Captured? && o.v >= 0.0
    ensures Harmless(WorkerStep(d, o))
  {
    if d.pc.got {
      IndexInRange(0, 0, d.job.store.w, d.job.store.h);
      assert CoordForIndex(0, d.pc.w) == Coord(0, 0);
    }
  }

  lemma HarmlessStep(d: Daemon, e: Event)
    requires Harmless(d) && Allowed(NoReset, d, e)
    ensures Harmless(Step(d, e))
  {
    if e.Worker? && d.pc.Captured? {
      HarmlessCapture(d, e.o);
    }
    hide CaptureCell, ResetScan, ApplyGrid, Store.WellSized;
  }

  lemma {:induction false} HarmlessOverRuns(d: Daemon, es: seq<Event>)
    requires Harmless(d) && Runs(NoReset, d, es)
    ensures Harmless(After(d, es))
    decreases |es|
  {
    if es != [] {
      HarmlessStep(d, es[0]);
      HarmlessOverRuns(Step(d, es[0]), es[1..]);
    }
  }

  /** An idle worker of the step loop that can still write goes on towards its cell, and then writes it and
      counts on. */
  lemma IdleStepLoopStep(d: Daemon)
    requires d.job.store.WellSized() && d.scan == Idle && d.pc.StepLoop() && CanStillWrite(d.pc, d.cut)
    ensures var t := WorkerStep(d, Go.o);
            if d.pc.Captured? then t.job.scanIndex == d.pc.index + 1 && t.job.store.version <= d.job.store.version + 1
            else t.scan == Idle && t.job == d.job && t.pc.StepLoop() && CanStillWrite(t.pc, t.cut)
                 && t.pc.index == d.pc.index
                 && StepsToWrite(t.pc) < StepsToWrite(d.pc)
  {
  }

  lemma {:induction false} CountRunsAhead(d: Daemon) returns (es: seq<Event>)
    requires d.job.store.WellSized() && d.scan == Idle && d.pc.StepLoop() && CanStillWrite(d.pc, d.cut)
    requires d.pc.index > 0 && d.job.store.version == 0
    ensures Runs(NoReset, d, es) && !CountStands(After(d, es))
    decreases StepsToWrite(d.pc)
  {
    IdleStepLoopStep(d);
    if d.pc.Captured? {
      es := [Go];
      RunOne(NoReset, d, Go, []);
    } else {
      var rest := CountRunsAhead(Step(d, Go));
      es := [Go] + rest;
      RunOne(NoReset, d, Go, rest);
    }
  }

  /** A reset let in under a live worker breaks the raster, sooner or later, exactly when the worker is on its way to a
      cell and that cell is not the first. */
  lemma ResetBreaksRasterIff(d: Daemon, e: Event)
    requires Inv(d) && d.job.mode == StepMode && StepReset(d, e)
    ensures (exists es :: Runs(NoReset, Step(d, e), es) && !CountStands(After(Step(d, e), es)))
            <==> CanStillWrite(d.pc, d.cut) && d.job.scanIndex > 0
  {
    var c := Step(d, e);
    ResetEffect(d, e);
    if CanStillWrite(d.pc, d.cut) && d.job.scanIndex > 0 {
      var es := CountRunsAhead(c);
    } else {
      assert Harmless(c);
      forall es | Runs(NoReset, c, es) ensures CountStands(After(c, es)) {
        HarmlessOverRuns(c, es);
      }
    }
  }

  lemma ResetEffect(d: Daemon, e: Event)
    requires Inv(d) && d.job.mode == StepMode && StepReset(d, e)
    ensures var c := Step(d, e);
            && c.scan == Idle && c.pc == d.pc && c.cut == d.cut && c.job.store.WellSized()
            && c.job.store.w >= 2 && c.job.store.h >= 2 && c.job.store.version == 0 && c.job.scanIndex == 0
    ensures !d.pc.SweepLoop() && (d.pc.StepLoop() ==> d.pc.index == d.job.scanIndex && d.pc.w >= 2)
    ensures CanStillWrite(d.pc, d.cut) ==> d.pc.StepLoop()
  {
  }

  function Workers(os: seq<Outcome>): seq<Event> {
    if os == [] then [] else [Worker(os[0])] + Workers(os[1..])
  }

  lemma {:induction false} WorkersRun(d: Daemon, os: seq<Outcome>, rest: seq<Event>)
    requires d.job.store.WellSized()
    ensures After(d, Workers(os) + rest) == After(WorkerRun(d, os), rest)
    decreases |os|
  {
    hide WorkerStep, Store.WellSized;
    if os == [] {
      assert Workers(os) + rest == rest;
    } else {
      assert Workers(os) + rest == [Worker(os[0])] + (Workers(os[1..]) + rest);
      RunOne(NoReset, d, Worker(os[0]), Workers(os[1..]) + rest);
      WorkersRun(WorkerStep(d, os[0]), os[1..], rest);
    }
  }

  /** One cell captured, the next one's move under way, and a fault cleared. */
  const OneCellThenClear: seq<Event> := [StartScan(true)] + ([Go, Go, Go, Go, Go] + [Go, ClearFault])

  /** A run from start-up that gets there, and a change of resolution is let in. */
  lemma ResetReachesWorker(w: int, h: int)
    ensures var d := After(Boot(StepMode, 2, 2), OneCellThenClear);
            && Inv(d) && d.job.mode == StepMode && StepReset(d, SetResolution(w, h))
            && CanStillWrite(d.pc, d.cut) && d.job.scanIndex == 1
  {
    FirstCellReady();
    hide Step, StepReset, CanStillWrite, Inv, ApplyGrid, Store.WellSized, ReadyForCell;
    var b := Boot(StepMode, 2, 2);
    var d1 := Step(b, StartScan(true));
    SecondMoveCleared(After(d1, [Go, Go, Go, Go, Go]), w, h);
    RunBoth(NoReset, d1, [Go, Go, Go, Go, Go], [Go, ClearFault]);
    RunOne(NoReset, b, StartScan(true), [Go, Go, Go, Go, Go] + [Go, ClearFault]);
  }

  lemma BootStarts()
    ensures var d := Step(Boot(StepMode, 2, 2), StartScan(true));
            Inv(d) && ReadyForCell(d) && d.job.scanIndex == 0 && d.job.store.w == 2 && d.job.store.h == 2
  {
    BootIsGood(StepMode, 2, 2);
    StartKeepsInv(Boot(StepMode, 2, 2), StartScan(true));
    hide Inv, Progress, Control, LocalsOk, Fill, WorkerStep;
  }

  lemma FirstCellReady()
    ensures var b := Boot(StepMode, 2, 2); var d := After(Step(b, StartScan(true)), [Go, Go, Go, Go, Go]);
            Inv(d) && ReadyForCell(d) && d.job.scanIndex == 1 && d.job.store.w == 2 && d.job.store.h == 2
  {
    BootStarts();
    hide Step, Inv, Workers, WorkerRun, ApplyGrid, Store.WellSized;
    var d1 := Step(Boot(StepMode, 2, 2), StartScan(true));
    var five := [Go.o, Go.o, Go.o, Go.o, Go.o];
    CellTakesFiveSteps(d1, five);
    WorkersRun(d1, five, []);
    FiveGoes();
    assert Workers(five) + [] == [Go, Go, Go, Go, Go];
  }

  lemma FiveGoes()
    ensures Workers([Go.o, Go.o, Go.o, Go.o, Go.o]) == [Go, Go, Go, Go, Go]
  {
    var a, b, c, d, e := [Go.o, Go.o, Go.o, Go.o, Go.o], [Go.o, Go.o, Go.o, Go.o], [Go.o, Go.o, Go.o],
                         [Go.o, Go.o], [Go.o];
    assert a[1..] == b && b[1..] == c && c[1..] == d && d[1..] == e && e[1..] == [];
    assert Workers(e) == [Go] && Workers(d) == [Go, Go] && Workers(c) == [Go, Go, Go];
  }

  lemma PickSecond(d: Daemon)
    requires Inv(d) && ReadyForCell(d) && d.job.scanIndex == 1 && d.job.store.w == 2 && d.job.store.h == 2
    ensures Step(d, Go) == d.(pc := MoveCall(1, 2, 2))
  {
    hide Progress, CaptureCell, StoreSample, CallStep, Decide, FinishRow, Store.WellSized;
  }

  lemma SecondMoveCleared(d: Daemon, w: int, h: int)
    requires Inv(d) && ReadyForCell(d) && d.job.scanIndex == 1 && d.job.store.w == 2 && d.job.store.h == 2
    ensures var t := After(d, [Go, ClearFault]);
            && Inv(t) && t.job.mode == StepMode && StepReset(t, SetResolution(w, h))
            && CanStillWrite(t.pc, t.cut) && t.job.scanIndex == 1
  {
    PickSecond(d);
    StepKeepsInv(ResetAfterExit, d, Go);
    var m := Step(d, Go);
    StepKeepsInv(ResetAfterExit, m, ClearFault);
    var c := Step(m, ClearFault);
    assert c == m.(faulted := false, scan := Idle);
    hide Step, Inv;
    RunOne(NoReset, m, ClearFault, []);
    RunOne(NoReset, d, Go, [ClearFault]);
  }
}
