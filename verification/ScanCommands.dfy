/** What the commands promise the operator, from the command on: a stop and an e-stop silence the worker and have it
    gone within five of its steps; a pause parks it and a resume completes the scan; a fault lets nothing start; a reset
    gives the grid that was asked for; and a worker never leaves without saying why. */
module ScanCommands {
  import opened Arithmetic
  import opened ScanGrid
  import opened Raster
  import opened ScanMachine

  // ---------------------------------------------------------------- stop and e-stop

  /** A stop, or an e-stop, that finds a scan to stop. An e-stop is heard even when a fault is latched. */
  predicate Stops(d: Daemon, e: Event) {
    d.scan != Idle && (e.EStop? || (e.StopScan? && !d.faulted))
  }

  lemma StopsNow(d: Daemon, e: Event)
    requires d.job.store.WellSized() && Stops(d, e)
    ensures var t := Step(d, e);
            t.scan == Stopping && t.worker == d.worker && t.pc == d.pc && t.writes == d.writes && t.job == d.job
  {
  }

  /** From the command: whatever state the scan is in, paused or faulted included, and whatever happens afterwards, the
      worker then in its loop writes no further cell and has left after at most five of its own steps, unless a fault
      is cleared before it has. */
  lemma StopSilencesWorker(d: Daemon, e: Event, es: seq<Event>)
    requires d.job.store.WellSized() && Stops(d, e) && Runs(ClearAfterExit, Step(d, e), es)
    ensures var end := After(Step(d, e), es);
            && WritesBy(end.writes, d.worker) == WritesBy(d.writes, d.worker)
            && (WorkerSteps(es) >= 5 ==> end.worker > d.worker || end.pc == Gone)
  {
    StopsNow(d, e);
    var t := Step(d, e);
    hide Step;
    StoppedWorkerWritesNoMore(t, es);
    if WorkerSteps(es) >= 5 {
      StopIsPrompt(t, es);
    }
  }

  /** Short of a fault from elsewhere, and of a clear. */
  predicate NoFaultFromOutside(es: seq<Event>) { TriggerFault !in es && ClearFault !in es }

  /** Waiting for a sweep to start, or told that it did not. */
  predicate StartingSweep(pc: Pc) { pc.SweepStartCall? || pc.SweepRefused? }

  lemma {:induction false} StoppedQuietly(d: Daemon, es: seq<Event>)
    requires d.job.store.WellSized() && d.scan == Stopping && !d.faulted && !StartingSweep(d.pc)
    requires NoFaultFromOutside(es)
    ensures var t := After(d, es); t.scan == Stopping && !t.faulted
    decreases |es|
  {
    if es != [] {
      assert es[0] in es;
      QuietStep(d, es[0]);
      StoppedQuietly(Step(d, es[0]), es[1..]);
    }
  }

  lemma QuietStep(d: Daemon, e: Event)
    requires d.job.store.WellSized() && d.scan == Stopping && !d.faulted && !StartingSweep(d.pc)
    requires e != TriggerFault && e != ClearFault
    ensures var t := Step(d, e); t.scan == Stopping && !t.faulted && !StartingSweep(t.pc)
  {
    hide Marked, Store.WellSized, CoordForIndex, ApplyGrid, ResetScan;
  }

  /** A stop is no fault, although the motion it aborts may well fail: short of a fault from elsewhere it comes to be
      recorded as one only if it comes while a sweep is being started, whose refusal is reported without a look at
      the stop. */
  lemma StopBecomesFaultIff(d: Daemon, e: Event)
    requires d.job.store.WellSized() && Stops(d, e) && !d.faulted
    ensures (exists es :: NoFaultFromOutside(es) && After(Step(d, e), es).faulted) <==> StartingSweep(d.pc)
  {
    StopsNow(d, e);
    var t := Step(d, e);
    assert !t.faulted;
    hide Step;
    if StartingSweep(d.pc) {
      var es := RefusalLatches(t);
    } else {
      forall es | NoFaultFromOutside(es) ensures !After(t, es).faulted {
        StoppedQuietly(t, es);
      }
    }
  }

  /** The first row of a sweep scan, up to the start of its sweep. */
  const UpToSweepStart: seq<Event> := [StartScan(true)] + ([Go] + ([Go] + [Go]))

  /** A run from start-up that gets there: a stop comes while the first sweep is being started, and is recorded as a
      fault when that is refused. */
  lemma StopRecordedAsFault()
    ensures var d := After(Boot(SweepMode, 2, 2), UpToSweepStart);
            && Stops(d, StopScan) && !d.faulted
            && exists es :: NoFaultFromOutside(es) && After(Step(d, StopScan), es).faulted
  {
    SweepAboutToStart();
    var d := After(Boot(SweepMode, 2, 2), UpToSweepStart);
    hide After, Step;
    StopBecomesFaultIff(d, StopScan);
  }

  lemma SweepAboutToStart()
    ensures var d := After(Boot(SweepMode, 2, 2), UpToSweepStart);
            d.pc.SweepStartCall? && d.scan == Scanning && !d.faulted
  {
    hide CaptureCell, StoreSample, FinishRow;
    var b := Boot(SweepMode, 2, 2);
    var d1 := Step(b, StartScan(true));
    var d2 := Step(d1, Go);
    assert d2 == d1.(pc := RowMoveCall(0, 2, 2));
    var d3 := Step(d2, Go);
    assert d3 == d1.(pc := RowMoved(0, 2, 2, true));
    var d4 := Step(d3, Go);
    assert d4 == d1.(pc := SweepStartCall(0, 2, 2));
    hide Step, After, Boot;
    AfterOne(d3, Go);
    RunOne(NoReset, d2, Go, [Go]);
    RunOne(NoReset, d1, Go, [Go] + [Go]);
    RunOne(NoReset, b, StartScan(true), [Go] + ([Go] + [Go]));
  }

  lemma RefusalLatches(d: Daemon) returns (es: seq<Event>)
    requires d.job.store.WellSized() && StartingSweep(d.pc)
    ensures NoFaultFromOutside(es) && After(d, es).faulted
  {
    var bad := Worker(Outcome(false, 0.0, 0, false));
    RefusedStep(d, bad.o);
    hide WorkerStep, Store.WellSized;
    var t := Step(d, bad);
    if d.pc.SweepRefused? {
      es := [bad];
      AfterOne(d, bad);
    } else {
      RefusedStep(t, bad.o);
      es := [bad] + [bad];
      AfterOne(t, bad);
      RunOne(NoReset, d, bad, [bad]);
    }
  }

  lemma RefusedStep(d: Daemon, o: Outcome)
    requires d.job.store.WellSized() && StartingSweep(d.pc) && !o.ok
    ensures var t := WorkerStep(d, o); if d.pc.SweepRefused? then t.faulted else t.pc.SweepRefused?
  {
    hide Marked, Store.WellSized, CoordForIndex;
  }

  // ---------------------------------------------------------------- pause and resume

  lemma PauseHolds(d: Daemon)
    requires Inv(d) && d.scan == Scanning && !d.faulted
    ensures var t := Step(d, PauseScan);
            Inv(t) && t.scan == Paused && !t.faulted && t.pc == d.pc && t.job == d.job && t.writes == d.writes
  {
    CommandKeepsInv(d, PauseScan);
    hide Inv;
  }

  /** Worker steps a paused step-mode worker has left before it is parked. */
  function StepsToPark(pc: Pc): (n: nat)
    ensures n <= 4
  {
    match pc
    case MoveCall(_, _, _) => 2
    case Moved(_, _, _, _) => 1
    case Reading(_, _, _, _) => 2
    case Retry(_, _, _, _) => 3
    case Captured(_, _, _, _, _) => 1
    case _ => 0
  }

  /** In a paused step-mode scan, with the calls going well: the worker is parked before the next cell, nothing is left
      in its hands, and nothing has failed; or it has just written the last cell, and the scan is complete. */
  ghost predicate OnItsWayToPark(d: Daemon) {
    && Inv(d) && d.job.mode == StepMode && !d.faulted
    && if d.pc == Gone then d.job.completed && d.scan == Idle
       else d.scan == Paused && (d.pc.Moved? ==> d.pc.ok) && (d.pc.Captured? ==> d.pc.got)
  }

  lemma ParkingStep(d: Daemon, o: Outcome)
    requires OnItsWayToPark(d) && o.ok && o.v >= 0.0
    ensures var t := WorkerStep(d, o);
            && OnItsWayToPark(t)
            && (StepsToPark(d.pc) == 0 ==> t == d)
            && (StepsToPark(d.pc) > 0 ==> StepsToPark(t.pc) < StepsToPark(d.pc))
            && t.job.store.w == d.job.store.w && t.job.store.h == d.job.store.h
            && d.job.scanIndex <= t.job.scanIndex
  {
    WorkerKeepsInv(d, o);
    assert d.job.store.WellSized();
    if d.pc.Captured? {
      CaptureIsNext(d);
      hide Inv, CaptureCell, CoordForIndex, Store.WellSized;
    } else {
      ParkingMove(d, o);
    }
  }

  lemma ParkingMove(d: Daemon, o: Outcome)
    requires OnItsWayToPark(d) && o.ok && o.v >= 0.0 && !d.pc.Captured?
    ensures var t := WorkerStep(d, o);
            && t.job == d.job && t.faulted == d.faulted && t.scan == d.scan
            && (StepsToPark(d.pc) == 0 ==> t == d)
            && (StepsToPark(d.pc) > 0 ==> StepsToPark(t.pc) < StepsToPark(d.pc) && t.pc != Gone)
            && (t.pc.Moved? ==> t.pc.ok) && (t.pc.Captured? ==> t.pc.got)
  {
    assert !d.pc.SweepLoop();
    hide Progress, CaptureCell, StoreSample, FinishRow, CoordForIndex, Store.WellSized;
  }

  lemma CaptureIsNext(d: Daemon)
    requires Inv(d) && d.pc.Captured? && d.pc.got && d.scan == Paused
    ensures var t := CaptureCell(d, d.pc.index, d.pc.w, d.pc.h, true, d.pc.v);
            && d.job.store.WellSized() && t.job.scanIndex == d.job.scanIndex + 1 && t.faulted == d.faulted
            && t.job.store.w == d.job.store.w && t.job.store.h == d.job.store.h && t.job.mode == d.job.mode
            && (if t.pc == Gone then t.job.completed && t.scan == Idle else t.pc == Wait(StepMode) && t.scan == Paused)
  {
    hide Marked, CoordForIndex;
  }

  lemma {:induction false} Parks(d: Daemon, os: seq<Outcome>)
    requires OnItsWayToPark(d) && AllSucceed(os) && |os| >= StepsToPark(d.pc)
    ensures var t := WorkerRun(d, os);
            && OnItsWayToPark(t) && StepsToPark(t.pc) == 0
            && t.job.store.w == d.job.store.w && t.job.store.h == d.job.store.h
            && d.job.scanIndex <= t.job.scanIndex
    decreases |os|
  {
    if os != [] {
      ParkingStep(d, os[0]);
      hide OnItsWayToPark, WorkerStep;
      assert OnItsWayToPark(d) ==> d.job.store.WellSized();
      Parks(WorkerStep(d, os[0]), os[1..]);
    }
  }

  /** Pausing loses nothing: from any point of a step-mode scan, with the calls going well, a paused worker is parked or
      has completed the scan after at most four of its own steps; and once parked, a resume and five steps per remaining
      cell complete the scan, every cell captured. */
  lemma PauseThenResumeCompletes(d: Daemon, os: seq<Outcome>, rest: seq<Outcome>)
    requires Inv(d) && d.job.mode == StepMode && d.scan == Scanning && !d.faulted
    requires (d.pc.Moved? ==> d.pc.ok) && (d.pc.Captured? ==> d.pc.got)
    requires AllSucceed(os) && |os| >= 4 && AllSucceed(rest)
    requires |rest| == 5 * (d.job.store.w * d.job.store.h - WorkerRun(Step(d, PauseScan), os).job.scanIndex)
    ensures var parked := WorkerRun(Step(d, PauseScan), os);
            && parked.job.store.w == d.job.store.w && parked.job.store.h == d.job.store.h
            && if parked.pc == Gone then parked.job.completed
               else
                 && parked.pc == Wait(StepMode) && parked.scan == Paused
                 && var end := WorkerRun(Step(parked, ResumeScan), rest);
                    end.job.completed && end.pc == Gone && end.job.scanIndex == d.job.store.w * d.job.store.h
  {
    PauseHolds(d);
    var p := Step(d, PauseScan);
    Parks(p, os);
    var parked := WorkerRun(p, os);
    if parked.pc != Gone {
      ParkedResumes(parked);
      hide Step, Inv, WorkerRun, OnItsWayToPark;
      UndisturbedScanCompletes(Step(parked, ResumeScan), rest);
    }
  }

  lemma ParkedResumes(d: Daemon)
    requires OnItsWayToPark(d) && StepsToPark(d.pc) == 0 && d.pc != Gone
    ensures d.pc == Wait(StepMode) && d.scan == Paused
    ensures var t := Step(d, ResumeScan);
            && Inv(t) && ReadyForCell(t) && t.job == d.job && t.job.scanIndex < t.job.store.w * t.job.store.h
  {
    CommandKeepsInv(d, ResumeScan);
    hide Progress;
  }

  // ---------------------------------------------------------------- why a worker leaves

  /** Stopped, with nothing changed; or complete, with no cell or row left; or failed, with a fault latched. */
  ghost predicate LeftForAReason(d: Daemon, t: Daemon) {
    || (d.scan == Stopping && t == d.(pc := Gone))
    || (t.scan == Idle && t.faulted && t.job == d.job)
    || (d.scan != Stopping && t.scan == Idle && t.faulted == d.faulted && t.job.completed && Exhausted(t.job))
  }

  /** A worker never just vanishes: when it leaves its loop it was stopped, or the scan is idle and either on record as
      complete or with a fault latched. */
  lemma WorkerLeavesForAReason(d: Daemon, o: Outcome)
    requires Inv(d) && d.pc != Gone
    ensures WorkerStep(d, o).pc == Gone ==> LeftForAReason(d, WorkerStep(d, o))
  {
    var p := d.pc;
    assert d.job.store.WellSized();
    if p.Captured? {
      CaptureLeaves(d);
    } else if p.RowDone? {
      RowLeaves(d);
    } else if p.Wait? {
      PickLeaves(d);
    } else {
      hide Inv, CaptureCell, FinishRow, PickWork, Marked, CoordForIndex, Store.WellSized, Exhausted;
    }
  }

  lemma CaptureLeaves(d: Daemon)
    requires Inv(d) && d.pc.Captured?
    ensures d.job.store.WellSized()
    ensures var t := CaptureCell(d, d.pc.index, d.pc.w, d.pc.h, d.pc.got, d.pc.v);
            t.pc == Gone ==> LeftForAReason(d, t)
  {
    assert d.job.store.WellSized();
    hide Progress, Marked, CoordForIndex, Store.WellSized;
  }

  lemma RowLeaves(d: Daemon)
    requires Inv(d) && d.pc.RowDone?
    ensures var t := FinishRow(d, d.pc.row, d.pc.w, d.pc.h); t.pc == Gone ==> LeftForAReason(d, t)
  {
    hide Progress;
  }

  lemma PickLeaves(d: Daemon)
    requires Inv(d) && d.pc.Wait?
    ensures var t := PickWork(d, d.pc.loop); t.pc == Gone ==> LeftForAReason(d, t)
  {
    SidesPositive(d.job);
    hide Progress;
  }

  lemma SidesPositive(j: Job)
    requires Progress(j)
    ensures j.store.w >= 2 && j.store.h >= 2
  {
  }

  // ---------------------------------------------------------------- a noisy sensor

  /** The answers come in this order: `bad` that fail, each followed by a look for a stop, and then, unless the third
      has failed, one that succeeds. */
  predicate BadThenGood(os: seq<Outcome>, bad: nat, left: nat) {
    && |os| == 2 * bad + (if bad < left then 1 else 0)
    && (forall k :: 0 <= k < bad ==> !os[2 * k].ok)
    && (bad < left ==> os[2 * bad].ok)
  }

  /** One bad answer does not cost the scan, nor do two: the next answer is the cell's. The third one latches a fault
      and the worker leaves. All that as long as nobody stops the scan. */
  lemma {:induction false} ReadingIsRetried(d: Daemon, os: seq<Outcome>, bad: nat)
    requires d.job.store.WellSized() && d.scan != Stopping
    requires d.pc.Reading? && d.pc.attempt < 3 && bad <= 3 - d.pc.attempt && BadThenGood(os, bad, 3 - d.pc.attempt)
    ensures var t := WorkerRun(d, os);
            if bad < 3 - d.pc.attempt then
              t == d.(pc := Captured(d.pc.index, d.pc.w, d.pc.h, true, os[2 * bad].v), heard := t.heard)
            else t.pc == Gone && t.faulted && t.scan == Idle && t.job == d.job && t.writes == d.writes
    decreases bad
  {
    hide WorkerStep, Store.WellSized;
    OneAttempt(d, os[0]);
    FirstOutcome(d, os);
    var t := WorkerStep(d, os[0]);
    if bad == 0 {
      assert os[1..] == [];
      FirstOutcome(t, []);
    } else {
      assert !os[2 * 0].ok;
      AfterBadAnswer(t, os[1]);
      FirstOutcome(t, os[1..]);
      RestOfAnswers(os, bad, 3 - d.pc.attempt);
      var u := WorkerStep(t, os[1]);
      hide BadThenGood;
      if d.pc.attempt + 1 < 3 {
        ReadingIsRetried(u, os[2..], bad - 1);
      } else {
        FirstOutcome(u, []);
      }
    }
  }

  lemma RestOfAnswers(os: seq<Outcome>, bad: nat, left: nat)
    requires BadThenGood(os, bad, left) && 0 < bad <= left
    ensures |os| >= 2 && os[1..][1..] == os[2..] && BadThenGood(os[2..], bad - 1, left - 1)
    ensures bad < left ==> os[2..][2 * (bad - 1)] == os[2 * bad]
    ensures left == 1 ==> os[2..] == []
  {
    assert forall k :: 0 <= k < bad - 1 ==> os[2..][2 * k] == os[2 * (k + 1)];
  }

  lemma OneAttempt(d: Daemon, o: Outcome)
    requires d.job.store.WellSized() && d.pc.Reading? && d.pc.attempt < 3
    ensures var t := WorkerStep(d, o); var i, w, h, next := d.pc.index, d.pc.w, d.pc.h, d.pc.attempt + 1;
            t == d.(pc := if o.ok then Captured(i, w, h, true, o.v)
                          else if next < 3 then Retry(i, w, h, next) else Captured(i, w, h, false, 0.0),
                    heard := t.heard)
  {
    hide CaptureCell, StoreSample, FinishRow, PickWork, Decide, CoordForIndex, Store.WellSized;
  }

  lemma AfterBadAnswer(d: Daemon, o: Outcome)
    requires d.job.store.WellSized() && d.scan != Stopping && (d.pc.Retry? || (d.pc.Captured? && !d.pc.got))
    ensures WorkerStep(d, o) == if d.pc.Retry? then d.(pc := Reading(d.pc.index, d.pc.w, d.pc.h, d.pc.attempt))
                                else FailScan(d)
  {
    hide StoreSample, FinishRow, PickWork, CoordForIndex, Store.WellSized;
  }

  // ---------------------------------------------------------------- a latched fault

  /** What a latched fault rules out: a start, a pause, a resume, a manual move, a reset of the grid. */
  ghost predicate NothingStarted(d: Daemon, t: Daemon) {
    && t.faulted && t.worker == d.worker && (d.pc == Gone ==> t.pc == Gone)
    && (t.scan == d.scan || t.scan == Idle || t.scan == Stopping)
    && (t.manual == ManualCall ==> d.manual == ManualCall)
    && t.job.store.generation == d.job.store.generation && t.job.mode == d.job.mode
  }

  /** From the moment a fault is triggered, and until somebody clears it, nothing starts and nothing is paused or
      resumed; a scan under way can only stop. */
  lemma FaultStartsNothing(d: Daemon, es: seq<Event>)
    requires d.job.store.WellSized() && ClearFault !in es
    ensures NothingStarted(d, After(Step(d, TriggerFault), es))
  {
    FaultedRun(Step(d, TriggerFault), es);
  }

  lemma {:induction false} FaultedRun(d: Daemon, es: seq<Event>)
    requires d.job.store.WellSized() && d.faulted && ClearFault !in es
    ensures NothingStarted(d, After(d, es))
    decreases |es|
  {
    if es != [] {
      FaultedStep(d, es[0]);
      assert es[0] in es;
      FaultedRun(Step(d, es[0]), es[1..]);
    }
  }

  lemma FaultedStep(d: Daemon, e: Event)
    requires d.job.store.WellSized() && d.faulted && e != ClearFault
    ensures NothingStarted(d, Step(d, e))
    ensures e.StopScan? ==> Step(d, e) == d
  {
    hide WorkerStep, Store.WellSized, ApplyGrid, ResetScan;
    if e.Worker? {
      WorkerFrame(d, e.o);
    }
  }

  // ---------------------------------------------------------------- what a reset gives

  /** An accepted reset leaves an empty grid of a new generation, of the size and in the mode asked for, sides of at
      least two, with nothing captured, nothing complete and no reading kept; a start keeps size and mode, and puts a
      new worker at the beginning of the loop of that mode. */
  lemma ResetGivesFreshScan(d: Daemon, e: Event)
    requires Inv(d) && Resets(d, e)
    ensures var j, t := d.job, Step(d, e).job;
            && IsBlank(t.store) && t.store.generation > j.store.generation
            && t.scanIndex == 0 && t.scanRow == 0 && t.filledCells == 0 && !t.completed && t.readings == []
            && (e.StartScan? ==> t.store.w == j.store.w && t.store.h == j.store.h)
            && (!e.StartScan? ==> 2 <= t.store.w && e.w <= t.store.w && (e.w >= 2 ==> t.store.w == e.w)
                                  && 2 <= t.store.h && e.h <= t.store.h && (e.h >= 2 ==> t.store.h == e.h)
                                  && (e.w < 2 ==> t.store.w == 2) && (e.h < 2 ==> t.store.h == 2))
            && t.mode == (if e.SetMode? then e.mode else j.mode)
    ensures var t := Step(d, e);
            e.StartScan? ==> t.scan == Scanning && t.pc == Wait(d.job.mode) && t.worker == d.worker + 1
    ensures !e.StartScan? ==> Step(d, e) == d.(job := Step(d, e).job)
  {
    hide Progress, LocalsOk;
  }

  /** Exactly when a command gets its way: a scan starts, and a jog, only from a known position with everything at
      rest and no fault; homing alone needs no known position, and so is the way out of an unknown one. */
  lemma StartsIff(d: Daemon, isHome: bool, known: bool)
    requires d.job.store.WellSized()
    ensures Step(d, StartScan(known)).worker > d.worker
            <==> d.scan == Idle && d.manual == NoMove && !d.faulted && known
    ensures Step(d, HomeOrJog(isHome, known)) != d
            <==> d.scan == Idle && d.manual == NoMove && !d.faulted && (isHome || known)
    ensures Step(d, HomeOrJog(isHome, known)) != d ==> Step(d, HomeOrJog(isHome, known)) == d.(manual := ManualCall)
  {
    hide ResetScan, Store.WellSized;
  }

  // ---------------------------------------------------------------- a manual move, from start to end

  /** A manual move keeps the head for itself for exactly as long as it runs: until its call returns it is in that call,
      and until its worker has noted the outcome no other move or scan gets in; then the head is free. */
  lemma ManualMoveEnds(d: Daemon, before: seq<Event>, ok: bool, between: seq<Event>)
    requires d.job.store.WellSized() && d.manual == ManualCall
    requires forall k :: 0 <= k < |before| ==> !before[k].ManualReturns?
    requires forall k :: 0 <= k < |between| ==> !between[k].ManualFinishes?
    ensures var called := After(d, before); var returned := After(Step(called, ManualReturns(ok)), between);
            && called.manual == ManualCall && returned.manual == ManualReturned(ok)
            && called.worker == d.worker && returned.worker == d.worker
            && Step(returned, ManualFinishes) == returned.(manual := NoMove)
  {
    ManualStays(d, before);
    var called := After(d, before);
    ManualChanges(called, ok);
    hide Step, Store.WellSized;
    ManualStays(Step(called, ManualReturns(ok)), between);
    ManualChanges(After(Step(called, ManualReturns(ok)), between), ok);
  }

  lemma ManualChanges(d: Daemon, ok: bool)
    requires d.job.store.WellSized()
    ensures d.manual == ManualCall ==> Step(d, ManualReturns(ok)) == d.(manual := ManualReturned(ok))
    ensures d.manual.ManualReturned? ==> Step(d, ManualFinishes) == d.(manual := NoMove)
  {
  }

  lemma {:induction false} ManualStays(d: Daemon, es: seq<Event>)
    requires d.job.store.WellSized() && d.manual != NoMove
    requires forall k :: 0 <= k < |es| ==>
               if d.manual == ManualCall then !es[k].ManualReturns? else !es[k].ManualFinishes?
    ensures After(d, es).manual == d.manual && After(d, es).worker == d.worker
    decreases |es|
  {
    if es != [] {
      assert if d.manual == ManualCall then !es[0].ManualReturns? else !es[0].ManualFinishes?;
      ManualStep(d, es[0]);
      ManualStays(Step(d, es[0]), es[1..]);
    }
  }

  lemma ManualStep(d: Daemon, e: Event)
    requires d.job.store.WellSized() && d.manual != NoMove
    requires if d.manual == ManualCall then !e.ManualReturns? else !e.ManualFinishes?
    ensures Step(d, e).manual == d.manual && Step(d, e).worker == d.worker
  {
    hide WorkerStep, Store.WellSized, ApplyGrid, ResetScan;
    if e.Worker? {
      WorkerFrame(d, e.o);
    }
  }

  // ---------------------------------------------------------------- a sweep that has ended by itself

  /** Once the last step of a sweep is out no abort can cut it any more: whatever comes, what the worker then reports
      of it is truthful. */
  lemma DrainedSweepIsTruthful(d: Daemon, es: seq<Event>)
    requires d.job.store.WellSized() && d.pc.SweepUnderWay() && !d.cut && SweepRun(Step(d, SweepDrains), es)
    ensures After(Step(d, SweepDrains), es).pc.SweepFinishCall? && ReportIsTruthful(After(Step(d, SweepDrains), es))
  {
    var t := Step(d, SweepDrains);
    NothingLeftToCut(t, es);
    ReportTruthfulIff(t, es);
  }

  lemma {:induction false} NothingLeftToCut(d: Daemon, es: seq<Event>)
    requires d.job.store.WellSized() && !d.live && SweepRun(d, es)
    ensures !CutDuring(d, es)
    decreases |es|
  {
    if es != [] {
      StaysDrained(d, es[0]);
      NothingLeftToCut(Step(d, es[0]), es[1..]);
    }
  }

  lemma StaysDrained(d: Daemon, e: Event)
    requires d.job.store.WellSized() && !d.live && d.pc.SweepUnderWay()
    ensures !Step(d, e).live
  {
    hide Marked, Store.WellSized, ApplyGrid, ResetScan, CoordForIndex;
  }

  /** A dropped sample costs its cell only: the sampling loop goes on until it is told that the transmitter is idle,
      or sees a stop, and ends for no other reason. */
  lemma SweepGoesOnIff(d: Daemon, o: Outcome)
    requires d.job.store.WellSized() && d.pc.SweepUnderWay()
    ensures WorkerStep(d, o).pc.SweepUnderWay()
            <==> !(d.pc.Polling? && (!o.ok || d.cut)) && !(d.scan == Stopping && (d.pc.Sampling? || d.pc.Sampled?))
    ensures d.pc.SampleRead? && !o.ok ==> WorkerStep(d, o).job == d.job && WorkerStep(d, o).writes == d.writes
  {
    hide Marked, Store.WellSized, CoordForIndex;
  }

  /** When the worker reports a sweep the motors are at rest: it has found the transmitter idle, or has itself stopped
      it on seeing a stop. */
  lemma {:induction false} ReportedSweepIsOver(d: Daemon, es: seq<Event>)
    requires d.job.store.WellSized() && d.pc.SweepUnderWay() && SweepRun(d, es)
    ensures After(d, es).pc.SweepFinishCall? && !After(d, es).live
    decreases |es|
  {
    var t, rest := Step(d, es[0]), es[1..];
    LeavesAtRest(d, es[0]);
    if rest == [] {
      assert After(t, rest) == t;
    } else {
      ReportedSweepIsOver(t, rest);
    }
  }

  lemma LeavesAtRest(d: Daemon, e: Event)
    requires d.job.store.WellSized() && d.pc.SweepUnderWay()
    ensures Step(d, e).pc.SweepFinishCall? ==> !Step(d, e).live
  {
    hide Marked, Store.WellSized, ApplyGrid, ResetScan, CoordForIndex;
  }

  /** A grid of no cells is no scan: the worker leaves at once, with the scan idle and nothing moved or recorded. */
  lemma NothingToScan(d: Daemon, o: Outcome)
    requires d.job.store.WellSized() && d.pc.Wait? && d.scan == Scanning && |d.job.store.cells| == 0
    ensures WorkerStep(d, o) == d.(scan := Idle, pc := Gone)
  {
    if d.job.store.w > 0 && d.job.store.h > 0 {
      MulStep(0, d.job.store.h, d.job.store.w);
    }
    hide Store.WellSized;
  }
}
