/** All the scan workers there can be. The daemon keeps one thread handle; a stop or an e-stop takes it away to wait
    for the worker, and a start waits for the worker whose handle it finds, if it finds one. So once a fault has been
    cleared under a live worker, further scan workers can come to run beside it.

    Each worker takes the very steps of ScanMachine on the state they share. `joining` are the start commands
    that wait for a worker to leave. */
module ScanCrew {
  import opened Arithmetic
  import opened Options
  import opened Raster
  import opened ScanGrid
  import opened ScanMachine

  /** `d` is what all share, its own worker position unused; `workers` is where each worker is, in order of starting. */
  datatype Crew = Crew(d: Daemon, workers: seq<Pc>, held: Option<nat>, joining: seq<nat>)

  datatype Event =
    | Command(e: ScanMachine.Event)
    | Work(k: nat, o: Outcome)
    | Joined(j: nat)

  ghost predicate Valid(c: Crew) {
    && c.d.pc == Gone && c.d.job.store.WellSized()
    && (c.held.Some? ==> c.held.value < |c.workers|)
    && (forall j :: 0 <= j < |c.joining| ==> c.joining[j] < |c.workers|)
  }

  predicate Possible(c: Crew, e: Event)
    requires Valid(c)
  {
    match e
    case Command(x) => !x.Worker?
    case Work(k, o) => k < |c.workers| && o.v >= 0.0
    case Joined(j) => j < |c.joining| && c.workers[c.joining[j]] == Gone
  }

  /** The new thread starts in the loop of the mode of the day. */
  function Launch(c: Crew): Crew {
    c.(workers := c.workers + [Wait(c.d.job.mode)], held := Some(|c.workers|))
  }

  /** The shared state as worker `k` sees it; it writes under its own number. */
  function Seen(c: Crew, k: nat): Daemon
    requires k < |c.workers|
  {
    c.d.(pc := c.workers[k], worker := k + 1)
  }

  function WorkStep(c: Crew, k: nat, o: Outcome): (t: Crew)
    requires Valid(c) && k < |c.workers|
    ensures Valid(t) && |t.workers| == |c.workers| && t.held == c.held && t.joining == c.joining
    ensures forall j :: 0 <= j < |c.workers| && j != k ==> t.workers[j] == c.workers[j]
  {
    var s := WorkerStep(Seen(c, k), o);
    c.(d := s.(pc := Gone, worker := c.d.worker), workers := c.workers[k := s.pc])
  }

  predicate TakesHandle(d: Daemon, e: ScanMachine.Event) {
    (e.StopScan? && !d.faulted && d.scan != Idle) || (e.EStop? && d.scan != Idle)
  }

  function CommandStep(c: Crew, e: ScanMachine.Event): (t: Crew)
    requires Valid(c) && !e.Worker?
    ensures Valid(t) && |t.workers| >= |c.workers| && t.workers[..|c.workers|] == c.workers
  {
    var d := Step(c.d, e).(pc := Gone);
    if e.StartScan? && Resets(c.d, e) then
      if c.held.Some? && c.workers[c.held.value] != Gone then Crew(d, c.workers, None, c.joining + [c.held.value])
      else Launch(Crew(d, c.workers, None, c.joining))
    else c.(d := d, held := if TakesHandle(c.d, e) then None else c.held)
  }

  function CrewStep(c: Crew, e: Event): (t: Crew)
    requires Valid(c) && Possible(c, e)
    ensures Valid(t) && |t.workers| >= |c.workers|
  {
    match e
    case Command(x) => CommandStep(c, x)
    case Work(k, o) => WorkStep(c, k, o)
    case Joined(j) => Launch(c.(joining := c.joining[..j] + c.joining[j + 1..]))
  }

  predicate Can(c: Crew, es: seq<Event>)
    requires Valid(c)
    decreases |es|
  {
    es != [] ==> Possible(c, es[0]) && Can(CrewStep(c, es[0]), es[1..])
  }

  function Then(c: Crew, es: seq<Event>): (t: Crew)
    requires Valid(c) && Can(c, es)
    ensures Valid(t) && |t.workers| >= |c.workers|
    decreases |es|
  {
    if es == [] then c else Then(CrewStep(c, es[0]), es[1..])
  }

  lemma {:induction false} ThenBoth(c: Crew, a: seq<Event>, b: seq<Event>)
    requires Valid(c) && Can(c, a) && Can(Then(c, a), b)
    ensures Can(c, a + b) && Then(c, a + b) == Then(Then(c, a), b)
    decreases |a|
  {
    hide CrewStep;
    if a == [] {
      assert a + b == b;
    } else {
      assert (a + b)[0] == a[0] && (a + b)[1..] == a[1..] + b;
      ThenBoth(CrewStep(c, a[0]), a[1..], b);
    }
  }

  lemma ThenOne(c: Crew, e: Event)
    requires Valid(c) && Possible(c, e)
    ensures Can(c, [e]) && Then(c, [e]) == CrewStep(c, e)
  {
    hide CrewStep;
    assert [e][1..] == [];
    assert Can(CrewStep(c, e), []);
  }

  lemma ThenNext(c: Crew, a: seq<Event>, e: Event)
    requires Valid(c) && Can(c, a) && Possible(Then(c, a), e)
    ensures Can(c, a + [e]) && Then(c, a + [e]) == CrewStep(Then(c, a), e)
  {
    hide CrewStep;
    ThenOne(Then(c, a), e);
    ThenBoth(c, a, [e]);
  }

  function CrewBoot(mode: Mode, w: int, h: int): (c: Crew)
    ensures Valid(c)
  {
    Crew(Boot(mode, w, h), [], None, [])
  }

  // ---------------------------------------------------------------- one worker at a time

  function Newest(c: Crew): Pc { if c.workers == [] then Gone else c.workers[|c.workers| - 1] }

  /** The crew as the one-worker machine sees it. */
  function OneWorker(c: Crew): Daemon { c.d.(pc := Newest(c), worker := |c.workers|) }

  /** Only the newest worker may be live, and no start waits for anybody. */
  ghost predicate Solo(c: Crew) {
    && (forall k :: 0 <= k < |c.workers| - 1 ==> c.workers[k] == Gone)
    && c.joining == [] && Exclusive(OneWorker(c)) && c.d.worker == |c.workers|
  }

  /** Faults are cleared only when every worker has left. */
  predicate Careful(c: Crew, e: Event) {
    e == Command(ClearFault) ==> forall k :: 0 <= k < |c.workers| ==> c.workers[k] == Gone
  }

  ghost predicate CarefulRun(c: Crew, es: seq<Event>)
    requires Valid(c) && Can(c, es)
    decreases |es|
  {
    es != [] ==> Careful(c, es[0]) && CarefulRun(CrewStep(c, es[0]), es[1..])
  }

  lemma StartBySolo(c: Crew, e: ScanMachine.Event)
    requires Valid(c) && Solo(c) && e.StartScan? && Resets(c.d, e)
    ensures var t := CommandStep(c, e); Solo(t) && OneWorker(t) == Step(OneWorker(c), e)
  {
    assert Newest(c) == Gone;
    assert forall k :: 0 <= k < |c.workers| ==> c.workers[k] == Gone;
    hide ResetScan, Store.WellSized;
  }

  lemma CommandBySolo(c: Crew, e: ScanMachine.Event)
    requires Valid(c) && Solo(c) && !e.Worker? && Careful(c, Command(e))
    ensures var t := CommandStep(c, e);
            && Solo(t) && OneWorker(t) == Step(OneWorker(c), e)
            && Allowed(ClearAfterExit, OneWorker(c), e)
  {
    if e.StartScan? && Resets(c.d, e) {
      StartBySolo(c, e);
    } else {
      OtherBySolo(c, e);
    }
  }

  lemma OtherBySolo(c: Crew, e: ScanMachine.Event)
    requires Valid(c) && Solo(c) && !e.Worker? && Careful(c, Command(e)) && !(e.StartScan? && Resets(c.d, e))
    ensures var t := CommandStep(c, e);
            && Solo(t) && OneWorker(t) == Step(OneWorker(c), e)
            && Allowed(ClearAfterExit, OneWorker(c), e)
  {
    assert e == ClearFault ==> Newest(c) == Gone;
    OtherStep(c, e);
    hide Step, Store.WellSized, CommandStep, Exclusive;
    StepKeepsExclusive(OneWorker(c), e);
  }

  lemma OtherStep(c: Crew, e: ScanMachine.Event)
    requires Valid(c) && !e.Worker? && !(e.StartScan? && Resets(c.d, e)) && c.d.worker == |c.workers|
    ensures var t := CommandStep(c, e);
            && OneWorker(t) == Step(OneWorker(c), e)
            && t.workers == c.workers && t.joining == c.joining && t.d.worker == c.d.worker
  {
    hide Step, Store.WellSized, Resets, TakesHandle;
    CommandIgnoresWorker(c.d, e, Newest(c), |c.workers|);
    CommandIgnoresWorker(c.d, e, Gone, c.d.worker);
  }

  /** A command looks at no worker and, unless it starts a scan, touches none. */
  lemma CommandIgnoresWorker(d: Daemon, e: ScanMachine.Event, pc: Pc, n: nat)
    requires d.job.store.WellSized() && !e.Worker? && !(e.StartScan? && Resets(d, e))
    ensures Step(d.(pc := pc, worker := n), e) == Step(d, e).(pc := pc, worker := n)
  {
    hide ApplyGrid, ResetScan, WorkerStep, Store.WellSized;
  }

  /** The newest worker's steps are the one worker's; the others have none left. */
  lemma WorkBySolo(c: Crew, k: nat, o: Outcome)
    requires Valid(c) && Solo(c) && k < |c.workers| && o.v >= 0.0
    ensures var t := WorkStep(c, k, o);
            && Solo(t)
            && (if k == |c.workers| - 1 then OneWorker(t) == Step(OneWorker(c), Worker(o)) else t == c)
  {
    WorkerFrame(Seen(c, k), o);
    StepKeepsExclusive(OneWorker(c), Worker(o));
    hide WorkerStep, Store.WellSized;
    if k < |c.workers| - 1 {
      assert c.workers[k] == Gone;
    } else {
      assert Seen(c, k) == OneWorker(c);
    }
  }

  /** The run as the one worker lives it. */
  function Lived(c: Crew, es: seq<Event>): seq<ScanMachine.Event>
    requires Valid(c) && Can(c, es)
    decreases |es|
  {
    if es == [] then []
    else
      (match es[0]
       case Command(x) => [x]
       case Work(k, o) => if k == |c.workers| - 1 then [Worker(o)] else []
       case Joined(_) => [])
      + Lived(CrewStep(c, es[0]), es[1..])
  }

  lemma {:induction false} SoloOverRuns(c: Crew, es: seq<Event>)
    requires Valid(c) && Solo(c) && Can(c, es) && CarefulRun(c, es)
    ensures Solo(Then(c, es)) && Runs(ClearAfterExit, OneWorker(c), Lived(c, es))
    ensures OneWorker(Then(c, es)) == After(OneWorker(c), Lived(c, es))
    decreases |es|
  {
    if es != [] {
      match es[0]
      case Command(x) =>
        CommandBySolo(c, x);
        SoloOverRuns(CrewStep(c, es[0]), es[1..]);
        RunOne(ClearAfterExit, OneWorker(c), x, Lived(CrewStep(c, es[0]), es[1..]));
      case Work(k, o) =>
        WorkBySolo(c, k, o);
        SoloOverRuns(CrewStep(c, es[0]), es[1..]);
        if k == |c.workers| - 1 {
          RunOne(ClearAfterExit, OneWorker(c), Worker(o), Lived(CrewStep(c, es[0]), es[1..]));
        } else {
          assert Lived(c, es) == Lived(CrewStep(c, es[0]), es[1..]);
        }
    }
  }

  /** As long as faults are cleared only after every worker has left there is never more than one worker, no start
      ever waits, and the crew lives a run of the one-worker machine: everything proved of that holds. */
  lemma CarefulCrewIsOneWorker(mode: Mode, w: int, h: int, es: seq<Event>)
    requires Can(CrewBoot(mode, w, h), es) && CarefulRun(CrewBoot(mode, w, h), es)
    ensures var c := CrewBoot(mode, w, h);
            && Solo(Then(c, es))
            && Runs(ClearAfterExit, Boot(mode, w, h), Lived(c, es))
            && OneWorker(Then(c, es)) == After(Boot(mode, w, h), Lived(c, es))
  {
    BootIsGood(mode, w, h);
    SoloOverRuns(CrewBoot(mode, w, h), es);
  }

  // ---------------------------------------------------------------- an idle scan with live workers

  /** A worker step that goes well. */
  const Well: Outcome := Outcome(true, 0.0, 0, true)

  /** Nothing holds a command back: the scan is idle, no fault is latched, nobody moves by hand. */
  ghost predicate Calm(c: Crew) {
    && Valid(c) && c.d.scan == Idle && !c.d.faulted && c.d.manual == NoMove
    && c.d.job.store.w >= 2 && c.d.job.store.h >= 2
  }

  lemma IdleCall(c: Crew, k: nat)
    requires Calm(c) && k < |c.workers| && c.workers[k].Call()
    ensures var t := WorkStep(c, k, Well); var p := c.workers[k];
            && Calm(t) && t.workers[k] == CallReturns(p, c.d.cut, Well)
            && t.d.writes == c.d.writes && t.d.job == c.d.job
            && t.d.cut == (c.d.cut && !p.SweepStartCall?)
  {
    hide Store.WellSized;
  }

  /** Where a decision leads in an idle scan, unless a call has failed. */
  function Decided(p: Pc): Pc
    requires p.Moved? || p.Retry? || p.RowMoved? || p.Sampling?
  {
    match p
    case Moved(i, w, h, _) => Reading(i, w, h, 0)
    case Retry(i, w, h, attempt) => Reading(i, w, h, attempt)
    case RowMoved(row, w, h, _) => SweepStartCall(row, w, h)
    case Sampling(row, w, h) => SampleRead(row, w, h)
  }

  lemma IdleDecision(c: Crew, k: nat)
    requires Calm(c) && k < |c.workers|
    requires var p := c.workers[k]; (p.Moved? && p.ok) || p.Retry? || (p.RowMoved? && p.ok) || p.Sampling?
    ensures var t := WorkStep(c, k, Well); var p := c.workers[k];
            && Calm(t) && t.workers[k] == Decided(p)
            && t.d.writes == c.d.writes && t.d.job == c.d.job && t.d.cut == c.d.cut
  {
    hide Store.WellSized;
  }

  lemma IdleCapture(c: Crew, k: nat)
    requires Calm(c) && k < |c.workers| && c.workers[k].Captured? && c.workers[k].got
    ensures var t := WorkStep(c, k, Well); var p := c.workers[k];
            && t.d.writes == c.d.writes + [k + 1]
            && (p.index + 1 < p.w * p.h ==> Calm(t) && t.workers[k] == Wait(StepMode))
  {
    hide Marked, Store.WellSized;
  }

  lemma IdleSample(c: Crew, k: nat)
    requires Calm(c) && k < |c.workers| && c.workers[k].Sampled?
    ensures WorkStep(c, k, Well).d.writes == c.d.writes + [k + 1]
  {
    hide Marked, Store.WellSized;
  }

  lemma IdleRow(c: Crew, k: nat)
    requires Calm(c) && k < |c.workers| && c.workers[k].RowDone? && c.workers[k].row + 1 < c.workers[k].h
    ensures var t := WorkStep(c, k, Well);
            Calm(t) && t.workers[k] == Wait(SweepMode) && t.d.writes == c.d.writes && t.d.cut == c.d.cut
  {
    hide Store.WellSized;
  }

  // ---------------------------------------------------------------- commands in an idle scan

  lemma StartsAgain(c: Crew)
    requires Calm(c)
    ensures var t := CommandStep(c, StartScan(true));
            && Valid(t) && t.d.scan == Scanning && !t.d.faulted && t.d.manual == NoMove && t.d.cut == c.d.cut
            && t.d.writes == c.d.writes && t.d.job.scanIndex == 0 && t.d.job.scanRow == 0
            && t.d.job.mode == c.d.job.mode
            && t.d.job.store.w == c.d.job.store.w && t.d.job.store.h == c.d.job.store.h
            && (c.held == None ==> t.workers == c.workers + [Wait(c.d.job.mode)] && t.held == Some(|c.workers|))
  {
    hide Store.WellSized;
  }

  lemma ClearsAgain(c: Crew)
    requires Valid(c) && c.d.manual == NoMove && c.d.job.store.w >= 2 && c.d.job.store.h >= 2
    ensures var t := CommandStep(c, ClearFault);
            && Calm(t) && t.workers == c.workers && t.d.job == c.d.job && t.d.cut == c.d.cut && t.d.writes == c.d.writes
            && t.held == c.held
  {
    hide Store.WellSized;
  }

  lemma SameWorker(c: Crew, t: Crew, k: nat)
    requires k < |c.workers| <= |t.workers| && t.workers[..|c.workers|] == c.workers
    ensures t.workers[k] == c.workers[k]
  {
    assert t.workers[..|c.workers|][k] == c.workers[k];
  }

  /** A worker with a scan under way picks its first cell or row. */
  lemma PicksFirst(c: Crew, k: nat)
    requires Valid(c) && c.d.scan == Scanning && c.d.job.store.w >= 2 && c.d.job.store.h >= 2
    requires c.d.job.scanIndex == 0 && c.d.job.scanRow == 0 && k < |c.workers| && c.workers[k].Wait?
    ensures var t := WorkStep(c, k, Well); var j := c.d.job.store;
            && t.d == c.d && t.workers[k] ==
               if c.workers[k].loop == StepMode then MoveCall(0, j.w, j.h) else RowMoveCall(0, j.w, j.h)
  {
    assert c.d.job.store.w * c.d.job.store.h > 0;
    hide Store.WellSized;
  }

  /** A parked worker can be set moving: a scan is started, it picks its first cell or row, and the fault is cleared. */
  lemma ParkedGoesOn(c: Crew, k: nat) returns (es: seq<Event>)
    requires Calm(c) && k < |c.workers| && c.workers[k].Wait?
    ensures Can(c, es) && Calm(Then(c, es)) && Then(c, es).d.writes == c.d.writes
    ensures Then(c, es).workers[k].MoveCall? || Then(c, es).workers[k].RowMoveCall?
  {
    hide CommandStep, WorkStep;
    StartsAgain(c);
    var a := CrewStep(c, Command(StartScan(true)));
    SameWorker(c, a, k);
    PicksFirst(a, k);
    var b := CrewStep(a, Work(k, Well));
    ClearsAgain(b);
    ThenOne(c, Command(StartScan(true)));
    ThenNext(c, [Command(StartScan(true))], Work(k, Well));
    es := [Command(StartScan(true))] + [Work(k, Well)] + [Command(ClearFault)];
    ThenNext(c, [Command(StartScan(true))] + [Work(k, Well)], Command(ClearFault));
  }

  /** A worker back from a step-loop move can be parked: a scan is started and paused, it finds the pause, and the fault
      is cleared. */
  lemma MovedGoesToPark(c: Crew, k: nat) returns (es: seq<Event>)
    requires Calm(c) && k < |c.workers| && c.workers[k].Moved? && c.workers[k].ok
    ensures Can(c, es) && Calm(Then(c, es)) && Then(c, es).workers[k] == Wait(StepMode)
  {
    StartsAgain(c);
    var a := CrewStep(c, Command(StartScan(true)));
    SameWorker(c, a, k);
    PausesAndParks(a, k);
    hide CommandStep, WorkStep;
    var b := CrewStep(a, Command(PauseScan));
    var p := CrewStep(b, Work(k, Well));
    ClearsAgain(p);
    ThenOne(c, Command(StartScan(true)));
    ThenNext(c, [Command(StartScan(true))], Command(PauseScan));
    ThenNext(c, [Command(StartScan(true))] + [Command(PauseScan)], Work(k, Well));
    es := [Command(StartScan(true))] + [Command(PauseScan)] + [Work(k, Well)] + [Command(ClearFault)];
    ThenNext(c, [Command(StartScan(true))] + [Command(PauseScan)] + [Work(k, Well)], Command(ClearFault));
  }

  lemma PausesAndParks(c: Crew, k: nat)
    requires Valid(c) && c.d.scan == Scanning && !c.d.faulted && c.d.manual == NoMove
    requires c.d.job.store.w >= 2 && c.d.job.store.h >= 2
    requires k < |c.workers| && c.workers[k].Moved? && c.workers[k].ok
    ensures var p := CommandStep(c, PauseScan); var t := WorkStep(p, k, Well);
            && p.workers == c.workers && Valid(p)
            && t.workers[k] == Wait(StepMode) && t.d.manual == NoMove && t.d.job == c.d.job
  {
    hide Store.WellSized;
  }

  // ---------------------------------------------------------------- coming back into a motion call

  /** Worker `k` is in a motion call or a sweep, and so is somebody else. */
  ghost predicate Together(c: Crew, k: nat) {
    && k < |c.workers| && c.workers[k].InMotion()
    && (c.d.manual == ManualCall || exists j :: 0 <= j < |c.workers| && j != k && c.workers[j].InMotion())
  }

  ghost predicate MeetsAfter(c: Crew, es: seq<Event>, k: nat)
    requires Valid(c)
  {
    Can(c, es) && Together(Then(c, es), k)
  }

  /** Positions from which a worker can come (back) into a motion call: all but the last leg of its loop, after a failed
      call or with no cell or row left. */
  predicate CanMoveAgain(p: Pc) {
    match p
    case Gone => false
    case Moved(_, _, _, ok) => ok
    case Reading(i, w, h, _) => i + 1 < w * h
    case Retry(i, w, h, _) => i + 1 < w * h
    case Captured(i, w, h, got, _) => got && i + 1 < w * h
    case RowMoved(_, _, _, ok) => ok
    case SweepRefused(_, _, _) => false
    case RowDone(row, _, h) => row + 1 < h
    case _ => true
  }

  function StepsToMotion(p: Pc): nat {
    if p.InMotion() then 0
    else if p.Wait? || p.RowMoved? then 1
    else if p.Moved? || p.Captured? || p.RowDone? then 2
    else if p.Reading? then 3
    else 4
  }

  /** One stretch of events that brings the worker nearer to a motion call and leaves the scan idle again. */
  lemma NearerToMotion(c: Crew, k: nat) returns (es: seq<Event>)
    requires Calm(c) && k < |c.workers| && CanMoveAgain(c.workers[k]) && !c.workers[k].InMotion()
    ensures Can(c, es) && Calm(Then(c, es)) && CanMoveAgain(Then(c, es).workers[k])
    ensures StepsToMotion(Then(c, es).workers[k]) < StepsToMotion(c.workers[k])
  {
    assert Valid(c);
    hide CommandStep, WorkStep, Calm;
    var p := c.workers[k];
    if p.Wait? {
      es := ParkedGoesOn(c, k);
    } else if p.Moved? {
      es := MovedGoesToPark(c, k);
    } else {
      WorkTowardsMotion(c, k);
      es := WorkAlone(c, k);
    }
  }

  lemma WorkTowardsMotion(c: Crew, k: nat)
    requires Calm(c) && k < |c.workers| && CanMoveAgain(c.workers[k])
    requires var p := c.workers[k]; !p.InMotion() && !p.Wait? && !p.Moved?
    ensures var t := WorkStep(c, k, Well);
            Calm(t) && CanMoveAgain(t.workers[k]) && StepsToMotion(t.workers[k]) < StepsToMotion(c.workers[k])
  {
    var p := c.workers[k];
    if p.Captured? {
      IdleCapture(c, k);
    } else if p.RowDone? {
      IdleRow(c, k);
    } else if p.Reading? {
      IdleCall(c, k);
    } else {
      IdleDecision(c, k);
    }
    hide Calm, WorkStep;
  }

  lemma WorkAlone(c: Crew, k: nat) returns (es: seq<Event>)
    requires Valid(c) && k < |c.workers|
    ensures Can(c, es) && Then(c, es) == WorkStep(c, k, Well)
  {
    es := [Work(k, Well)];
    ThenOne(c, Work(k, Well));
  }

  lemma {:induction false} ReachesMotion(c: Crew, k: nat) returns (es: seq<Event>)
    requires Calm(c) && k < |c.workers| && CanMoveAgain(c.workers[k])
    ensures MeetsAfter(c, es, k)
    decreases StepsToMotion(c.workers[k])
  {
    if c.workers[k].InMotion() {
      es := [Command(HomeNow)];
      ThenOne(c, Command(HomeNow));
    } else {
      hide Calm, CrewStep;
      var a := NearerToMotion(c, k);
      var b := ReachesMotion(Then(c, a), k);
      es := a + b;
      ThenBoth(c, a, b);
    }
  }

  lemma LastLegStays(d: Daemon, o: Outcome)
    requires d.job.store.WellSized() && !CanMoveAgain(d.pc)
    ensures !CanMoveAgain(WorkerStep(d, o).pc)
  {
    hide Marked, Store.WellSized, PickWork, StoreSample, CoordForIndex, Capture, Round2, Heard;
  }

  lemma LastLegStep(c: Crew, e: Event, k: nat)
    requires Valid(c) && Possible(c, e) && k < |c.workers| && !CanMoveAgain(c.workers[k])
    ensures !CanMoveAgain(CrewStep(c, e).workers[k])
  {
    match e
    case Command(x) =>
      SameWorker(c, CommandStep(c, x), k);
    case Work(j, o) =>
      if j == k {
        LastLegStays(Seen(c, k), o);
      }
    case Joined(_) =>
  }

  lemma {:induction false} LastLegOverRuns(c: Crew, es: seq<Event>, k: nat)
    requires Valid(c) && Can(c, es) && k < |c.workers| && !CanMoveAgain(c.workers[k])
    ensures !Together(Then(c, es), k)
    decreases |es|
  {
    if es != [] {
      LastLegStep(c, es[0], k);
      LastLegOverRuns(CrewStep(c, es[0]), es[1..], k);
    }
  }

  /** Clearing a fault, and then anything at all: worker `k` can come to move beside somebody else exactly when it is
      not on the last leg of its loop. No command is excluded: scans may be started again, over its head, at will. */
  lemma ClearingLetsMotionsMeetIff(c: Crew, k: nat)
    requires Valid(c) && c.d.manual == NoMove && c.d.job.store.w >= 2 && c.d.job.store.h >= 2 && k < |c.workers|
    ensures (exists es :: MeetsAfter(CommandStep(c, ClearFault), es, k)) <==> CanMoveAgain(c.workers[k])
  {
    ClearsAgain(c);
    var t := CommandStep(c, ClearFault);
    if CanMoveAgain(c.workers[k]) {
      var es := ReachesMotion(t, k);
    } else {
      forall es ensures !MeetsAfter(t, es, k) {
        if Can(t, es) {
          LastLegOverRuns(t, es, k);
        }
      }
    }
  }

  // ---------------------------------------------------------------- coming to write again

  /** Positions from which a worker can come to write a cell. */
  predicate CanWriteAgain(p: Pc) {
    match p
    case Gone => false
    case Moved(_, _, _, ok) => ok
    case Captured(_, _, _, got, _) => got
    case RowMoved(_, _, _, ok) => ok
    case SweepRefused(_, _, _) => false
    case SweepFinishCall(row, _, h, _) => row + 1 < h
    case RowDone(row, _, h) => row + 1 < h
    case _ => true
  }

  function LegsToWrite(p: Pc, cut: bool): nat {
    match p
    case Captured(_, _, _, _, _) => 0
    case Sampled(_, _, _, _, _) => 0
    case Reading(_, _, _, _) => 1
    case SampleRead(_, _, _) => 1
    case Retry(_, _, _, _) => 2
    case Moved(_, _, _, _) => 2
    case Sampling(_, _, _) => 2
    case MoveCall(_, _, _) => 3
    case Polling(_, _, _) => if cut then 4 else 3
    case SweepStartCall(_, _, _) => 4
    case RowMoved(_, _, _, _) => 5
    case RowMoveCall(_, _, _) => 6
    case Wait(_) => 7
    case RowDone(_, _, _) => 8
    case SweepFinishCall(_, _, _, _) => 9
    case _ => 0
  }

  lemma CallReturnsTo(c: Crew, k: nat)
    requires Valid(c) && k < |c.workers| && c.workers[k].Call()
    ensures var t := WorkStep(c, k, Well); var p := c.workers[k];
            && t.d == c.d.(live := t.d.live, cut := c.d.cut && !p.SweepStartCall?, heard := Heard(p, Well, c.d.heard))
            && t.workers == c.workers[k := CallReturns(p, c.d.cut, Well)]
  {
    hide Store.WellSized;
  }

  lemma RowMoveGoesOn(c: Crew, k: nat)
    requires Valid(c) && k < |c.workers| && c.workers[k].RowMoved? && c.workers[k].ok && c.d.scan == Scanning
    ensures var t := WorkStep(c, k, Well); var p := c.workers[k];
            t.d == c.d && t.workers == c.workers[k := SweepStartCall(p.row, p.w, p.h)]
  {
    hide Store.WellSized;
  }

  /** A worker about to pick its first row sweeps it. */
  lemma SweepsFirstRow(c: Crew, k: nat) returns (es: seq<Event>)
    requires Valid(c) && c.d.scan == Scanning && c.d.job.store.w >= 2 && c.d.job.store.h >= 2
    requires c.d.job.scanIndex == 0 && c.d.job.scanRow == 0 && k < |c.workers| && c.workers[k] == Wait(SweepMode)
    ensures Can(c, es) && var t := Then(c, es);
            && t.d == c.d.(live := t.d.live, cut := false) && t.held == c.held && |t.workers| == |c.workers|
            && forall j :: 0 <= j < |c.workers| && j != k ==> t.workers[j] == c.workers[j]
  {
    var go := Work(k, Well);
    PicksFirst(c, k);
    hide WorkerStep, Seen, Store.WellSized;
    var c1 := CrewStep(c, go);
    CallReturnsTo(c1, k);
    var c2 := CrewStep(c1, go);
    RowMoveGoesOn(c2, k);
    var c3 := CrewStep(c2, go);
    CallReturnsTo(c3, k);
    ThenOne(c, go);
    ThenNext(c, [go], go);
    ThenNext(c, [go] + [go], go);
    ThenNext(c, [go] + [go] + [go], go);
    es := [go] + [go] + [go] + [go];
  }

  /** A scan is started and stopped in sweep mode, which takes the handle away, and the fault is cleared. */
  lemma HandleGoes(c: Crew) returns (es: seq<Event>)
    requires Calm(c)
    ensures Can(c, es) && var t := Then(c, es);
            && Calm(t) && t.held == None && t.d.job.mode == SweepMode && t.d.cut == c.d.cut && t.d.writes == c.d.writes
            && |c.workers| <= |t.workers| && t.workers[..|c.workers|] == c.workers
  {
    var m, s, p, f := Command(SetMode(SweepMode, 2, 2)),
                      Command(StartScan(true)), Command(StopScan), Command(ClearFault);
    ModeChanges(c);
    var c1 := CrewStep(c, m);
    StartsAgain(c1);
    var c2 := CrewStep(c1, s);
    Stops(c2);
    var c3 := CrewStep(c2, p);
    ClearsAgain(c3);
    ThenOne(c, m);
    ThenNext(c, [m], s);
    ThenNext(c, [m] + [s], p);
    ThenNext(c, [m] + [s] + [p], f);
    es := [m] + [s] + [p] + [f];
  }

  lemma ModeChanges(c: Crew)
    requires Calm(c)
    ensures var t := CommandStep(c, SetMode(SweepMode, 2, 2));
            && Calm(t) && t.d.job.mode == SweepMode && t.d.cut == c.d.cut
            && t.d.writes == c.d.writes && t.workers == c.workers
  {
  }

  lemma Stops(c: Crew)
    requires Valid(c) && c.d.scan == Scanning && !c.d.faulted && c.d.manual == NoMove
    ensures var t := CommandStep(c, StopScan);
            t.d == c.d.(scan := Stopping) && t.held == None && t.workers == c.workers
  {
    hide Store.WellSized;
  }

  /** Somebody else's sweep: with the handle gone a start waits for nobody, and the new worker moves to its row and
      starts its sweep; then the fault is cleared. */
  lemma SomebodySweeps(c: Crew) returns (es: seq<Event>)
    requires Calm(c)
    ensures Can(c, es) && var t := Then(c, es);
            && Calm(t) && !t.d.cut && t.d.writes == c.d.writes
            && |c.workers| <= |t.workers| && forall k :: 0 <= k < |c.workers| ==> t.workers[k] == c.workers[k]
  {
    var a := HandleGoes(c);
    var c1 := Then(c, a);
    StartsAgain(c1);
    var n, start, clear := |c1.workers|, Command(StartScan(true)), Command(ClearFault);
    var c2 := CrewStep(c1, start);
    var b := SweepsFirstRow(c2, n);
    var c3 := Then(c2, b);
    ClearsAgain(c3);
    var c4 := CrewStep(c3, clear);
    forall k | 0 <= k < |c.workers| ensures c4.workers[k] == c.workers[k] {
      SameWorker(c, c1, k);
      SameWorker(c1, c2, k);
    }
    hide CrewStep, CommandStep, Calm, Then, Can, Store.WellSized;
    ThenNext(c, a, start);
    ThenBoth(c, a + [start], b);
    ThenNext(c, a + [start] + b, clear);
    es := a + [start] + b + [clear];
  }

  /** Worker `k` has written since. */
  ghost predicate WritesAfter(c: Crew, es: seq<Event>, k: nat)
    requires Valid(c)
  {
    Can(c, es) && WritesBy(Then(c, es).d.writes, k + 1) > WritesBy(c.d.writes, k + 1)
  }

  /** One stretch of events that brings the worker nearer to its write and leaves the scan idle again. */
  lemma NearerToWrite(c: Crew, k: nat) returns (es: seq<Event>)
    requires Calm(c) && k < |c.workers| && CanWriteAgain(c.workers[k])
    requires !c.workers[k].Captured? && !c.workers[k].Sampled?
    ensures Can(c, es) && var t := Then(c, es);
            && Calm(t) && CanWriteAgain(t.workers[k]) && t.d.writes == c.d.writes
            && LegsToWrite(t.workers[k], t.d.cut) < LegsToWrite(c.workers[k], c.d.cut)
  {
    assert Valid(c);
    var p := c.workers[k];
    hide CommandStep, WorkStep, Calm;
    if p.Wait? {
      es := ParkedGoesOn(c, k);
      hide Then;
    } else if p.Polling? && c.d.cut {
      es := SomebodySweeps(c);
    } else {
      WorkTowardsWrite(c, k);
      es := WorkAlone(c, k);
    }
  }

  lemma WorkTowardsWrite(c: Crew, k: nat)
    requires Calm(c) && k < |c.workers| && CanWriteAgain(c.workers[k])
    requires var p := c.workers[k]; !p.Captured? && !p.Sampled? && !p.Wait? && !(p.Polling? && c.d.cut)
    ensures var t := WorkStep(c, k, Well);
            && Calm(t) && CanWriteAgain(t.workers[k]) && t.d.writes == c.d.writes
            && LegsToWrite(t.workers[k], t.d.cut) < LegsToWrite(c.workers[k], c.d.cut)
  {
    var p := c.workers[k];
    if p.RowDone? {
      IdleRow(c, k);
    } else if p.Call() {
      IdleCall(c, k);
    } else {
      IdleDecision(c, k);
    }
    hide Calm, WorkStep;
  }

  lemma {:induction false} ReachesWrite(c: Crew, k: nat) returns (es: seq<Event>)
    requires Calm(c) && k < |c.workers| && CanWriteAgain(c.workers[k])
    ensures WritesAfter(c, es, k)
    decreases LegsToWrite(c.workers[k], c.d.cut)
  {
    if c.workers[k].Captured? || c.workers[k].Sampled? {
      es := WritesNow(c, k);
    } else {
      hide Calm, CrewStep;
      var a := NearerToWrite(c, k);
      var b := ReachesWrite(Then(c, a), k);
      es := a + b;
      ThenBoth(c, a, b);
    }
  }

  lemma WritesNow(c: Crew, k: nat) returns (es: seq<Event>)
    requires Calm(c) && k < |c.workers| && CanWriteAgain(c.workers[k])
             && (c.workers[k].Captured? || c.workers[k].Sampled?)
    ensures WritesAfter(c, es, k)
  {
    if c.workers[k].Captured? {
      IdleCapture(c, k);
    } else {
      IdleSample(c, k);
    }
    hide WorkStep;
    es := WorkAlone(c, k);
    assert (c.d.writes + [k + 1])[..|c.d.writes|] == c.d.writes;
  }

  lemma LastLegWritesNothing(d: Daemon, o: Outcome)
    requires d.job.store.WellSized() && !CanWriteAgain(d.pc)
    ensures var t := WorkerStep(d, o); !CanWriteAgain(t.pc) && t.writes == d.writes
  {
    hide Marked, Store.WellSized, PickWork, StoreSample, CoordForIndex, Capture, Round2, Heard;
  }

  lemma NoWriteInStep(c: Crew, e: Event, k: nat)
    requires Valid(c) && Possible(c, e) && k < |c.workers| && !CanWriteAgain(c.workers[k])
    ensures var t := CrewStep(c, e);
            !CanWriteAgain(t.workers[k]) && WritesBy(t.d.writes, k + 1) == WritesBy(c.d.writes, k + 1)
  {
    match e
    case Command(x) =>
      SameWorker(c, CommandStep(c, x), k);
    case Work(j, o) =>
      if j == k {
        LastLegWritesNothing(Seen(c, k), o);
      } else {
        WorkerFrame(Seen(c, j), o);
        hide WorkerStep;
        assert (c.d.writes + [j + 1])[..|c.d.writes|] == c.d.writes;
      }
    case Joined(_) =>
  }

  lemma {:induction false} NoWriteInRun(c: Crew, es: seq<Event>, k: nat)
    requires Valid(c) && Can(c, es) && k < |c.workers| && !CanWriteAgain(c.workers[k])
    ensures WritesBy(Then(c, es).d.writes, k + 1) == WritesBy(c.d.writes, k + 1)
    decreases |es|
  {
    if es != [] {
      NoWriteInStep(c, es[0], k);
      NoWriteInRun(CrewStep(c, es[0]), es[1..], k);
    }
  }

  /** Clearing a fault, and then anything at all: worker `k` can come to write again exactly when it has not failed a
      call and is not done with the last row. Even one that was stopped, whose handle nobody holds any more. */
  lemma ClearingLetsStoppedWorkerWriteIff(c: Crew, k: nat)
    requires Valid(c) && c.d.manual == NoMove && c.d.job.store.w >= 2 && c.d.job.store.h >= 2 && k < |c.workers|
    ensures (exists es :: WritesAfter(CommandStep(c, ClearFault), es, k)) <==> CanWriteAgain(c.workers[k])
  {
    ClearsAgain(c);
    var t := CommandStep(c, ClearFault);
    if CanWriteAgain(c.workers[k]) {
      var es := ReachesWrite(t, k);
    } else {
      forall es ensures !WritesAfter(t, es, k) {
        if Can(t, es) {
          NoWriteInRun(t, es, k);
        }
      }
    }
  }

  // ---------------------------------------------------------------- a start that finds the handle

  /** A start that finds the handle of a live worker waits for it: whatever happens, short of another start, no new
      worker appears before that one has left. */
  lemma StartWaitsForHandle(c: Crew, es: seq<Event>)
    requires Valid(c) && c.held.Some? && c.workers[c.held.value] != Gone && c.joining == []
    requires c.d.scan == Idle && c.d.manual == NoMove && !c.d.faulted
    requires Can(CommandStep(c, StartScan(true)), es)
    requires forall k :: 0 <= k < |es| ==> !(es[k].Command? && es[k].e.StartScan?)
    ensures var t := Then(CommandStep(c, StartScan(true)), es);
            t.workers[c.held.value] != Gone ==> |t.workers| == |c.workers|
  {
    var w := CommandStep(c, StartScan(true));
    assert w.workers == c.workers && w.joining == [c.held.value];
    WaitsOverRuns(w, es, |c.workers|, c.held.value);
  }

  /** Worker `k` is waited for by the only start there is, and has not left; or it has. */
  ghost predicate Awaited(c: Crew, n: nat, k: nat) {
    k < n <= |c.workers| && (c.workers[k] == Gone || (|c.workers| == n && c.joining == [k]))
  }

  lemma {:induction false} WaitsOverRuns(c: Crew, es: seq<Event>, n: nat, k: nat)
    requires Valid(c) && Can(c, es) && Awaited(c, n, k)
    requires forall i :: 0 <= i < |es| ==> !(es[i].Command? && es[i].e.StartScan?)
    ensures Awaited(Then(c, es), n, k)
    decreases |es|
  {
    if es != [] {
      assert !(es[0].Command? && es[0].e.StartScan?);
      WaitsInStep(c, es[0], n, k);
      WaitsOverRuns(CrewStep(c, es[0]), es[1..], n, k);
    }
  }

  lemma WaitsInStep(c: Crew, e: Event, n: nat, k: nat)
    requires Valid(c) && Possible(c, e) && Awaited(c, n, k) && !(e.Command? && e.e.StartScan?)
    ensures Awaited(CrewStep(c, e), n, k)
  {
    match e
    case Command(x) => SameWorker(c, CommandStep(c, x), k);
    case Work(j, o) => WorkerFrame(Seen(c, j), o); hide WorkerStep;
    case Joined(_) =>
  }

  // ---------------------------------------------------------------- two scan workers

  /** A scan is started, its first move is under way when it is stopped, by a stop or an e-stop, a fault is cleared,
      and a scan is started again: the handle is gone, so nobody waits for the first worker, and the second begins to
      move as well. */
  function SecondStart(estop: bool): seq<Event> {
    Stopped(estop) + [Command(StartScan(true))] + [Work(1, Well)]
  }

  function Stopped(estop: bool): seq<Event> {
    [Command(StartScan(true))] + [Work(0, Well)] + [Command(if estop then EStop else StopScan)] + [Command(ClearFault)]
  }

  lemma TwoScanWorkers(estop: bool)
    ensures var b := CrewBoot(StepMode, 2, 2);
            && Can(b, SecondStart(estop))
            && var c := Then(b, SecondStart(estop));
               |c.workers| == 2 && c.workers[0].InMotion() && c.workers[1].InMotion()
  {
    var s, go := Command(StartScan(true)), Work(1, Well);
    var b := CrewBoot(StepMode, 2, 2);
    BootIsCalm();
    hide CrewStep, Calm, Store.WellSized;
    StoppedInFirstMove(b, estop);
    var es := Stopped(estop);
    SecondMoves(Then(b, es));
    ThenNext(b, es, s);
    ThenNext(b, es + [s], go);
  }

  lemma SecondMoves(c: Crew)
    requires Calm(c) && c.held == None && |c.workers| == 1 && c.workers[0].MoveCall? && c.d.job.mode == StepMode
    ensures var c1 := CrewStep(c, Command(StartScan(true)));
            && Possible(c1, Work(1, Well))
            && var c2 := CrewStep(c1, Work(1, Well));
               |c2.workers| == 2 && c2.workers[0].InMotion() && c2.workers[1].InMotion()
  {
    StartsAgain(c);
    PicksFirst(CrewStep(c, Command(StartScan(true))), 1);
    hide CommandStep, WorkStep, Store.WellSized;
  }

  lemma StoppedInFirstMove(b: Crew, estop: bool)
    requires Calm(b) && b.workers == [] && b.held == None && b.d.job.mode == StepMode
    ensures Can(b, Stopped(estop)) && var c := Then(b, Stopped(estop));
            Calm(c) && c.held == None && |c.workers| == 1 && c.workers[0].MoveCall? && c.d.job.mode == StepMode
  {
    StopsInFirstMove(b, estop);
    hide CrewStep, Calm, Store.WellSized;
    var s, go, f := Command(StartScan(true)), Work(0, Well), Command(ClearFault);
    var p := Command(if estop then EStop else StopScan);
    ThenOne(b, s);
    ThenNext(b, [s], go);
    ThenNext(b, [s] + [go], p);
    ThenNext(b, [s] + [go] + [p], f);
  }

  lemma StopsInFirstMove(b: Crew, estop: bool)
    requires Calm(b) && b.workers == [] && b.held == None && b.d.job.mode == StepMode
    ensures var c1 := CrewStep(b, Command(StartScan(true))); var p := Command(if estop then EStop else StopScan);
            && Possible(c1, Work(0, Well))
            && var c4 := CrewStep(CrewStep(CrewStep(c1, Work(0, Well)), p), Command(ClearFault));
               Calm(c4) && c4.held == None && |c4.workers| == 1 && c4.workers[0].MoveCall? && c4.d.job.mode == StepMode
  {
    hide Step, WorkerStep, Store.WellSized;
    StartsAgain(b);
    var c1 := CrewStep(b, Command(StartScan(true)));
    PicksFirst(c1, 0);
    var c2 := CrewStep(c1, Work(0, Well));
    if estop {
      StopsAtOnce(c2);
    } else {
      Stops(c2);
    }
    var c3 := CrewStep(c2, Command(if estop then EStop else StopScan));
    ClearsAgain(c3);
  }

  lemma StopsAtOnce(c: Crew)
    requires Valid(c) && c.d.scan == Scanning
    ensures var t := CommandStep(c, EStop);
            t.d == c.d.(scan := Stopping) && t.held == None && t.workers == c.workers
  {
    hide Store.WellSized;
  }

  lemma BootIsCalm()
    ensures Calm(CrewBoot(StepMode, 2, 2)) && CrewBoot(StepMode, 2, 2).d.job.mode == StepMode
  {
  }
}
