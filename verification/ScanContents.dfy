/** What the cells of a scan hold, in either mode: the sensor's answers, each at the place where it was taken. */
module ScanContents {
  import opened Arithmetic
  import opened ScanGrid
  import opened Raster
  import opened ScanMachine

  function Gap(x: int, c: int): nat { if x < c then c - x else x - c }

  /** A column that rounding has put outside the grid counts for the nearest one inside, and no other does. */
  lemma NearestColumn(x: int, w: nat, c: nat)
    requires c < w
    ensures ClampColumn(x, w) == c <==> forall other: nat :: other < w ==> Gap(x, c) <= Gap(x, other)
  {
    var n := ClampColumn(x, w);
    assert n < w;
    if forall other: nat :: other < w ==> Gap(x, c) <= Gap(x, other) {
      assert Gap(x, c) <= Gap(x, n);
    }
  }

  /** Reading `k` was taken at cell `i`: in its row, at the column nearest to where the head was. */
  ghost predicate TakenAt(readings: seq<CellMark>, k: nat, w: nat, i: nat)
    requires k < |readings|
  {
    w > 0 && readings[k].y == i / w && ClampColumn(readings[k].x, w) == i % w
  }

  lemma TakenAtIsCellFor(readings: seq<CellMark>, k: nat, w: nat, i: nat)
    requires k < |readings| && w > 0
    ensures TakenAt(readings, k, w, i) <==> CellFor(readings[k], w) == i
  {
    var x, y := ClampColumn(readings[k].x, w), readings[k].y;
    assert i == (i / w) * w + i % w;
    if CellFor(readings[k], w) == i {
      IndexInjective(x, y, i % w, i / w, w);
    }
  }

  /** Reading `k` is the last one taken at cell `i`. */
  ghost predicate LastAt(readings: seq<CellMark>, k: nat, w: nat, i: nat) {
    && k < |readings| && TakenAt(readings, k, w, i)
    && forall j :: k < j < |readings| ==> !TakenAt(readings, j, w, i)
  }

  lemma {:induction false} ShowsTheLast(readings: seq<CellMark>, w: nat, i: nat, k: nat)
    requires w > 0 && LastAt(readings, k, w, i)
    ensures Shown(readings, w, i) == Round2(readings[k].v)
  {
    var n := |readings| - 1;
    TakenAtIsCellFor(readings, n, w, i);
    if k < n {
      forall j | k < j < n ensures !TakenAt(readings[..n], j, w, i) {
        assert !TakenAt(readings, j, w, i);
      }
      ShowsTheLast(readings[..n], w, i, k);
    }
  }

  lemma {:induction false} ShowsNothing(readings: seq<CellMark>, w: nat, i: nat)
    requires w > 0 && forall k :: 0 <= k < |readings| ==> !TakenAt(readings, k, w, i)
    ensures Shown(readings, w, i) == -1.0
  {
    if readings != [] {
      var n := |readings| - 1;
      TakenAtIsCellFor(readings, n, w, i);
      forall k | 0 <= k < n ensures !TakenAt(readings[..n], k, w, i) {
        assert !TakenAt(readings, k, w, i);
      }
      ShowsNothing(readings[..n], w, i);
    }
  }

  /** Under every interleaving and in either mode, from start-up: every cell shows the last reading taken at it since
      the grid was reset, to the centimetre, or -1 when there is none. */
  lemma CellsShowReadings(mode: Mode, w: int, h: int, es: seq<Event>, i: nat)
    requires Runs(ResetAfterExit, Boot(mode, w, h), es)
    requires i < |After(Boot(mode, w, h), es).job.store.cells|
    ensures var j := After(Boot(mode, w, h), es).job;
            && j.store.w > 0
            && (j.store.cells[i] == -1.0 || exists k: nat :: LastAt(j.readings, k, j.store.w, i))
            && forall k: nat :: LastAt(j.readings, k, j.store.w, i) ==> j.store.cells[i] == Round2(j.readings[k].v)
  {
    BootIsGood(mode, w, h);
    InvOverRuns(Boot(mode, w, h), es);
    var j := After(Boot(mode, w, h), es).job;
    hide TakenAt, LastAt, Round2, After, Runs, CoordForIndex;
    forall k: nat | LastAt(j.readings, k, j.store.w, i) ensures j.store.cells[i] == Round2(j.readings[k].v) {
      ShowsTheLast(j.readings, j.store.w, i, k);
    }
    if forall k: nat :: !LastAt(j.readings, k, j.store.w, i) {
      NoLastMeansNone(j.readings, j.store.w, i, |j.readings|);
      ShowsNothing(j.readings, j.store.w, i);
    }
  }

  /** Where any reading was taken, a last one was. */
  lemma {:induction false} NoLastMeansNone(readings: seq<CellMark>, w: nat, i: nat, n: nat)
    requires n <= |readings| && forall k: nat :: !LastAt(readings, k, w, i)
    ensures forall k :: |readings| - n <= k < |readings| ==> !TakenAt(readings, k, w, i)
  {
    if n > 0 {
      NoLastMeansNone(readings, w, i, n - 1);
      assert !LastAt(readings, |readings| - n, w, i);
    }
  }

  // ---------------------------------------------------------------- where readings come from

  /** Some sensor call of the run was answered with `v`. */
  ghost predicate Answered(es: seq<Event>, v: real) {
    exists k :: 0 <= k < |es| && es[k].Worker? && es[k].o.ok && es[k].o.v == v
  }

  ghost predicate GrowsByHeard(d: Daemon, t: Daemon, o: Outcome) {
    && (t.job.readings == d.job.readings || t.job.readings == d.job.readings + [d.heard])
    && (t.heard == d.heard || (o.ok && t.heard.v == o.v))
  }

  lemma WritingGrowsByHeard(d: Daemon, o: Outcome)
    requires d.job.store.WellSized() && (d.pc.Captured? || d.pc.Sampled?)
    ensures GrowsByHeard(d, WorkerStep(d, o), o)
  {
    hide Marked, Store.WellSized, CoordForIndex, ClampColumn, Round2;
  }

  lemma CallingGrowsByHeard(d: Daemon, o: Outcome)
    requires d.pc.Call()
    ensures GrowsByHeard(d, CallStep(d, o), o)
  {
    hide CallReturns, CoordForIndex;
  }

  lemma WorkingGrowsByHeard(d: Daemon, o: Outcome)
    requires d.job.store.WellSized() && !d.pc.Captured? && !d.pc.Sampled?
    ensures GrowsByHeard(d, WorkerStep(d, o), o)
  {
    if d.pc.Call() {
      CallingGrowsByHeard(d, o);
    }
    hide CallStep;
    hide CaptureCell, StoreSample, Store.WellSized, CoordForIndex, ClampColumn;
  }

  lemma ReadingsGrowByHeard(d: Daemon, e: Event)
    requires d.job.store.WellSized()
    ensures var t := Step(d, e);
            if e.Worker? then GrowsByHeard(d, t, e.o)
            else (t.job.readings == d.job.readings || t.job.readings == []) && t.heard == d.heard
  {
    hide WorkerStep, Store.WellSized, GrowsByHeard;
    if e.Worker? {
      if d.pc.Captured? || d.pc.Sampled? {
        WritingGrowsByHeard(d, e.o);
      } else {
        WorkingGrowsByHeard(d, e.o);
      }
    }
  }

  /** No cell value is made up: each is the answer the sensor gave in some call of the run. */
  lemma {:induction false} ReadingsWereHeard(d: Daemon, es: seq<Event>, m: CellMark)
    requires d.job.store.WellSized() && m in After(d, es).job.readings
    ensures m in d.job.readings || m == d.heard || Answered(es, m.v)
    decreases |es|
  {
    if es != [] {
      var t, rest := Step(d, es[0]), es[1..];
      ReadingsGrowByHeard(d, es[0]);
      ReadingsWereHeard(t, rest, m);
      if Answered(rest, m.v) {
        var k :| 0 <= k < |rest| && rest[k].Worker? && rest[k].o.ok && rest[k].o.v == m.v;
        assert es[k + 1] == rest[k];
      }
    }
  }
}
