/** The scan grid with its incremental-update bookkeeping, as the edge daemon and the Go simulator keep it.

    `Store` is the value (cells flattened row-major); `GridStore` is the object with the source's nested
    rows, whose methods are proved against the functions on `Store`. */
module ScanGrid {
  import opened Arithmetic
  import opened Timeline

  datatype Store = Store(w: nat, h: nat, cells: seq<real>, cellVersion: seq<nat>, generation: nat, version: nat)
  {
    ghost predicate WellSized() { |cells| == w * h && |cellVersion| == w * h }

    /** Unfilled cells are exactly -1 and unversioned; versions are handed out once each. */
    ghost predicate Good() {
      && WellSized() && generation >= 1
      && (forall i :: 0 <= i < |cells| ==> (cells[i] >= 0.0 <==> cellVersion[i] > 0))
      && (forall i :: 0 <= i < |cells| ==> cells[i] < 0.0 ==> cells[i] == -1.0)
      && (forall i :: 0 <= i < |cellVersion| ==> cellVersion[i] <= version)
      && (forall i, j :: 0 <= i < j < |cellVersion| && cellVersion[i] > 0 ==> cellVersion[i] != cellVersion[j])
    }
  }

  /** A fresh value sequence of `n` entries. */
  function Fill<T>(n: nat, v: T): (s: seq<T>)
    ensures |s| == n && forall i :: 0 <= i < n ==> s[i] == v
  {
    seq(n, _ => v)
  }

  function NonNegative(x: int): nat { if x < 0 then 0 else x }

  /** Resize: an empty grid of a new generation. */
  function Rebuilt(s: Store, width: int, height: int): Store {
    var w, h := NonNegative(width), NonNegative(height);
    Store(w, h, Fill(w * h, -1.0), Fill(w * h, 0), s.generation + 1, 0)
  }

  /** Wipe in place: same size, new generation. */
  function Cleared(s: Store): Store {
    s.(cells := Fill(|s.cells|, -1.0), cellVersion := Fill(|s.cellVersion|, 0),
       generation := s.generation + 1, version := 0)
  }

  predicate InGrid(s: Store, x: int, y: int) { 0 <= x < s.w && 0 <= y < s.h }

  lemma IndexInRange(x: int, y: int, w: nat, h: nat)
    requires 0 <= x < w && 0 <= y < h
    ensures 0 <= y * w + x < w * h
  {
    assert (y + 1) * w <= h * w;
    assert (y + 1) * w == y * w + w;
    assert y * w >= 0;
  }

  lemma IndexInjective(x: int, y: int, x': int, y': int, w: nat)
    requires 0 <= x < w && 0 <= x' < w && y * w + x == y' * w + x'
    ensures x == x' && y == y'
  {
    if y < y' {
      MulStep(y, y', w);
    } else if y' < y {
      MulStep(y', y, w);
    }
  }

  /** Write one cell and stamp it with the next version; out-of-range coordinates are ignored. */
  function Marked(s: Store, x: int, y: int, v: real): (s': Store)
    requires s.WellSized()
    ensures s'.WellSized() && s'.w == s.w && s'.h == s.h && s'.generation == s.generation
  {
    if !InGrid(s, x, y) then s
    else
      IndexInRange(x, y, s.w, s.h);
      var i := y * s.w + x;
      s.(cells := s.cells[i := v], cellVersion := s.cellVersion[i := s.version + 1], version := s.version + 1)
  }

  /** What a mark leaves behind: in the grid, the value and the next version at its cell, and every other cell as it
      was; outside, nothing. */
  lemma MarkedCell(s: Store, x: int, y: int, v: real, cx: nat, cy: nat)
    requires s.WellSized() && cx < s.w && cy < s.h
    ensures var i, t := cy * s.w + cx, Marked(s, x, y, v);
            && 0 <= i < |s.cells| == |t.cells| && |s.cellVersion| == |t.cellVersion| == |s.cells|
            && (if x == cx && y == cy then t.cells[i] == v && t.cellVersion[i] == t.version == s.version + 1
                else t.cells[i] == s.cells[i] && t.cellVersion[i] == s.cellVersion[i])
            && ((x < 0 || x >= s.w || y < 0 || y >= s.h) ==> t == s)
  {
    IndexInRange(cx, cy, s.w, s.h);
    if InGrid(s, x, y) {
      IndexInRange(x, y, s.w, s.h);
      if y * s.w + x == cy * s.w + cx {
        IndexInjective(x, y, cx, cy, s.w);
      }
    }
  }

  /** A grid in which nothing has been written. */
  ghost predicate IsBlank(s: Store) {
    && s.WellSized() && s.version == 0
    && forall i :: 0 <= i < |s.cells| ==> s.cells[i] == -1.0 && s.cellVersion[i] == 0
  }

  // ---------------------------------------------------------------- updates

  datatype GridUpdate = GridUpdate(generation: nat, version: nat, width: nat, height: nat, full: bool,
                                   idx: seq<nat>, val: seq<real>)

  /** Cell `i` goes into an update: it is filled, and the client is stale or has not seen it. */
  predicate Ships(s: Store, since: nat, full: bool, i: nat)
    requires i < |s.cells| == |s.cellVersion|
  {
    s.cells[i] >= 0.0 && (full || s.cellVersion[i] > since)
  }

  /** The update the server computes for a cursor: exactly the shipped cells, in row-major order. */
  ghost predicate IsUpdate(s: Store, since: nat, gen: nat, gu: GridUpdate)
    requires s.WellSized()
  {
    && gu.generation == s.generation && gu.version == s.version && gu.width == s.w && gu.height == s.h
    && gu.full == (gen != s.generation)
    && ListsCells(s, since, gu.full, gu.idx, gu.val, |s.cells|)
  }

  ghost predicate ListsCells(s: Store, since: nat, full: bool, idx: seq<nat>, val: seq<real>, n: nat)
    requires s.WellSized() && n <= |s.cells|
  {
    && |idx| == |val| && Ascending(idx)
    && (forall k :: 0 <= k < |idx| ==> idx[k] < n && val[k] == s.cells[idx[k]])
    && (forall i :: 0 <= i < n ==> (i in idx <==> Ships(s, since, full, i)))
  }

  lemma ListOneMore(s: Store, since: nat, full: bool, idx: seq<nat>, val: seq<real>, n: nat)
    requires s.WellSized() && n < |s.cells| && ListsCells(s, since, full, idx, val, n)
    ensures Ships(s, since, full, n) ==> ListsCells(s, since, full, idx + [n], val + [s.cells[n]], n + 1)
    ensures !Ships(s, since, full, n) ==> ListsCells(s, since, full, idx, val, n + 1)
  {
    assert n !in idx;
    var idx' := idx + [n];
    assert forall i: nat :: i in idx' <==> i in idx || i == n;
  }

  // ---------------------------------------------------------------- the object

  function Flatten(rows: seq<seq<real>>): seq<real> {
    if rows == [] then [] else Flatten(rows[..|rows| - 1]) + rows[|rows| - 1]
  }

  ghost predicate Rectangular(rows: seq<seq<real>>, w: nat) {
    forall y :: 0 <= y < |rows| ==> |rows[y]| == w
  }

  lemma {:induction false} FlattenSize(rows: seq<seq<real>>, w: nat)
    requires Rectangular(rows, w)
    ensures |Flatten(rows)| == w * |rows|
  {
    if rows != [] {
      FlattenSize(rows[..|rows| - 1], w);
      assert w * |rows| == w * (|rows| - 1) + w;
    }
  }

  lemma {:induction false} FlattenAt(rows: seq<seq<real>>, w: nat, x: nat, y: nat)
    requires Rectangular(rows, w) && x < w && y < |rows|
    ensures y * w + x < |Flatten(rows)| && Flatten(rows)[y * w + x] == rows[y][x]
  {
    FlattenSize(rows, w);
    IndexInRange(x, y, w, |rows|);
    var p := rows[..|rows| - 1];
    FlattenSize(p, w);
    if y < |p| {
      FlattenAt(p, w, x, y);
    } else {
      assert y * w == w * |p|;
    }
  }

  lemma {:induction false} FlattenConcat(a: seq<seq<real>>, b: seq<seq<real>>)
    ensures Flatten(a + b) == Flatten(a) + Flatten(b)
  {
    if b == [] {
      assert a + b == a;
    } else {
      var q := b[..|b| - 1];
      assert (a + b)[..|a + b| - 1] == a + q;
      FlattenConcat(a, q);
    }
  }

  /** Cutting out one row cuts out one stretch. */
  lemma FlattenAround(rows: seq<seq<real>>, y: nat, row: seq<real>)
    requires y < |rows|
    ensures Flatten(rows[y := row]) == Flatten(rows[..y]) + row + Flatten(rows[y + 1..])
  {
    assert rows[y := row] == rows[..y] + [row] + rows[y + 1..];
    FlattenConcat(rows[..y] + [row], rows[y + 1..]);
    assert (rows[..y] + [row])[..y] == rows[..y];
  }

  lemma UpdateInside<T>(a: seq<T>, b: seq<T>, c: seq<T>, i: nat, v: T)
    requires i < |b|
    ensures (a + b + c)[|a| + i := v] == a + b[i := v] + c
  {
  }

  lemma FlattenUpdateRow(rows: seq<seq<real>>, y: nat, x: nat, v: real)
    requires y < |rows| && x < |rows[y]|
    ensures var n := |Flatten(rows[..y])|;
            n + x < |Flatten(rows)| && Flatten(rows[y := rows[y][x := v]]) == Flatten(rows)[n + x := v]
  {
    hide Flatten;
    var row, row' := rows[y], rows[y][x := v];
    FlattenAround(rows, y, row);
    FlattenAround(rows, y, row');
    assert rows[y := row] == rows;
    UpdateInside(Flatten(rows[..y]), row, Flatten(rows[y + 1..]), x, v);
  }

  lemma RowStart(rows: seq<seq<real>>, w: nat, y: nat) returns (n: nat)
    requires Rectangular(rows, w) && y <= |rows|
    ensures n == |Flatten(rows[..y])| == y * w
  {
    var p := rows[..y];
    FlattenSize(p, w);
    n := |Flatten(p)|;
    assert |p| == y;
  }

  lemma FlattenUpdate(rows: seq<seq<real>>, w: nat, x: nat, y: nat, v: real)
    requires Rectangular(rows, w) && x < w && y < |rows|
    ensures y * w + x < |Flatten(rows)|
    ensures Flatten(rows[y := rows[y][x := v]]) == Flatten(rows)[y * w + x := v]
  {
    var n := RowStart(rows, w, y);
    assert |rows[y]| == w;
    FlattenUpdateRow(rows, y, x, v);
    hide Flatten, Rectangular;
    assert n + x == y * w + x;
  }

  lemma {:induction false} FlattenFill(w: nat, h: nat, v: real)
    ensures Flatten(Fill(h, Fill(w, v))) == Fill(w * h, v)
  {
    if h > 0 {
      FlattenFill(w, h - 1, v);
      assert Fill(h, Fill(w, v))[..h - 1] == Fill(h - 1, Fill(w, v));
      assert w * h == w * (h - 1) + w;
    }
  }

  class GridStore {
    var grid: seq<seq<real>>
    var cellVersion: seq<nat>
    var generation: nat
    var version: nat
    var gridW: nat
    var gridH: nat

    ghost predicate Valid()
      reads this
    {
      |grid| == gridH && Rectangular(grid, gridW) && |cellVersion| == gridW * gridH
    }

    ghost function View(): Store
      reads this
    {
      Store(gridW, gridH, Flatten(grid), cellVersion, generation, version)
    }

    constructor ()
      ensures Valid() && View() == Store(0, 0, [], [], 0, 0)
    {
      grid, cellVersion, generation, version, gridW, gridH := [], [], 0, 0, 0, 0;
    }

    method RebuildGrid(width: int, height: int)
      requires Valid()
      modifies this
      ensures Valid() && View() == Rebuilt(old(View()), width, height) && View().Good()
      ensures (width >= 0 ==> gridW == width) && (height >= 0 ==> gridH == height)
      ensures (width < 0 ==> gridW == 0) && (height < 0 ==> gridH == 0)
      ensures IsBlank(View()) && generation == old(generation) + 1
    {
      gridW := NonNegative(width);
      gridH := NonNegative(height);
      grid := Fill(gridH, Fill(gridW, -1.0));
      cellVersion := Fill(gridW * gridH, 0);
      generation := generation + 1;
      version := 0;
      FlattenFill(gridW, gridH, -1.0);
    }

    method ClearGrid()
      requires Valid()
      modifies this
      ensures Valid() && View() == Cleared(old(View())) && View().Good()
      ensures gridW == old(gridW) && gridH == old(gridH) && IsBlank(View()) && generation == old(generation) + 1
    {
      FlattenSize(grid, gridW);
      var y := 0;
      while y < |grid|
        invariant 0 <= y <= |grid| == gridH
        invariant Rectangular(grid, gridW)
        invariant forall r :: 0 <= r < y ==> grid[r] == Fill(gridW, -1.0)
        invariant cellVersion == old(cellVersion) && gridW == old(gridW) && gridH == old(gridH)
        invariant generation == old(generation)
      {
        grid := grid[y := Fill(|grid[y]|, -1.0)];
        y := y + 1;
      }
      cellVersion := Fill(|cellVersion|, 0);
      generation := generation + 1;
      version := 0;
      FlattenFill(gridW, gridH, -1.0);
      assert grid == Fill(gridH, Fill(gridW, -1.0));
    }

    method MarkCell(x: int, y: int, value: real)
      requires Valid()
      modifies this
      ensures Valid() && old(View()).WellSized() && View() == Marked(old(View()), x, y, value)
      ensures 0 <= x < gridW && 0 <= y < gridH ==>
                && 0 <= y * gridW + x < |old(View()).cells|
                && View().cells == old(View()).cells[y * gridW + x := value]
                && View().cellVersion == old(View()).cellVersion[y * gridW + x := version]
                && version == old(version) + 1
      ensures !(0 <= x < gridW && 0 <= y < gridH) ==> View() == old(View())
    {
      FlattenSize(grid, gridW);
      if x < 0 || y < 0 || x >= gridW || y >= gridH {
        return;
      }
      IndexInRange(x, y, gridW, gridH);
      FlattenUpdate(grid, gridW, x, y, value);
      grid := grid[y := grid[y][x := value]];
      version := version + 1;
      cellVersion := cellVersion[y * gridW + x := version];
    }

    /** The polled read: all filled cells for a stale client, otherwise those changed since its version. */
    method GetGridUpdate(since: nat, clientGeneration: nat) returns (gu: GridUpdate)
      requires Valid()
      ensures View().WellSized() && IsUpdate(View(), since, clientGeneration, gu)
    {
      FlattenSize(grid, gridW);
      ghost var s := View();
      var full := clientGeneration != generation;
      var idx: seq<nat>, val: seq<real> := [], [];
      var i := 0;
      for y := 0 to gridH
        invariant i == |Flatten(grid[..y])| <= |s.cells|
        invariant ListsCells(s, since, full, idx, val, i)
      {
        FlattenRow(grid, y);
        idx, val, i := ScanRow(s, y, i, since, full, idx, val);
      }
      assert grid[..gridH] == grid;
      gu := GridUpdate(generation, version, gridW, gridH, full, idx, val);
    }

    /** The inner loop: row `y`, whose first cell has flat index `start`. */
    method ScanRow(ghost s: Store, y: nat, start: nat, since: nat, full: bool, idx0: seq<nat>, val0: seq<real>)
      returns (idx: seq<nat>, val: seq<real>, i: nat)
      requires Valid() && View() == s && s.WellSized() && y < gridH && start + gridW <= |s.cells|
      requires s.cells[start..start + gridW] == grid[y]
      requires ListsCells(s, since, full, idx0, val0, start)
      ensures i == start + gridW
      ensures ListsCells(s, since, full, idx, val, i)
    {
      idx, val, i := idx0, val0, start;
      for x := 0 to gridW
        invariant i == start + x
        invariant ListsCells(s, since, full, idx, val, i)
      {
        var v := grid[y][x];
        assert v == s.cells[start..start + gridW][x];
        ListOneMore(s, since, full, idx, val, i);
        if v >= 0.0 && (full || cellVersion[i] > since) {
          idx, val := idx + [i], val + [v];
        }
        i := i + 1;
      }
    }
  }

  /** Row `y` follows the rows before it. */
  lemma {:induction false} FlattenRow(rows: seq<seq<real>>, y: nat)
    requires y < |rows|
    ensures var n := |Flatten(rows[..y])|;
            && n + |rows[y]| == |Flatten(rows[..y + 1])| <= |Flatten(rows)|
            && Flatten(rows)[n..n + |rows[y]|] == rows[y]
  {
    var p := rows[..|rows| - 1];
    assert rows[..y + 1][..y] == rows[..y];
    if y == |p| {
      assert rows[..y + 1] == rows;
    } else {
      FlattenRow(p, y);
      assert p[..y] == rows[..y] && p[..y + 1] == rows[..y + 1];
    }
  }

  // ---------------------------------------------------------------- one generation's history

  /** `b` is `a` at a later moment: a later generation, or the same grid with cells rewritten since. */
  ghost predicate Later(a: Store, b: Store)
    requires a.WellSized() && b.WellSized()
  {
    || a.generation < b.generation
    || (&& a.generation == b.generation && a.w == b.w && a.h == b.h && a.version <= b.version
        && (forall i :: 0 <= i < |a.cells| ==>
              b.cellVersion[i] > a.version || (b.cells[i] == a.cells[i] && b.cellVersion[i] == a.cellVersion[i])))
  }

  lemma LaterTransitive(a: Store, b: Store, c: Store)
    requires a.WellSized() && b.WellSized() && c.WellSized()
    requires Later(a, b) && Later(b, c)
    ensures Later(a, c)
  {
  }

  lemma MutationsAreLater(s: Store, x: int, y: int, v: real, width: int, height: int)
    requires s.Good() && v >= 0.0
    ensures Marked(s, x, y, v).Good() && Later(s, Marked(s, x, y, v))
    ensures Cleared(s).Good() && Later(s, Cleared(s))
    ensures Rebuilt(s, width, height).Good() && Later(s, Rebuilt(s, width, height))
  {
    if InGrid(s, x, y) {
      IndexInRange(x, y, s.w, s.h);
    }
  }

  // ---------------------------------------------------------------- delta economy

  datatype CellMark = CellMark(x: int, y: int, v: real)

  function MarkAll(s: Store, ms: seq<CellMark>): (s': Store)
    requires s.WellSized()
    ensures s'.WellSized() && s'.w == s.w && s'.h == s.h && s'.generation == s.generation
  {
    if ms == [] then s
    else
      var m := ms[|ms| - 1];
      Marked(MarkAll(s, ms[..|ms| - 1]), m.x, m.y, m.v)
  }

  /** Cell `i` is written by one of the marks. */
  ghost predicate Hits(s: Store, ms: seq<CellMark>, i: nat) {
    exists k :: 0 <= k < |ms| && InGrid(s, ms[k].x, ms[k].y) && ms[k].y * s.w + ms[k].x == i
  }

  lemma HitsAppend(s: Store, ms: seq<CellMark>, m: CellMark, i: nat)
    ensures Hits(s, ms + [m], i) <==> Hits(s, ms, i) || (InGrid(s, m.x, m.y) && m.y * s.w + m.x == i)
  {
    var ms' := ms + [m];
    if Hits(s, ms, i) {
      var k :| 0 <= k < |ms| && InGrid(s, ms[k].x, ms[k].y) && ms[k].y * s.w + ms[k].x == i;
      assert ms'[k] == ms[k];
    }
    if InGrid(s, m.x, m.y) && m.y * s.w + m.x == i {
      assert ms'[|ms|] == m;
    }
  }

  lemma {:induction false} MarkAllVersions(s: Store, ms: seq<CellMark>, i: nat)
    requires s.Good() && i < |s.cells| && (forall k :: 0 <= k < |ms| ==> ms[k].v >= 0.0)
    ensures MarkAll(s, ms).Good() && s.version <= MarkAll(s, ms).version <= s.version + |ms|
    ensures MarkAll(s, ms).cellVersion[i] > s.version <==> Hits(s, ms, i)
  {
    if ms != [] {
      var p, m := ms[..|ms| - 1], ms[|ms| - 1];
      assert ms == p + [m];
      MarkAllVersions(s, p, i);
      var t := MarkAll(s, p);
      MutationsAreLater(t, m.x, m.y, m.v, 0, 0);
      HitsAppend(s, p, m, i);
    }
  }

  /** A delta taken at the version a client has seen ships exactly the cells marked since then. */
  lemma DeltaIsWhatWasMarked(s: Store, ms: seq<CellMark>, gu: GridUpdate)
    requires s.Good() && (forall k :: 0 <= k < |ms| ==> ms[k].v >= 0.0)
    requires IsUpdate(MarkAll(s, ms), s.version, s.generation, gu)
    ensures forall i: nat :: i in gu.idx <==> i < |s.cells| && Hits(s, ms, i)
  {
    var t := MarkAll(s, ms);
    forall i: nat ensures i in gu.idx <==> i < |s.cells| && Hits(s, ms, i) {
      if i < |s.cells| {
        MarkAllVersions(s, ms, i);
      }
    }
  }

  /** Distinct numbers in (lo, hi] are at most hi - lo many. */
  lemma {:induction false} Pigeonhole(vals: seq<nat>, lo: nat, hi: nat)
    requires lo <= hi
    requires forall k :: 0 <= k < |vals| ==> lo < vals[k] <= hi
    requires forall k, l :: 0 <= k < l < |vals| ==> vals[k] != vals[l]
    ensures |vals| <= hi - lo
    decreases hi
  {
    if vals != [] {
      assert lo < vals[0] <= hi;
      if k :| 0 <= k < |vals| && vals[k] == hi {
        Pigeonhole(vals[..k] + vals[k + 1..], lo, hi - 1);
      } else {
        Pigeonhole(vals, lo, hi - 1);
      }
    }
  }

  /** A delta is never longer than the number of marks the client is behind. */
  lemma DeltaIsShort(s: Store, since: nat, gu: GridUpdate)
    requires s.Good() && since <= s.version && IsUpdate(s, since, s.generation, gu)
    ensures |gu.idx| <= s.version - since
  {
    var vals := seq(|gu.idx|, k requires 0 <= k < |gu.idx| => s.cellVersion[gu.idx[k]]);
    forall k | 0 <= k < |vals| ensures since < vals[k] <= s.version {
      assert gu.idx[k] in gu.idx;
    }
    forall k, l | 0 <= k < l < |vals| ensures vals[k] != vals[l] {
      assert gu.idx[k] < gu.idx[l];
    }
    Pigeonhole(vals, since, s.version);
  }
}
