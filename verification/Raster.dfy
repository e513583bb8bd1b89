/** The boustrophedon order in which a raster scan visits the grid. */
module Raster {
  import opened Arithmetic
  import opened ScanGrid

  datatype Coord = Coord(x: int, y: int)

  /** Column and row of raster index `index`: odd rows run backwards. */
  function CoordForIndex(index: nat, width: nat): Coord {
    var row := if width > 0 then index / width else 0;
    var col := if width > 0 then index % width else 0;
    Coord(if row % 2 == 1 then (width - 1) - col else col, row)
  }

  /** The explicit inverse. */
  function IndexForCoord(c: Coord, width: nat): int {
    c.y * width + if c.y % 2 == 1 then (width - 1) - c.x else c.x
  }

  lemma DivModUnique(q: nat, r: nat, w: nat)
    requires r < w
    ensures (q * w + r) / w == q && (q * w + r) % w == r
  {
    var n := q * w + r;
    assert n == (n / w) * w + n % w;
    IndexInjective(r, q, n % w, n / w, w);
  }

  /** `CoordForIndex` is a bijection from 0 .. w*h - 1 onto the grid: it lands in the grid, and
      `IndexForCoord` undoes it. */
  lemma IndexRoundTrip(index: nat, w: nat, h: nat)
    requires index < w * h
    ensures var c := CoordForIndex(index, w);
            && 0 <= c.x < w && 0 <= c.y < h
            && IndexForCoord(c, w) == index
  {
    RowInRange(index, w, h);
    assert index == (index / w) * w + index % w;
  }

  lemma RowInRange(index: nat, w: nat, h: nat)
    requires index < w * h
    ensures w > 0 && 0 <= index / w < h
  {
    var q := index / w;
    assert index == q * w + index % w;
    if q >= h {
      MulKeepsOrder(h, q, w);
    }
  }

  lemma CoordRoundTrip(c: Coord, w: nat, h: nat)
    requires 0 <= c.x < w && 0 <= c.y < h
    ensures 0 <= IndexForCoord(c, w) < w * h
    ensures CoordForIndex(IndexForCoord(c, w), w) == c
  {
    var col := if c.y % 2 == 1 then (w - 1) - c.x else c.x;
    IndexInRange(col, c.y, w, h);
    DivModUnique(c.y, col, w);
  }

  /** Row by row from the corner (0, 0): raster index `index` lies in the row of its whole width, and the first row,
      like every even one, runs forward. With the neighbour rule below there is only one such path. */
  lemma RowByRow(index: nat, w: nat, h: nat)
    requires index < w * h
    ensures var c := CoordForIndex(index, w);
            && c.y * w <= index < c.y * w + w
            && (c.y % 2 == 0 ==> c.x == index - c.y * w)
            && (c.y % 2 == 1 ==> c.x == c.y * w + w - 1 - index)
    ensures CoordForIndex(0, w) == Coord(0, 0)
  {
    RowInRange(index, w, h);
    assert index == (index / w) * w + index % w;
    DivModUnique(0, 0, w);
  }

  function Distance(a: int, b: int): nat { if a < b then b - a else a - b }

  /** Consecutive cells are neighbours: they differ by one in exactly one coordinate. */
  lemma ConsecutiveCellsTouch(index: nat, w: nat, h: nat)
    requires index + 1 < w * h
    ensures var a, b := CoordForIndex(index, w), CoordForIndex(index + 1, w);
            Distance(a.x, b.x) + Distance(a.y, b.y) == 1
  {
    RowInRange(index, w, h);
    var q, r := index / w, index % w;
    assert index == q * w + r;
    CoordAt(q, r, w);
    if r + 1 < w {
      CoordAt(q, r + 1, w);
    } else {
      assert (q + 1) * w == q * w + w;
      CoordAt(q + 1, 0, w);
    }
    hide CoordForIndex;
  }

  lemma CoordAt(q: nat, r: nat, w: nat)
    requires r < w
    ensures q * w + r >= 0
    ensures CoordForIndex(q * w + r, w) == Coord(if q % 2 == 1 then (w - 1) - r else r, q)
  {
    DivModUnique(q, r, w);
  }

  /** Cells travelled along the first `n` moves of the raster. */
  function Travel(n: nat, w: nat): nat {
    if n == 0 then 0
    else
      var a, b := CoordForIndex(n - 1, w), CoordForIndex(n, w);
      Travel(n - 1, w) + Distance(a.x, b.x) + Distance(a.y, b.y)
  }

  /** The head travels one cell per move: w*h - 1 cells in all. */
  lemma {:induction false} TravelIsOneCellPerMove(n: nat, w: nat, h: nat)
    requires n < w * h
    ensures Travel(n, w) == n
  {
    if n > 0 {
      TravelIsOneCellPerMove(n - 1, w, h);
      ConsecutiveCellsTouch(n - 1, w, h);
    }
  }

  /** The flat cell index of raster index `i`. */
  function CellOf(i: nat, w: nat): int {
    var c := CoordForIndex(i, w);
    c.y * w + c.x
  }

  /** Different raster indices are different cells, and every cell has one. */
  lemma CellOfInjective(i: nat, j: nat, w: nat, h: nat)
    requires i < w * h && j < w * h && CellOf(i, w) == CellOf(j, w)
    ensures i == j
  {
    IndexRoundTrip(i, w, h);
    IndexRoundTrip(j, w, h);
    var a, b := CoordForIndex(i, w), CoordForIndex(j, w);
    IndexInjective(a.x, a.y, b.x, b.y, w);
  }

  lemma CellOfInRange(i: nat, w: nat, h: nat)
    requires i < w * h
    ensures 0 <= CellOf(i, w) < w * h
  {
    IndexRoundTrip(i, w, h);
    var c := CoordForIndex(i, w);
    IndexInRange(c.x, c.y, w, h);
  }

  lemma CellOfOnto(cell: nat, w: nat, h: nat) returns (i: nat)
    requires cell < w * h
    ensures i < w * h && CellOf(i, w) == cell
  {
    RowInRange(cell, w, h);
    var c := Coord(cell % w, cell / w);
    CoordRoundTrip(c, w, h);
    i := IndexForCoord(c, w);
    assert cell == (cell / w) * w + cell % w;
  }

  // ---------------------------------------------------------------- a raster-filled grid

  /** The grid in which exactly raster cells 0 .. n-1 are filled, the k-th of them as the k+1-st write. */
  ghost predicate RasterFilled(s: Store, n: nat) {
    && s.WellSized() && n <= s.w * s.h && s.version == n
    && (forall k :: 0 <= k < n ==> 0 <= CellOf(k, s.w) < |s.cells| && s.cells[CellOf(k, s.w)] >= 0.0
                                   && s.cellVersion[CellOf(k, s.w)] == k + 1)
    && (forall k :: n <= k < s.w * s.h ==> 0 <= CellOf(k, s.w) < |s.cells| && s.cells[CellOf(k, s.w)] == -1.0
                                           && s.cellVersion[CellOf(k, s.w)] == 0)
  }

  lemma EmptyIsRasterFilled(s: Store)
    requires s.WellSized() && s.version == 0
    requires forall i :: 0 <= i < |s.cells| ==> s.cells[i] == -1.0 && s.cellVersion[i] == 0
    ensures RasterFilled(s, 0)
  {
    forall k | 0 <= k < s.w * s.h ensures 0 <= CellOf(k, s.w) < |s.cells| {
      CellOfInRange(k, s.w, s.h);
    }
  }

  /** Marking the next raster cell extends the filled prefix by one. */
  lemma MarkExtendsRaster(s: Store, n: nat, v: real)
    requires RasterFilled(s, n) && n < s.w * s.h && v >= 0.0
    ensures var c := CoordForIndex(n, s.w); RasterFilled(Marked(s, c.x, c.y, v), n + 1)
  {
    var c := CoordForIndex(n, s.w);
    IndexRoundTrip(n, s.w, s.h);
    IndexInRange(c.x, c.y, s.w, s.h);
    var s' := Marked(s, c.x, c.y, v);
    forall k | 0 <= k < s.w * s.h && k != n
      ensures 0 <= CellOf(k, s.w) < |s.cells| && s'.cells[CellOf(k, s.w)] == s.cells[CellOf(k, s.w)]
              && s'.cellVersion[CellOf(k, s.w)] == s.cellVersion[CellOf(k, s.w)]
    {
      CellOfInRange(k, s.w, s.h);
      if CellOf(k, s.w) == CellOf(n, s.w) {
        CellOfInjective(k, n, s.w, s.h);
      }
    }
  }

  /** The filled cells of a raster-filled grid are exactly the image of 0 .. n-1, each written once. */
  lemma FilledCellsAreThePrefix(s: Store, n: nat, cell: nat)
    requires RasterFilled(s, n) && cell < |s.cells|
    ensures s.cells[cell] >= 0.0 <==> exists k :: 0 <= k < n && CellOf(k, s.w) == cell
    ensures n == s.w * s.h ==> s.cells[cell] >= 0.0
  {
    var i := CellOfOnto(cell, s.w, s.h);
    forall k | 0 <= k < n && CellOf(k, s.w) == cell ensures k == i {
      CellOfInjective(k, i, s.w, s.h);
    }
  }

  /** A delta from cursor `since` at the current generation carries exactly raster cells since .. n-1. */
  lemma RasterDelta(s: Store, n: nat, since: nat, gu: GridUpdate, k: nat)
    requires RasterFilled(s, n) && IsUpdate(s, since, s.generation, gu) && k < s.w * s.h
    ensures CellOf(k, s.w) in gu.idx <==> since <= k < n
  {
    CellOfInRange(k, s.w, s.h);
    assert Ships(s, since, false, CellOf(k, s.w)) <==> since <= k < n;
  }
}
