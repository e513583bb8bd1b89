/** Which angle belongs to which cell: where the head is sent for a cell, and to which cell a sample taken on the fly
    goes. */
module ScanGeometry {
  import opened Arithmetic
  import opened ScanMachine

  /** The angle of cell `i` of `n` along a range: the first cell at its start, the last at its end. A range of one
      cell or none is treated as having two. */
  function TargetForCell(i: int, n: int, lo: real, hi: real): real {
    lo + i as real / Intervals(n) * (hi - lo)
  }

  /** A sweep over a narrower range is taken to be this wide, in degrees. */
  const NARROWEST: real := 0.000000001

  function Intervals(n: int): (d: real)
    ensures d >= 1.0
  {
    if n - 1 > 1 then (n - 1) as real else 1.0
  }

  /** The column of a sample taken at angle `yaw` of a sweep, before it is forced into the grid. */
  function ColumnAt(yaw: real, n: int, lo: real, hi: real): int
  {
    LlRound(InCells(yaw, n, lo, hi))
  }

  function InCells(yaw: real, n: int, lo: real, hi: real): real
  {
    (yaw - lo) / (if hi - lo < NARROWEST then NARROWEST else hi - lo) * (n - 1) as real
  }

  function Between(x: real, y: real): real { if x < y then y - x else x - y }

  /** Cells are spread evenly over the range, from its one end to the other. */
  lemma CellsSpanRange(i: nat, n: nat, lo: real, hi: real)
    requires n >= 2 && i < n && lo <= hi
    ensures TargetForCell(0, n, lo, hi) == lo && TargetForCell(n - 1, n, lo, hi) == hi
    ensures lo <= TargetForCell(i, n, lo, hi) <= hi
    ensures i + 1 < n ==> TargetForCell(i + 1, n, lo, hi) - TargetForCell(i, n, lo, hi) == (hi - lo) / (n - 1) as real
  {
    var d, r := (n - 1) as real, hi - lo;
    assert i as real <= d;
    Share(i as real, d, r);
    assert TargetForCell(i, n, lo, hi) == lo + i as real / d * r;
    if i + 1 < n {
      assert TargetForCell(i + 1, n, lo, hi) == lo + (i as real + 1.0) / d * r;
      hide TargetForCell;
      OneMoreShare(i as real, d, r);
    }
  }

  lemma Share(i: real, d: real, r: real)
    requires 0.0 <= i <= d && d >= 1.0 && r >= 0.0
    ensures 0.0 <= i / d * r <= r && 0.0 / d * r == 0.0 && d / d * r == r
  {
    DivMul(i, d);
    if i / d > 1.0 {
      MulMono(1.0, i / d, d);
    }
    FloorNonNegative(i, d);
    MulMono(0.0, i / d, r);
    MulMono(i / d, 1.0, r);
  }

  lemma OneMoreShare(i: real, d: real, r: real)
    requires d >= 1.0
    ensures (i + 1.0) / d * r - i / d * r == r / d
  {
    assert (i + 1.0) / d == i / d + 1.0 / d;
    assert (i / d + 1.0 / d) * r == i / d * r + 1.0 / d * r;
    DivMul(r, d);
    DivMul(1.0, d);
    assert (1.0 / d * r) * d == r;
  }

  /** How far an angle is from a cell, in cells. */
  lemma Offset(yaw: real, c: int, n: nat, lo: real, hi: real)
    requires n >= 2 && hi - lo >= NARROWEST
    ensures var d := (n - 1) as real;
            (yaw - TargetForCell(c, n, lo, hi)) * d == (InCells(yaw, n, lo, hi) - c as real) * (hi - lo)
  {
    var d, r := (n - 1) as real, hi - lo;
    DivMul(c as real, d);
    DivMul(yaw - lo, r);
    var q, u := c as real / d, (yaw - lo) / r;
    assert InCells(yaw, n, lo, hi) == u * d;
    assert TargetForCell(c, n, lo, hi) == lo + q * r;
    assert (yaw - lo - q * r) * d == u * r * d - (q * d) * r;
    assert (u * d - c as real) * r == u * d * r - c as real * r;
  }

  lemma RoundedIsNearest(u: real, n: nat, c: nat)
    requires n >= 1 && c < n
    ensures Between(u, ClampColumn(LlRound(u), n) as real) <= Between(u, c as real)
  {
    var rounded := LlRound(u);
    hide LlRound;
    if rounded < 0 {
      assert u < 0.0 <= c as real;
    } else if rounded >= n {
      assert u > (n - 1) as real >= c as real;
    } else if c < rounded {
      assert c as real + 1.0 <= rounded as real;
    } else if c > rounded {
      assert rounded as real + 1.0 <= c as real;
    }
  }

  lemma Magnitude(x: real, s: real, u: real, i: real, d: real, r: real)
    requires d > 0.0 && r > 0.0 && (x - s) * d == (u - i) * r
    ensures Between(x, s) * d == Between(u, i) * r
  {
    SameSign(x - s, u - i, d, r);
    assert (s - x) * d == (i - u) * r;
  }

  lemma SameSign(x: real, u: real, d: real, r: real)
    requires d > 0.0 && r > 0.0 && x * d == u * r
    ensures x < 0.0 <==> u < 0.0
  {
    NegativeProduct(x, d);
    NegativeProduct(u, r);
  }

  lemma NegativeProduct(x: real, d: real)
    requires d > 0.0
    ensures x * d < 0.0 <==> x < 0.0
  {
  }

  /** The distance to a cell, in degrees and in cells. */
  lemma CellDistance(yaw: real, c: int, n: nat, lo: real, hi: real)
    requires n >= 2 && hi - lo >= NARROWEST
    ensures Between(yaw, TargetForCell(c, n, lo, hi)) * (n - 1) as real
            == Between(InCells(yaw, n, lo, hi), c as real) * (hi - lo)
  {
    Offset(yaw, c, n, lo, hi);
    var t, u := TargetForCell(c, n, lo, hi), InCells(yaw, n, lo, hi);
    hide TargetForCell, InCells, Between;
    Magnitude(yaw, t, u, c as real, (n - 1) as real, hi - lo);
  }

  lemma SameOrder(a: real, b: real, p: real, q: real, d: real, r: real)
    requires d > 0.0 && r > 0.0 && a * d == p * r && b * d == q * r && p <= q
    ensures a <= b
  {
    MulMono(p, q, r);
    CancelMul(a, b, d);
  }

  /** Nearer in cells is nearer in degrees. */
  lemma NearerInDegrees(yaw: real, x: int, c: int, n: nat, lo: real, hi: real)
    requires n >= 2 && hi - lo >= NARROWEST
    requires Between(InCells(yaw, n, lo, hi), x as real) <= Between(InCells(yaw, n, lo, hi), c as real)
    ensures Between(yaw, TargetForCell(x, n, lo, hi)) <= Between(yaw, TargetForCell(c, n, lo, hi))
  {
    var u, s, t := InCells(yaw, n, lo, hi), TargetForCell(x, n, lo, hi), TargetForCell(c, n, lo, hi);
    hide TargetForCell, InCells, Between;
    CellDistance(yaw, x, n, lo, hi);
    CellDistance(yaw, c, n, lo, hi);
    var d, r := (n - 1) as real, hi - lo;
    assert d > 0.0 && r > 0.0;
    SameOrder(Between(yaw, s), Between(yaw, t), Between(u, x as real), Between(u, c as real), d, r);
  }

  /** Every sample of a sweep goes to the cell whose angle is nearest to where the head was, even when the head was
      beyond the end of the row. */
  lemma SampleGoesToNearestCell(yaw: real, n: nat, lo: real, hi: real, c: nat)
    requires n >= 2 && hi - lo >= NARROWEST && c < n
    ensures var x := ClampColumn(ColumnAt(yaw, n, lo, hi), n);
            && x < n
            && Between(yaw, TargetForCell(x, n, lo, hi)) <= Between(yaw, TargetForCell(c, n, lo, hi))
  {
    var x := ClampColumn(ColumnAt(yaw, n, lo, hi), n);
    assert x < n;
    RoundedIsNearest(InCells(yaw, n, lo, hi), n, c);
    hide TargetForCell, ClampColumn, ColumnAt, InCells, Between;
    NearerInDegrees(yaw, x, c, n, lo, hi);
  }

  /** And a sample taken exactly where a step-mode scan would measure a cell goes to that cell. */
  lemma CellRoundTrip(n: nat, lo: real, hi: real, c: nat)
    requires n >= 2 && hi - lo >= NARROWEST && c < n
    ensures ColumnAt(TargetForCell(c, n, lo, hi), n, lo, hi) == c
    ensures ClampColumn(ColumnAt(TargetForCell(c, n, lo, hi), n, lo, hi), n) == c
  {
    var yaw := TargetForCell(c, n, lo, hi);
    Offset(yaw, c, n, lo, hi);
    var u := InCells(yaw, n, lo, hi);
    assert u == c as real by {
      assert hi - lo > 0.0;
      hide TargetForCell, InCells;
      if u != c as real {
        CancelsOut(u - c as real, hi - lo);
      }
    }
  }

  lemma CancelsOut(x: real, r: real)
    requires r > 0.0 && x * r == 0.0
    ensures x == 0.0
  {
  }
}
