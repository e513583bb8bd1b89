/** How a resolution preset and the scan range become grid sides, and what the density clamp guarantees. */
module Density {
  import opened Arithmetic
  import opened StepProfile

  const MAX_SCAN_CELLS: nat := 300000

  function Max(a: int, b: int): int { if a < b then b else a }

  /** Microsteps between samples; unknown presets mean one full step. */
  function Stride(preset: string, microsteps: int): (stride: int)
    ensures stride >= 1
  {
    var ms := Max(1, microsteps);
    if preset == "max" then 1
    else if preset == "fine" then Max(1, ms / 8)
    else if preset == "quarter" then Max(1, ms / 4)
    else if preset == "half" then Max(1, ms / 2)
    else if preset == "coarse" then Max(1, ms * 4)
    else ms
  }

  function RequestedSide(minDeg: real, maxDeg: real, microstepsPerDeg: real, stride: int): (n: int)
    requires microstepsPerDeg >= 0.0 && stride >= 1
    ensures n >= 2
  {
    Max(2, WholeStrides(InMicrosteps(Span(minDeg, maxDeg), microstepsPerDeg), stride) + 1)
  }

  function Span(minDeg: real, maxDeg: real): real { if maxDeg - minDeg < 0.0 then 0.0 else maxDeg - minDeg }

  function InMicrosteps(deg: real, microstepsPerDeg: real): real { deg * microstepsPerDeg }

  function WholeStrides(microsteps: real, stride: int): int
    requires stride >= 1
  {
    (microsteps / stride as real).Floor
  }

  function WholeSide(x: real): (m: int)
    ensures m >= 2
  {
    Max(2, x.Floor)
  }

  function ScaledSide(n: int, scale: real): (m: int)
    ensures m >= 2
  {
    WholeSide(Scaled(n, scale))
  }

  function Scaled(n: int, scale: real): real { n as real * scale }

  function Scale(w: int, h: int, sqrt: real -> real): real
    requires w * h > 0
  {
    sqrt(MAX_SCAN_CELLS as real / (w * h) as real)
  }

  /** The sides after the clamp. */
  function ClampedSides(w: int, h: int, sqrt: real -> real): (r: (int, int))
    requires w >= 2 && h >= 2
  {
    if w * h > MAX_SCAN_CELLS then (ScaledSide(w, Scale(w, h, sqrt)), ScaledSide(h, Scale(w, h, sqrt))) else (w, h)
  }

  datatype Range = Range(yawMin: real, yawMax: real, pitchMin: real, pitchMax: real)
  datatype Mechanics = Mechanics(microsteps: int, yawPerDeg: real, pitchPerDeg: real)

  /** The grid sides a preset asks for, before the clamp. */
  function RequestedSides(preset: string, m: Mechanics, r: Range): (sides: (int, int))
    requires m.yawPerDeg >= 0.0 && m.pitchPerDeg >= 0.0
    ensures sides.0 >= 2 && sides.1 >= 2
  {
    var stride := Stride(preset, m.microsteps);
    (RequestedSide(r.yawMin, r.yawMax, m.yawPerDeg, stride),
     RequestedSide(r.pitchMin, r.pitchMax, m.pitchPerDeg, stride))
  }

  // ---------------------------------------------------------------- what a preset means

  /** The presets in full motor steps: of a step of `8 * k` microsteps "fine" is an eighth, "quarter" a fourth, "half" a
      half and "coarse" four of them; "max" is one microstep whatever the driver, and any other name a full step. */
  lemma PresetsInSteps(k: nat, other: string)
    requires k > 0 && other !in ["max", "fine", "quarter", "half", "coarse"]
    ensures var ms := 8 * k;
            && Stride("fine", ms) * 8 == ms && Stride("quarter", ms) * 4 == ms && Stride("half", ms) * 2 == ms
            && Stride(other, ms) == ms && Stride("coarse", ms) == 4 * ms && Stride("max", ms) == 1
  {
    var ms := 8 * k;
    assert ms / 8 == k && ms / 4 == 2 * k && ms / 2 == 4 * k && Max(1, ms) == ms;
    assert Stride("fine", ms) == Max(1, ms / 8) && Stride("quarter", ms) == Max(1, ms / 4);
    assert Stride("half", ms) == Max(1, ms / 2) && Stride("coarse", ms) == Max(1, ms * 4);
    assert forall preset <- ["max", "fine", "quarter", "half", "coarse"] :: other != preset;
    assert Stride(other, ms) == ms;
  }

  /** A side is the number of samples that fit: the last lies within the span, one more would not; but never below two,
      and two for an empty or inverted range. */
  lemma SideCoversSpan(minDeg: real, maxDeg: real, microstepsPerDeg: real, stride: int)
    requires microstepsPerDeg >= 0.0 && stride >= 1
    ensures var n := RequestedSide(minDeg, maxDeg, microstepsPerDeg, stride);
            var span := (maxDeg - minDeg) * microstepsPerDeg;
            && span < n as real * stride as real
            && (n == 2 || (n - 1) as real * stride as real <= span)
            && (maxDeg <= minDeg ==> n == 2)
  {
    var wide := InMicrosteps(Span(minDeg, maxDeg), microstepsPerDeg);
    var fit := WholeStrides(wide, stride);
    var n := RequestedSide(minDeg, maxDeg, microstepsPerDeg, stride);
    assert n == Max(2, fit + 1);
    WideSpan(maxDeg - minDeg, Span(minDeg, maxDeg), microstepsPerDeg);
    StridesFit(wide, stride, fit + 1);
    hide RequestedSide, WholeStrides, InMicrosteps, Span;
    SideFits(n, fit, fit + 1, stride as real, (maxDeg - minDeg) * microstepsPerDeg, wide);
  }

  lemma SideFits(n: int, fit: int, next: int, stride: real, span: real, wide: real)
    requires n == Max(2, next) && next == fit + 1 >= 1 && stride >= 1.0 && span <= wide
    requires fit as real * stride <= wide < next as real * stride
    requires span == wide || fit == 0
    ensures span < n as real * stride && (n == 2 || (n - 1) as real * stride <= span)
  {
    MulMono(next as real, n as real, stride);
    if n != 2 {
      assert n - 1 == fit;
    }
  }

  lemma WideSpan(d: real, wide: real, k: real)
    requires k >= 0.0 && wide == if d < 0.0 then 0.0 else d
    ensures d * k <= wide * k && wide * k >= 0.0 && (d >= 0.0 ==> wide * k == d * k)
    ensures d <= 0.0 ==> wide * k == 0.0
  {
    MulMono(d, wide, k);
    MulMono(0.0, wide, k);
  }

  lemma StridesFit(span: real, stride: int, next: int)
    requires span >= 0.0 && stride >= 1 && next == WholeStrides(span, stride) + 1
    ensures 1 <= next && (next - 1) as real * stride as real <= span < next as real * stride as real
    ensures span == 0.0 ==> next == 1
  {
    var d := stride as real;
    FloorNonNegative(span, d);
    DivMul(span, d);
    ProductBetween(span / d, (next - 1) as real, next as real, d, span);
  }

  /** The clamp keeps the proportions: both sides shrink by one and the same factor, each to the whole cell below, but
      never below two. */
  lemma ClampKeepsProportions(w: int, h: int, sqrt: real -> real)
    requires IsSqrt(sqrt) && w >= 2 && h >= 2 && w * h > MAX_SCAN_CELLS
    ensures exists s: real ::
              && 0.0 < s < 1.0 && Scaled(w, s) * Scaled(h, s) == 300000.0
              && BelowBy(ClampedSides(w, h, sqrt).0, Scaled(w, s)) && BelowBy(ClampedSides(w, h, sqrt).1, Scaled(h, s))
  {
    var s := Scale(w, h, sqrt);
    ScaleSquare(w, h, sqrt);
    ScaleFacts(w, h, s, MAX_SCAN_CELLS as real);
    ScaledFacts(w, h, s, MAX_SCAN_CELLS as real);
    assert ClampedSides(w, h, sqrt) == (WholeSide(Scaled(w, s)), WholeSide(Scaled(h, s)));
    hide Scaled, Scale, WholeSide, BelowBy, ClampedSides;
    WholeSideIsBelow(Scaled(w, s));
    WholeSideIsBelow(Scaled(h, s));
  }

  lemma WholeSideIsBelow(x: real)
    requires x >= 0.0
    ensures BelowBy(WholeSide(x), x)
  {
  }

  /** `m` is the whole part of `x`, or two when that is less. */
  predicate BelowBy(m: int, x: real) { (m as real <= x < m as real + 1.0) || (m == 2 && x < 2.0) }

  // ---------------------------------------------------------------- the bound

  /** The scale shrinks, and the scaled sides, unrounded, hold exactly the cell budget. */
  lemma ScaleFacts(w: int, h: int, s: real, budget: real)
    requires w >= 2 && h >= 2 && budget > 0.0 && (w * h) as real > budget
    requires s >= 0.0 && s * s * (w * h) as real == budget
    ensures 0.0 < s < 1.0
    ensures (w as real * s) * (h as real * s) == budget
    ensures w as real * s < w as real && h as real * s < h as real
  {
    var n := (w * h) as real;
    assert n == w as real * h as real;
    assert (w as real * s) * (h as real * s) == s * s * n by {
      assert (w as real * s) * (h as real * s) == (s * s) * (w as real * h as real);
    }
    CancelMul(s * s, 1.0, n);
    assert 0.0 * 0.0 * n == 0.0 && 1.0 * 1.0 * n == n;
    SquareOrder(s, 1.0);
    assert w as real * (1.0 - s) > 0.0 && h as real * (1.0 - s) > 0.0;
  }

  /** For whole floors: the product of two floors is at most the product. */
  lemma FloorProduct(a: real, b: real)
    requires a >= 0.0 && b >= 0.0
    ensures a.Floor * b.Floor <= (a * b).Floor
  {
    var x, y := a.Floor as real, b.Floor as real;
    MulMono(x, a, y);
    MulMono(y, b, a);
    assert (a.Floor * b.Floor) as real == x * y;
    assert x * y <= a * b;
  }

  /** The clamp on unrounded scaled sides `a` and `b`. */
  lemma WholeSidesBound(w: int, h: int, a: real, b: real, budget: nat)
    requires w >= 2 && h >= 2 && 0.0 <= a < w as real && 0.0 <= b < h as real && a * b == budget as real
    ensures WholeSide(a) <= w && WholeSide(b) <= h
    ensures WholeSide(a) * WholeSide(b) <= Max(budget, 2 * Max(w, h))
    ensures a >= 2.0 && b >= 2.0 ==> WholeSide(a) * WholeSide(b) <= budget
  {
    if a >= 2.0 && b >= 2.0 {
      FloorProduct(a, b);
    } else if a < 2.0 {
      assert WholeSide(a) == 2;
    } else {
      assert WholeSide(b) == 2;
    }
  }

  /** Density clamp: for any budget M and scale s with s*s*w*h = M, the clamped sides only shrink, stay at
      least 2, and hold at most max(M, 2*max(w, h)) cells, and at most M when neither side bottoms out at 2. */
  lemma ClampBound(w: int, h: int, s: real, budget: nat)
    requires w >= 2 && h >= 2 && budget > 0 && w * h > budget
    requires s >= 0.0 && s * s * (w * h) as real == budget as real
    ensures 2 <= ScaledSide(w, s) <= w && 2 <= ScaledSide(h, s) <= h
    ensures ScaledSide(w, s) * ScaledSide(h, s) <= Max(budget, 2 * Max(w, h))
    ensures Scaled(w, s) >= 2.0 && Scaled(h, s) >= 2.0 ==> ScaledSide(w, s) * ScaledSide(h, s) <= budget
  {
    hide Scaled;
    ScaledFacts(w, h, s, budget as real);
    WholeSidesBound(w, h, Scaled(w, s), Scaled(h, s), budget);
  }

  predicate WithinLimit(sides: (int, int)) { sides.0 * sides.1 <= MAX_SCAN_CELLS }

  /** The request is not too slender: its longer side is less than about 75000 times the shorter. */
  predicate ClampFits(w: int, h: int) {
    MAX_SCAN_CELLS * Max(w, h) < 150001 * 150001 * Min(w, h)
  }

  /** On unrounded scaled sides: the floors fit exactly when the longer side is below half the limit plus one. */
  lemma WholeSidesMeetLimitIff(w: int, h: int, a: real, b: real)
    requires w >= 2 && h >= 2 && 0.0 <= a < w as real && 0.0 <= b < h as real
    requires a * b == MAX_SCAN_CELLS as real && (w <= h ==> a <= b) && (h <= w ==> b <= a)
    ensures WithinLimit((WholeSide(a), WholeSide(b))) <==> (if w <= h then b else a) < 150001.0
  {
    WholeSidesBound(w, h, a, b, MAX_SCAN_CELLS);
    if a < 2.0 {
      LongSide(a, b);
      assert WholeSide(a) == 2;
    } else if b < 2.0 {
      LongSide(b, a);
      assert WholeSide(b) == 2;
    } else {
      OtherSide(a, b);
      OtherSide(b, a);
    }
  }

  lemma OtherSide(a: real, b: real)
    requires a >= 2.0 && b >= 0.0 && a * b == 300000.0
    ensures b < 150001.0
  {
    MulMono(2.0, a, b);
  }

  /** Squaring turns the bound on the long scaled side `y` into one on the sides asked for. */
  lemma LongSideBelowIff(x: real, y: real, short: real, long: real, s: real)
    requires short > 0.0 && x == short * s && y == long * s && y >= 0.0 && x * y == 300000.0
    ensures y < 150001.0 <==> 300000.0 * long < 150001.0 * 150001.0 * short
  {
    assert y * short == long * x;
    assert (y * y) * short == 300000.0 * long by {
      assert (y * y) * short == y * (y * short) == y * (long * x) == long * (x * y);
    }
    SquareBelowIff(y, 150001.0);
    ScaleBelowIff(y * y, 150001.0 * 150001.0, short);
  }

  lemma SquareBelowIff(y: real, c: real)
    requires y >= 0.0 && c > 0.0
    ensures y < c <==> y * y < c * c
  {
    if c * c <= y * y {
      SquareOrder(c, y);
    } else {
      SquareOrder(y, c);
    }
  }

  lemma ScaleBelowIff(u: real, v: real, k: real)
    requires k > 0.0
    ensures u < v <==> u * k < v * k
  {
    if u < v {
      assert (v - u) * k > 0.0;
    } else {
      MulMono(v, u, k);
    }
  }

  lemma LongerSideBelowIff(w: int, h: int, s: real)
    requires w >= 2 && h >= 2 && Scaled(w, s) >= 0.0 && Scaled(h, s) >= 0.0
    requires Scaled(w, s) * Scaled(h, s) == MAX_SCAN_CELLS as real
    ensures (if w <= h then Scaled(h, s) else Scaled(w, s)) < 150001.0 <==> ClampFits(w, h)
  {
    if w <= h {
      LongSideBelowIff(Scaled(w, s), Scaled(h, s), w as real, h as real, s);
      FitsAsReals(w, h);
    } else {
      LongSideBelowIff(Scaled(h, s), Scaled(w, s), h as real, w as real, s);
      FitsAsReals(h, w);
    }
  }

  lemma ScaledInOrder(m: int, n: int, s: real)
    requires m >= 2 && s >= 0.0
    ensures Scaled(m, s) >= 0.0 && (m <= n ==> Scaled(m, s) <= Scaled(n, s))
  {
    MulMono(0.0, m as real, s);
    if m <= n {
      MulMono(m as real, n as real, s);
    }
  }

  lemma ScaledFacts(w: int, h: int, s: real, budget: real)
    requires w >= 2 && h >= 2 && budget > 0.0 && (w * h) as real > budget
    requires s >= 0.0 && s * s * (w * h) as real == budget
    ensures 0.0 <= Scaled(w, s) < w as real && 0.0 <= Scaled(h, s) < h as real && Scaled(w, s) * Scaled(h, s) == budget
    ensures (w <= h ==> Scaled(w, s) <= Scaled(h, s)) && (h <= w ==> Scaled(h, s) <= Scaled(w, s))
  {
    ScaleFacts(w, h, s, budget);
    ScaledInOrder(w, h, s);
    ScaledInOrder(h, w, s);
  }

  lemma FitsAsReals(short: int, long: int)
    ensures 300000.0 * long as real < 150001.0 * 150001.0 * short as real <==> 300000 * long < 150001 * 150001 * short
  {
    assert (300000 * long) as real == 300000.0 * long as real;
    assert (150001 * 150001 * short) as real == 150001.0 * 150001.0 * short as real;
  }

  /** Exactly when the clamp meets its own limit, in terms of the sides asked for, for a grid that was over it. */
  lemma ClampMeetsLimitIff(w: int, h: int, sqrt: real -> real)
    requires IsSqrt(sqrt) && w >= 2 && h >= 2 && w * h > MAX_SCAN_CELLS
    ensures WithinLimit(ClampedSides(w, h, sqrt)) <==> ClampFits(w, h)
  {
    hide Scaled, WholeSide, ClampFits;
    var s := Scale(w, h, sqrt);
    ScaleSquare(w, h, sqrt);
    ScaledFacts(w, h, s, MAX_SCAN_CELLS as real);
    LongerSideBelowIff(w, h, s);
    WholeSidesMeetLimitIff(w, h, Scaled(w, s), Scaled(h, s));
  }

  lemma ScaleSquare(w: int, h: int, sqrt: real -> real)
    requires IsSqrt(sqrt) && w >= 2 && h >= 2 && w * h > MAX_SCAN_CELLS
    ensures var s := Scale(w, h, sqrt); s >= 0.0 && s * s * (w * h) as real == MAX_SCAN_CELLS as real
  {
    var n := (w * h) as real;
    FloorNonNegative(MAX_SCAN_CELLS as real, n);
    DivMul(MAX_SCAN_CELLS as real, n);
  }

  /** When the short side scales below 2, the long one scales beyond half the budget. */
  lemma LongSide(a: real, b: real)
    requires 0.0 <= a < 2.0 && b >= 0.0 && a * b == 300000.0
    ensures b > 150000.0
    ensures 2 * b.Floor <= 300000 <==> b < 150001.0
  {
    assert (2.0 - a) * b > 0.0 by {
      assert a * b != 0.0 ==> b != 0.0;
    }
    assert 2.0 * b > 300000.0;
  }

  lemma GridSizeBound(w: int, h: int, sqrt: real -> real)
    requires IsSqrt(sqrt) && w >= 2 && h >= 2
    ensures var r := ClampedSides(w, h, sqrt);
            && 2 <= r.0 <= w && 2 <= r.1 <= h
            && r.0 * r.1 <= Max(MAX_SCAN_CELLS, 2 * Max(w, h))
  {
    if w * h > MAX_SCAN_CELLS {
      ScaleSquare(w, h, sqrt);
      ClampBound(w, h, Scale(w, h, sqrt), MAX_SCAN_CELLS);
    }
  }

  /** The grid part of applying a preset: the sides asked for, clamped. Whatever was asked for, the grid has
      sides of at least 2 and at most max(300000, 2 * longer side) cells; and it is within the limit of 300000
      exactly when the request was, or is not too slender. */
  method ApplyResolution(preset: string, m: Mechanics, r: Range, sqrt: real -> real) returns (width: int, height: int)
    requires IsSqrt(sqrt) && m.yawPerDeg >= 0.0 && m.pitchPerDeg >= 0.0
    ensures (width, height) == ClampedSides(RequestedSides(preset, m, r).0, RequestedSides(preset, m, r).1, sqrt)
    ensures var asked := RequestedSides(preset, m, r);
            && 2 <= width <= asked.0 && 2 <= height <= asked.1
            && width * height <= Max(MAX_SCAN_CELLS, 2 * Max(asked.0, asked.1))
            && (width * height <= MAX_SCAN_CELLS <==> WithinLimit(asked) || ClampFits(asked.0, asked.1))
  {
    var stride := Stride(preset, m.microsteps);
    width := RequestedSide(r.yawMin, r.yawMax, m.yawPerDeg, stride);
    height := RequestedSide(r.pitchMin, r.pitchMax, m.pitchPerDeg, stride);
    GridSizeBound(width, height, sqrt);
    if width * height > MAX_SCAN_CELLS {
      ClampMeetsLimitIff(width, height, sqrt);
      var scale := Scale(width, height, sqrt);
      width, height := ScaledSide(width, scale), ScaledSide(height, scale);
    }
  }

  /** A request the limit is not kept for: the "max" preset at 100 microsteps per degree of yaw and 30000 of pitch,
      over 0.09 by 99.99 degrees or so, asks for 10 by 3000000 cells, scales by 0.1, and gets 2 by 300000. */
  const SlenderMechanics := Mechanics(128, 100.0, 30000.0)
  const SlenderRange := Range(0.0, 0.09, 0.0, 2999999.0 / 30000.0)

  lemma ExtremeAspectExceedsLimit(sqrt: real -> real)
    requires IsSqrt(sqrt)
    ensures RequestedSides("max", SlenderMechanics, SlenderRange) == (10, 3000000)
    ensures ClampedSides(10, 3000000, sqrt) == (2, 300000)
    ensures !ClampFits(10, 3000000) && !WithinLimit(ClampedSides(10, 3000000, sqrt))
  {
    var s := Scale(10, 3000000, sqrt);
    ScaleSquare(10, 3000000, sqrt);
    assert s * s == 0.01;
    SquareOrder(s, 0.1);
    SquareOrder(0.1, s);
    assert s == 0.1;
    DivMul(2999999.0, 30000.0);
    assert Stride("max", 128) == 1;
    assert RequestedSide(0.0, 0.09, 100.0, 1) == 10;
    assert RequestedSide(0.0, 2999999.0 / 30000.0, 30000.0, 1) == 3000000;
  }
}
