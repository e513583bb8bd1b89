/** What the generated step times are worth: a speed cap that survives every phase boundary and
    rounding, the mirror symmetry of the unrounded profile, and what the fix-up pass computes. */
module ProfileLaws {
  import opened Arithmetic
  import opened Timeline
  import opened StepProfile

  /** Consecutive square roots of an arithmetic progression, below `top`, are at least 1/v apart. */
  lemma SqrtGap(x: real, y: real, step: real, top: real, v: real)
    requires x >= 0.0 && y >= 0.0 && v > 0.0 && step > 0.0
    requires y * y - x * x == step && y <= top
    requires 2.0 * top == step * v
    ensures y - x >= 1.0 / v
  {
    SquareOrder(x, y);
    var d, sum := y - x, y + x;
    assert sum * d == step;
    MulMono(sum, step * v, d);
    assert (step * v) * d == (d * v) * step;
    CancelMul(1.0, d * v, step);
    DivMul(1.0, v);
    CancelMul(1.0 / v, d, v);
  }

  // ---------------------------------------------------------------- the ramp

  lemma RampTimeSquare(p: Profile, sqrt: real -> real, i: nat)
    requires p.Valid() && IsSqrt(sqrt)
    ensures p.RampTime(sqrt, i) >= 0.0
    ensures p.RampTime(sqrt, i) * p.RampTime(sqrt, i) == 2.0 * i as real / p.accel
    ensures i == 0 ==> p.RampTime(sqrt, i) == 0.0
  {
    FloorNonNegative(2.0 * i as real, p.accel);
    var t := p.RampTime(sqrt, i);
    assert t == sqrt(2.0 * i as real / p.accel);
    if i == 0 {
      SquareOrder(t, 0.0);
    }
  }

  /** No step of the ramp is reached later than the time at which full speed is attained. */
  lemma RampTimeBound(p: Profile, sqrt: real -> real, i: nat)
    requires p.Valid() && IsSqrt(sqrt) && i <= p.Ramp()
    ensures p.RampTime(sqrt, i) <= p.vmax / p.accel
  {
    RampTimeSquare(p, sqrt, i);
    assert i as real <= p.RampLimit();
    FloorNonNegative(p.vmax, p.accel);
    RampSquares(i as real, p.vmax, p.accel);
    SquareOrder(p.RampTime(sqrt, i), p.vmax / p.accel);
  }

  lemma RampSquares(i: real, v: real, a: real)
    requires a > 0.0 && v > 0.0 && i <= v * v / (2.0 * a)
    ensures 2.0 * i / a <= (v / a) * (v / a)
  {
    var q, top, x := v * v / (2.0 * a), v / a, 2.0 * i / a;
    DivMul(v * v, 2.0 * a);
    DivMul(v, a);
    DivMul(2.0 * i, a);
    assert (top * top * a) * a == v * v by {
      assert (top * a) * (top * a) == v * v;
      assert (top * a) * (top * a) == (top * top * a) * a;
    }
    assert (2.0 * q) * a == v * v;
    CancelMul(2.0 * q, top * top * a, a);
    CancelMul(x, top * top, a);
  }

  lemma RampGap(p: Profile, sqrt: real -> real, i: nat)
    requires p.Valid() && IsSqrt(sqrt) && i < p.Ramp()
    ensures p.RampTime(sqrt, i + 1) - p.RampTime(sqrt, i) >= 1.0 / p.vmax
  {
    RampTimeSquare(p, sqrt, i);
    RampTimeSquare(p, sqrt, i + 1);
    RampTimeBound(p, sqrt, i + 1);
    var step, top := 2.0 / p.accel, p.vmax / p.accel;
    assert step > 0.0;
    RampStep(i as real, p.accel);
    assert 2.0 * top == step * p.vmax;
    SqrtGap(p.RampTime(sqrt, i), p.RampTime(sqrt, i + 1), step, top, p.vmax);
  }

  lemma RampStep(i: real, a: real)
    requires a > 0.0
    ensures 2.0 * (i + 1.0) / a - 2.0 * i / a == 2.0 / a
  {
  }

  // ---------------------------------------------------------------- the whole profile

  lemma StepTimeAtCruiseStart(p: Profile, sqrt: real -> real)
    requires p.Valid() && IsSqrt(sqrt)
    ensures p.AccelTime(sqrt) == p.RampTime(sqrt, p.Ramp())
  {
    RampTimeSquare(p, sqrt, p.Ramp());
  }

  lemma CruiseStep(i: real, v: real)
    requires v > 0.0
    ensures (i + 1.0) / v - i / v == 1.0 / v
  {
  }

  /** Speed cap: across acceleration, cruise and braking, over both joins and in the triangular
      case, consecutive steps are never closer than one period of the speed limit. */
  lemma SpeedCap(p: Profile, sqrt: real -> real, i: nat)
    requires p.Valid() && IsSqrt(sqrt) && i + 1 < p.n
    ensures p.StepTime(sqrt, i + 1) - p.StepTime(sqrt, i) >= 1.0 / p.vmax
  {
    var ramp, cruise := p.Ramp(), p.Cruise();
    StepTimeAtCruiseStart(p, sqrt);
    if i < ramp {
      RampGap(p, sqrt, i);
    } else if i < ramp + cruise {
      CruiseStep((i - ramp) as real, p.vmax);
    } else {
      RampGap(p, sqrt, p.n - i - 1);
    }
  }

  lemma FirstStepAtZero(p: Profile, sqrt: real -> real)
    requires p.Valid() && IsSqrt(sqrt)
    ensures p.StepTime(sqrt, 0) == 0.0 && p.RoundedTime(sqrt, 0) == 0
  {
    RampTimeSquare(p, sqrt, 0);
  }

  lemma {:induction false} StepTimeNonNegative(p: Profile, sqrt: real -> real, i: nat)
    requires p.Valid() && IsSqrt(sqrt) && i < p.n
    ensures p.StepTime(sqrt, i) >= 0.0
  {
    if i == 0 {
      FirstStepAtZero(p, sqrt);
    } else {
      StepTimeNonNegative(p, sqrt, i - 1);
      SpeedCap(p, sqrt, i - 1);
      FloorNonNegative(1.0, p.vmax);
    }
  }

  /** Rounding both ends of a gap keeps its whole part. */
  lemma RoundedGap(x: real, y: real, g: real)
    requires x >= 0.0 && g >= 0.0 && y - x >= g
    ensures LlRound(y) - LlRound(x) >= g.Floor
  {
    var k := g.Floor;
    assert y + 0.5 >= (x + 0.5) + k as real;
    assert (x + 0.5).Floor as real + k as real <= y + 0.5;
  }

  lemma MicrosecondGap(x: real, y: real, v: real)
    requires v > 0.0 && y - x >= 1.0 / v
    ensures y * 1000000.0 - x * 1000000.0 >= 1000000.0 / v
  {
  }

  /** The gap, in whole microseconds, that the speed limit guarantees. */
  function MinGap(vmax: real): int
    requires vmax > 0.0
  {
    (1000000.0 / vmax).Floor
  }

  lemma RoundedStepGap(p: Profile, sqrt: real -> real, i: nat)
    requires p.Valid() && IsSqrt(sqrt) && i + 1 < p.n
    ensures p.RoundedTime(sqrt, i + 1) - p.RoundedTime(sqrt, i) >= MinGap(p.vmax)
  {
    StepTimeNonNegative(p, sqrt, i);
    StepTimeNonNegative(p, sqrt, i + 1);
    SpeedCap(p, sqrt, i);
    MicrosecondGap(p.StepTime(sqrt, i), p.StepTime(sqrt, i + 1), p.vmax);
    FloorNonNegative(1000000.0, p.vmax);
    RoundedGap(p.StepTime(sqrt, i) * 1000000.0, p.StepTime(sqrt, i + 1) * 1000000.0, 1000000.0 / p.vmax);
  }

  /** Consecutive entries of `s` are at least `g` apart. */
  ghost predicate GapsAtLeast(s: seq<nat>, g: int) {
    forall i :: 0 < i < |s| ==> s[i] - s[i - 1] >= g
  }

  lemma RoundedGaps(p: Profile, sqrt: real -> real)
    requires p.Valid() && IsSqrt(sqrt)
    ensures GapsAtLeast(Rounded(p, sqrt), MinGap(p.vmax))
    ensures Rounded(p, sqrt)[0] == 0
  {
    var r := Rounded(p, sqrt);
    forall i | 0 < i < |r| ensures r[i] - r[i - 1] >= MinGap(p.vmax) {
      RoundedStepGap(p, sqrt, i - 1);
    }
    FirstStepAtZero(p, sqrt);
  }

  lemma {:induction false} FixUpIdentity(r: seq<nat>)
    requires GapsAtLeast(r, 1)
    ensures FixUp(r) == r
  {
    if |r| > 1 {
      var p := r[..|r| - 1];
      FixUpIdentity(p);
      assert r == p + [r[|r| - 1]];
    }
  }

  lemma {:induction false} GapsAscend(s: seq<nat>, g: nat, i: nat, j: nat)
    requires GapsAtLeast(s, g) && i <= j < |s|
    ensures s[j] - s[i] >= g * (j - i)
    decreases j
  {
    if i < j {
      GapsAscend(s, g, i, j - 1);
      assert g * (j - i) == g * (j - 1 - i) + g;
    }
  }

  /** Entries that differ differ by the gap. */
  lemma GapBetween(s: seq<nat>, g: nat, i: nat, j: nat)
    requires GapsAtLeast(s, g) && i < |s| && j < |s| && s[i] < s[j]
    ensures i < j && s[i] + g <= s[j]
  {
    if i > j {
      GapsMonotone(s, g, j, i);
    } else if i < j {
      GapsMonotone(s, g, i, j - 1);
    }
  }

  lemma {:induction false} GapsMonotone(s: seq<nat>, g: nat, i: nat, j: nat)
    requires GapsAtLeast(s, g) && i <= j < |s|
    ensures s[i] <= s[j]
    decreases j
  {
    if i < j {
      GapsMonotone(s, g, i, j - 1);
    }
  }

  lemma AscendingFromGaps(s: seq<nat>)
    requires GapsAtLeast(s, 1)
    ensures Ascending(s)
  {
    forall i, j | 0 <= i < j < |s| ensures s[i] < s[j] {
      GapsAscend(s, 1, i, j);
    }
  }

  /** At up to a million steps a second the fix-up changes nothing: the emitted times are the
      rounded profile, start at zero, and are at least floor(1e6 / vmax) microseconds apart. */
  lemma StepTimesAreRoundedProfile(n: int, accel: real, vmax: real, sqrt: real -> real)
    requires IsSqrt(sqrt) && n > 0 && accel > 0.0 && 0.0 < vmax <= 1000000.0
    ensures var out := StepTimes(n, accel, vmax, sqrt);
            && out == Rounded(Profile(n, accel, vmax), sqrt)
            && |out| == n && out[0] == 0
            && GapsAtLeast(out, MinGap(vmax)) && MinGap(vmax) >= 1
            && Ascending(out)
  {
    var p := Profile(n, accel, vmax);
    RoundedGaps(p, sqrt);
    assert 1000000.0 / vmax >= 1.0;
    FixUpIdentity(Rounded(p, sqrt));
    AscendingFromGaps(Rounded(p, sqrt));
  }

  // ---------------------------------------------------------------- the fix-up pass

  /** For any input list the fix-up is strictly increasing and out[i] = max over j <= i of r[j] + (i - j). */
  lemma {:induction false} FixUpFormula(r: seq<nat>, i: nat)
    requires i < |r|
    ensures forall j :: 0 <= j <= i ==> FixUp(r)[i] >= r[j] + (i - j)
    ensures exists j :: 0 <= j <= i && FixUp(r)[i] == r[j] + (i - j)
    decreases |r|
  {
    if |r| > 1 {
      var p := r[..|r| - 1];
      var k := if i < |p| then i else |p| - 1;
      FixUpFormula(p, k);
      var w :| 0 <= w <= k && FixUp(p)[k] == p[w] + (k - w);
      assert p[w] == r[w];
      if i < |p| {
        assert FixUp(r)[i] == FixUp(p)[i];
        forall j | 0 <= j <= i ensures FixUp(r)[i] >= r[j] + (i - j) {
          assert p[j] == r[j];
        }
      } else {
        forall j | 0 <= j <= i ensures FixUp(r)[i] >= r[j] + (i - j) {
          if j < i {
            assert p[j] == r[j];
          }
        }
        if r[i] <= FixUp(p)[k] {
          assert FixUp(r)[i] == r[w] + (i - w);
        } else {
          assert FixUp(r)[i] == r[i] + (i - i);
        }
      }
    } else {
      assert FixUp(r)[0] == r[0] + (0 - 0);
    }
  }

  lemma {:induction false} FixUpGaps(r: seq<nat>)
    ensures GapsAtLeast(FixUp(r), 1)
  {
    if |r| > 1 {
      FixUpGaps(r[..|r| - 1]);
    }
  }

  /** The fix-up returns the pointwise least strictly increasing list above its input. */
  lemma FixUpIsLeast(r: seq<nat>, s: seq<nat>)
    requires |s| == |r| && Ascending(s)
    requires forall i :: 0 <= i < |r| ==> r[i] <= s[i]
    ensures Ascending(FixUp(r))
    ensures forall i :: 0 <= i < |r| ==> r[i] <= FixUp(r)[i] <= s[i]
  {
    FixUpGaps(r);
    AscendingFromGaps(FixUp(r));
    forall i | 0 <= i < |r| ensures r[i] <= FixUp(r)[i] <= s[i] {
      FixUpFormula(r, i);
      assert FixUp(r)[i] >= r[i] + (i - i);
      var j :| 0 <= j <= i && FixUp(r)[i] == r[j] + (i - j);
      assert GapsAtLeast(s, 1);
      GapsAscend(s, 1, j, i);
    }
  }

  // ---------------------------------------------------------------- symmetry

  /** The unrounded profile with the arrival time appended. */
  function ArrivalTime(p: Profile, sqrt: real -> real, i: nat): real
    requires p.Valid() && i <= p.n
  {
    if i == p.n then p.TotalTime(sqrt) else p.StepTime(sqrt, i)
  }

  /** Braking mirrors accelerating: step i and step n - i are equally far from the two ends. */
  lemma ProfileSymmetry(p: Profile, sqrt: real -> real, i: nat)
    requires p.Valid() && IsSqrt(sqrt) && i <= p.n
    ensures ArrivalTime(p, sqrt, i) + ArrivalTime(p, sqrt, p.n - i) == p.TotalTime(sqrt)
  {
    if 2 * i > p.n {
      SymmetryFirstHalf(p, sqrt, p.n - i);
    } else {
      SymmetryFirstHalf(p, sqrt, i);
    }
  }

  lemma SymmetryFirstHalf(p: Profile, sqrt: real -> real, i: nat)
    requires p.Valid() && IsSqrt(sqrt) && 2 * i <= p.n
    ensures ArrivalTime(p, sqrt, i) + ArrivalTime(p, sqrt, p.n - i) == p.TotalTime(sqrt)
  {
    var ramp, cruise := p.Ramp(), p.Cruise();
    StepTimeAtCruiseStart(p, sqrt);
    FirstStepAtZero(p, sqrt);
    if i == 0 {
    } else if i < ramp {
      assert p.n - i >= ramp + cruise;
    } else if i > ramp {
      CruiseSplit((i - ramp) as real, (p.n - i - ramp) as real, p.vmax);
      assert ((i - ramp) as real + (p.n - i - ramp) as real) == cruise as real;
    } else {
      assert p.n - i == ramp + cruise;
      if cruise > 0 {
        assert p.StepTime(sqrt, i) == p.AccelTime(sqrt) + 0.0 / p.vmax;
      }
    }
  }

  lemma CruiseSplit(a: real, b: real, v: real)
    requires v > 0.0
    ensures a / v + b / v == (a + b) / v
  {
  }

  // ---------------------------------------------------------------- the shape of the profile

  /** Full speed is not exceeded after `k` steps of acceleration, and `k` steps are no more than half of the move. */
  predicate FromRest(p: Profile, k: int) {
    2 * k <= p.n && 2.0 * p.accel * k as real <= p.vmax * p.vmax
  }

  lemma FromRestIff(p: Profile, k: int)
    requires p.Valid()
    ensures FromRest(p, k) <==> k <= p.Ramp()
  {
    AtMostQuotientIff(k as real, p.vmax * p.vmax, 2.0 * p.accel);
    assert p.RampLimit() == p.vmax * p.vmax / (2.0 * p.accel);
    hide Profile.RampLimit;
    assert k <= p.RampLimit().Floor <==> k as real <= p.RampLimit();
  }

  lemma AtMostQuotientIff(x: real, y: real, c: real)
    requires c > 0.0
    ensures x <= y / c <==> c * x <= y
  {
    DivMul(y, c);
    if x <= y / c {
      MulMono(x, y / c, c);
    }
    if c * x <= y {
      CancelMul(x, y / c, c);
    }
  }

  /** Steps made in `t` seconds of constant acceleration from rest. */
  function Covered(accel: real, t: real): real { accel * t * t / 2.0 }

  /** Constant acceleration, without the square root. */
  lemma RampTimeCovers(p: Profile, sqrt: real -> real, i: nat)
    requires p.Valid() && IsSqrt(sqrt)
    ensures var t := p.RampTime(sqrt, i); t >= 0.0 && Covered(p.accel, t) == i as real
  {
    RampTimeSquare(p, sqrt, i);
    hide Profile.RampTime;
    var t := p.RampTime(sqrt, i);
    DivMul(2.0 * i as real, p.accel);
    assert p.accel * t * t == (t * t) * p.accel;
  }

  lemma CoveredInOrder(a: real, r: real, t: real)
    requires a > 0.0 && 0.0 <= r <= t
    ensures Covered(a, r) <= Covered(a, t)
  {
    MulMono(r, t, a * r);
    MulMono(a * r, a * t, t);
  }

  /** At the two ends of the ramp: as many steps from rest as the ramp has. */
  lemma RampThenCruise(p: Profile, sqrt: real -> real, i: nat)
    requires p.Valid() && IsSqrt(sqrt) && i <= p.Ramp()
    ensures ArrivalTime(p, sqrt, i) == p.RampTime(sqrt, i)
  {
    StepTimeAtCruiseStart(p, sqrt);
    if i == p.Ramp() && p.Cruise() > 0 {
      assert p.StepTime(sqrt, i) == p.AccelTime(sqrt) + 0.0 / p.vmax;
    }
  }

  lemma CruiseGap(p: Profile, sqrt: real -> real, i: nat)
    requires p.Valid() && IsSqrt(sqrt) && p.Ramp() <= i < p.n - p.Ramp()
    ensures ArrivalTime(p, sqrt, i + 1) - ArrivalTime(p, sqrt, i) == 1.0 / p.vmax
  {
    StepTimeAtCruiseStart(p, sqrt);
    CruiseStep((i - p.Ramp()) as real, p.vmax);
    if i + 1 == p.n - p.Ramp() {
      assert (i - p.Ramp()) as real + 1.0 == p.Cruise() as real;
    }
  }

  lemma BrakeGap(p: Profile, sqrt: real -> real, i: nat)
    requires p.Valid() && IsSqrt(sqrt) && p.n - p.Ramp() <= i < p.n
    ensures ArrivalTime(p, sqrt, i + 1) - ArrivalTime(p, sqrt, i)
            == p.RampTime(sqrt, p.n - i) - p.RampTime(sqrt, p.n - i - 1)
  {
    RampTimeSquare(p, sqrt, 0);
  }

  /** The whole shape, in terms of the limits alone. While full speed is not reached and half the move not passed the
      axis accelerates from rest at exactly the acceleration limit; every step that belongs neither to that nor to its
      mirror image at the end takes exactly one period of the speed limit. With the symmetry of the profile that is
      every step there is. */
  lemma ProfileShape(p: Profile, sqrt: real -> real, i: nat)
    requires p.Valid() && IsSqrt(sqrt) && i < p.n
    ensures FromRest(p, i) ==>
              p.StepTime(sqrt, i) >= 0.0 && Covered(p.accel, p.StepTime(sqrt, i)) == i as real
    ensures !FromRest(p, i + 1) && !FromRest(p, p.n - i) ==>
              ArrivalTime(p, sqrt, i + 1) - ArrivalTime(p, sqrt, i) == 1.0 / p.vmax
  {
    FromRestIff(p, i);
    FromRestIff(p, i + 1);
    FromRestIff(p, p.n - i);
    hide Covered, FromRest;
    if FromRest(p, i) {
      RampThenCruise(p, sqrt, i);
      RampTimeCovers(p, sqrt, i);
    }
    if !FromRest(p, i + 1) && !FromRest(p, p.n - i) {
      CruiseGap(p, sqrt, i);
    }
  }

  // ---------------------------------------------------------------- the acceleration limit

  /** The larger the sum, the smaller the difference, for one and the same difference of squares. */
  lemma SmallerDifference(d: real, s: real, e: real, r: real)
    requires 0.0 < s <= r && d * s == e * r && e >= 0.0
    ensures e <= d
  {
    MulMono(s, r, e);
    CancelMul(e, d, s);
  }

  lemma RampTimesAscend(p: Profile, sqrt: real -> real, i: nat, j: nat)
    requires p.Valid() && IsSqrt(sqrt) && i <= j
    ensures 0.0 <= p.RampTime(sqrt, i) <= p.RampTime(sqrt, j)
    ensures i < j ==> p.RampTime(sqrt, j) > 0.0
  {
    RampTimeSquare(p, sqrt, i);
    RampTimeSquare(p, sqrt, j);
    QuotientOrder(2.0 * i as real, 2.0 * j as real, p.accel);
    SquareOrder(p.RampTime(sqrt, i), p.RampTime(sqrt, j));
  }

  lemma QuotientOrder(x: real, y: real, a: real)
    requires a > 0.0 && 0.0 <= x <= y
    ensures x / a <= y / a && (y > 0.0 ==> y / a > 0.0)
  {
  }

  /** One more step of constant acceleration: difference times sum is 2 / accel. */
  lemma RampDifference(p: Profile, sqrt: real -> real, i: nat)
    requires p.Valid() && IsSqrt(sqrt)
    ensures var x, y := p.RampTime(sqrt, i), p.RampTime(sqrt, i + 1);
            y >= x && y + x > 0.0 && (y - x) * (y + x) == 2.0 / p.accel
  {
    RampTimesAscend(p, sqrt, i, i + 1);
    RampTimeSquare(p, sqrt, i);
    RampTimeSquare(p, sqrt, i + 1);
    RampStep(i as real, p.accel);
  }

  /** The gaps of constant acceleration shrink. */
  lemma RampGapsShrink(p: Profile, sqrt: real -> real, i: nat, j: nat)
    requires p.Valid() && IsSqrt(sqrt) && i <= j
    ensures p.RampTime(sqrt, j + 1) - p.RampTime(sqrt, j) <= p.RampTime(sqrt, i + 1) - p.RampTime(sqrt, i)
  {
    RampDifference(p, sqrt, i);
    RampDifference(p, sqrt, j);
    RampTimesAscend(p, sqrt, i, j);
    RampTimesAscend(p, sqrt, i + 1, j + 1);
    var d, s := p.RampTime(sqrt, i + 1) - p.RampTime(sqrt, i), p.RampTime(sqrt, i + 1) + p.RampTime(sqrt, i);
    var e, r := p.RampTime(sqrt, j + 1) - p.RampTime(sqrt, j), p.RampTime(sqrt, j + 1) + p.RampTime(sqrt, j);
    SmallerDifference(d, s, e, r);
  }

  /** Beyond full speed, constant acceleration would take less than a period of the speed limit per step. */
  lemma FastGap(p: Profile, sqrt: real -> real, i: nat)
    requires p.Valid() && IsSqrt(sqrt) && (i + 1) as real > p.RampLimit()
    ensures p.RampTime(sqrt, i + 1) - p.RampTime(sqrt, i) <= 2.0 / p.vmax
    ensures i as real > p.RampLimit() ==> p.RampTime(sqrt, i + 1) - p.RampTime(sqrt, i) <= 1.0 / p.vmax
  {
    var x, y, top := p.RampTime(sqrt, i), p.RampTime(sqrt, i + 1), p.vmax / p.accel;
    RampDifference(p, sqrt, i);
    BeyondFullSpeed(p, sqrt, i + 1);
    RampTimeSquare(p, sqrt, i);
    assert top > 0.0;
    assert (2.0 / p.vmax) * top == 2.0 / p.accel;
    assert (1.0 / p.vmax) * (2.0 * top) == 2.0 / p.accel;
    SmallerDifference(2.0 / p.vmax, top, y - x, y + x);
    if i as real > p.RampLimit() {
      BeyondFullSpeed(p, sqrt, i);
      SmallerDifference(1.0 / p.vmax, 2.0 * top, y - x, y + x);
    }
  }

  lemma BeyondFullSpeed(p: Profile, sqrt: real -> real, i: nat)
    requires p.Valid() && IsSqrt(sqrt) && i as real > p.RampLimit()
    ensures p.RampTime(sqrt, i) >= p.vmax / p.accel
  {
    RampTimeSquare(p, sqrt, i);
    FloorNonNegative(p.vmax, p.accel);
    FasterSquares(i as real, p.vmax, p.accel);
    SquareOrder(p.vmax / p.accel, p.RampTime(sqrt, i));
  }

  lemma FasterSquares(i: real, v: real, a: real)
    requires a > 0.0 && v > 0.0 && i > v * v / (2.0 * a)
    ensures (v / a) * (v / a) <= 2.0 * i / a
  {
    var q := v * v / (2.0 * a);
    assert (v / a) * (v / a) == 2.0 * q / a by {
      DivMul(v, a);
      DivMul(v * v, 2.0 * a);
      DivMul(2.0 * q, a);
      assert ((v / a) * (v / a)) * a * a == v * v == (2.0 * q / a) * a * a;
    }
    QuotientOrder(2.0 * q, 2.0 * i, a);
  }

  /** The profile is never more than one step ahead of constant acceleration from rest. */
  lemma {:induction false} NeverAhead(p: Profile, sqrt: real -> real, i: nat)
    requires p.Valid() && IsSqrt(sqrt) && i < p.n
    ensures ArrivalTime(p, sqrt, i + 1) >= p.RampTime(sqrt, i) >= 0.0
  {
    var ramp := p.Ramp();
    RampTimesAscend(p, sqrt, i, i + 1);
    if i < ramp {
      RampThenCruise(p, sqrt, i + 1);
    } else if i == ramp {
      RampThenCruise(p, sqrt, i);
      if i < p.n - ramp {
        CruiseGap(p, sqrt, i);
      } else {
        BrakeGap(p, sqrt, i);
        RampTimesAscend(p, sqrt, p.n - i - 1, p.n - i);
      }
    } else {
      NeverAhead(p, sqrt, i - 1);
      if i >= p.n - ramp {
        BrakeGap(p, sqrt, i);
        RampGapsShrink(p, sqrt, p.n - i - 1, i - 1);
      } else {
        CruiseNeverAhead(p, sqrt, i);
      }
    }
  }

  lemma CruiseNeverAhead(p: Profile, sqrt: real -> real, i: nat)
    requires p.Valid() && IsSqrt(sqrt) && p.Ramp() < i < p.n - p.Ramp()
    requires ArrivalTime(p, sqrt, i) >= p.RampTime(sqrt, i - 1)
    ensures ArrivalTime(p, sqrt, i + 1) >= p.RampTime(sqrt, i)
  {
    var ramp := p.Ramp();
    assert ramp == p.RampLimit().Floor;
    CruiseGap(p, sqrt, i);
    FastGap(p, sqrt, i - 1);
    if i == ramp + 1 {
      RampThenCruise(p, sqrt, ramp);
      CruiseGap(p, sqrt, ramp);
      assert 2.0 / p.vmax == 1.0 / p.vmax + 1.0 / p.vmax;
    }
  }

  /** Acceleration cap: whatever the limits and the length of the move, over both joins and while braking, step i + 1
      starts no earlier than constant acceleration from rest would have made i steps. */
  lemma AccelerationCap(p: Profile, sqrt: real -> real, i: nat)
    requires p.Valid() && IsSqrt(sqrt) && i + 1 < p.n
    ensures p.StepTime(sqrt, i + 1) >= 0.0 && Covered(p.accel, p.StepTime(sqrt, i + 1)) >= i as real
  {
    NeverAhead(p, sqrt, i);
    hide Covered;
    RampTimeCovers(p, sqrt, i);
    CoveredInOrder(p.accel, p.RampTime(sqrt, i), p.StepTime(sqrt, i + 1));
  }

  /** Rounding moves a step by at most half a microsecond. */
  lemma RoundedTimeIsNear(p: Profile, sqrt: real -> real, i: nat)
    requires p.Valid() && IsSqrt(sqrt) && i < p.n
    ensures -0.5 <= p.RoundedTime(sqrt, i) as real - p.StepTime(sqrt, i) * 1000000.0 <= 0.5
  {
    StepTimeNonNegative(p, sqrt, i);
  }
}
