/** The trapezoidal (or triangular) velocity profile of one axis: when each microstep pulse
    of a move of `n` steps starts, in microseconds from the start of the move.

    Seconds and speeds are reals; microseconds are integers. `std::sqrt` is the parameter
    `sqrt`, known only through `IsSqrt`. */
module StepProfile {
  import opened Arithmetic

  ghost predicate IsSqrt(sqrt: real -> real) {
    forall x: real :: x >= 0.0 ==> sqrt(x) >= 0.0 && sqrt(x) * sqrt(x) == x
  }

  /** The shape of a move: `ramp` steps of acceleration, `cruise` at full speed, `ramp` of braking. */
  datatype Profile = Profile(n: nat, accel: real, vmax: real)
  {
    predicate Valid() { n > 0 && accel > 0.0 && vmax > 0.0 }

    /** Steps needed to reach full speed from rest. */
    function RampLimit(): (q: real)
      requires Valid()
      ensures q >= 0.0
    {
      FloorNonNegative(vmax * vmax, 2.0 * accel);
      vmax * vmax / (2.0 * accel)
    }

    function Ramp(): (r: int)
      requires Valid()
      ensures 0 <= 2 * r <= n && r as real <= RampLimit()
    {
      Min(RampLimit().Floor, n / 2)
    }

    function Cruise(): (c: int)
      requires Valid()
      ensures c >= 0 && 2 * Ramp() + c == n
    {
      n - 2 * Ramp()
    }

    /** Time to cover the first `i` steps from rest at constant acceleration. */
    function RampTime(sqrt: real -> real, i: nat): real
      requires Valid()
    {
      sqrt(2.0 * i as real / accel)
    }

    function CruiseTime(): real
      requires Valid()
    {
      if Cruise() > 0 then Cruise() as real / vmax else 0.0
    }

    function AccelTime(sqrt: real -> real): real
      requires Valid()
    {
      if Ramp() > 0 then RampTime(sqrt, Ramp()) else 0.0
    }

    function TotalTime(sqrt: real -> real): real
      requires Valid()
    {
      2.0 * AccelTime(sqrt) + CruiseTime()
    }

    /** When step `i` starts, in seconds, before the clamp at zero and before rounding. */
    function StepTime(sqrt: real -> real, i: nat): real
      requires Valid() && i < n
    {
      if i < Ramp() then RampTime(sqrt, i)
      else if i < Ramp() + Cruise() then AccelTime(sqrt) + (i - Ramp()) as real / vmax
      else TotalTime(sqrt) - RampTime(sqrt, n - i)
    }

    /** The step start times in microseconds as first pushed, before the monotonicity fix-up. */
    function RoundedTime(sqrt: real -> real, i: nat): int
      requires Valid() && i < n
    {
      var t := StepTime(sqrt, i);
      LlRound((if t < 0.0 then 0.0 else t) * 1000000.0)
    }
  }

  // ---------------------------------------------------------------- the generator

  /** The list the first loop pushes. */
  function Rounded(p: Profile, sqrt: real -> real): (r: seq<nat>)
    requires p.Valid()
    ensures |r| == p.n
    ensures forall i :: 0 <= i < p.n ==> r[i] == p.RoundedTime(sqrt, i)
  {
    seq(p.n, i requires 0 <= i < p.n => p.RoundedTime(sqrt, i) as nat)
  }

  /** The fix-up pass as a recursion on prefixes: bump an entry that does not exceed its predecessor. */
  function FixUp(r: seq<nat>): (out: seq<nat>)
    ensures |out| == |r|
    ensures r != [] ==> out[0] == r[0]
  {
    if |r| <= 1 then r
    else
      var p := FixUp(r[..|r| - 1]);
      var x, prev := r[|r| - 1], p[|p| - 1];
      p + [if x <= prev then prev + 1 else x]
  }

  /** Step times of a move of `n` steps; empty when there is nothing to do or the envelope is
      not positive, which is how the generator fails closed. */
  function StepTimes(n: int, accel: real, vmax: real, sqrt: real -> real): (out: seq<nat>)
    ensures |out| == if n > 0 && accel > 0.0 && vmax > 0.0 then n else 0
  {
    if n <= 0 || accel <= 0.0 || vmax <= 0.0 then []
    else FixUp(Rounded(Profile(n, accel, vmax), sqrt))
  }

  /** The first loop: one rounded time per step. */
  method PushTimes(p: Profile, sqrt: real -> real) returns (out: seq<nat>)
    requires p.Valid()
    ensures out == Rounded(p, sqrt)
  {
    out := [];
    var ramp, cruise := p.Ramp(), p.Cruise();
    var accelTime := p.AccelTime(sqrt);
    var total := p.TotalTime(sqrt);
    for i := 0 to p.n
      invariant |out| == i
      invariant forall j :: 0 <= j < i ==> out[j] == p.RoundedTime(sqrt, j)
    {
      var t: real;
      if i < ramp {
        t := p.RampTime(sqrt, i);
      } else if i < ramp + cruise {
        t := accelTime + (i - ramp) as real / p.vmax;
      } else {
        var remaining := p.n - i;
        t := total - p.RampTime(sqrt, remaining);
      }
      if t < 0.0 {
        t := 0.0;
      }
      out := out + [LlRound(t * 1000000.0)];
    }
  }

  /** What one more entry adds to the fix-up of a prefix. */
  lemma FixUpExtend(r: seq<nat>, i: nat)
    requires 0 < i < |r|
    ensures var p := FixUp(r[..i]);
            FixUp(r[..i + 1]) == p + [if r[i] <= p[i - 1] then p[i - 1] + 1 else r[i]]
  {
    assert r[..i + 1][..i] == r[..i];
  }

  /** The second loop, in place: an entry that does not exceed its predecessor becomes predecessor + 1. */
  method MakeStrict(r: seq<nat>) returns (out: seq<nat>)
    ensures out == FixUp(r)
  {
    out := r;
    if |r| == 0 {
      return;
    }
    assert out[..1] == FixUp(r[..1]);
    for i := 1 to |out|
      invariant |out| == |r|
      invariant out[..i] == FixUp(r[..i])
      invariant forall j :: i <= j < |r| ==> out[j] == r[j]
    {
      ghost var done := out[..i];
      FixUpExtend(r, i);
      assert done[i - 1] == out[i - 1];
      if out[i] <= out[i - 1] {
        out := out[i := out[i - 1] + 1];
      }
      assert out[..i + 1] == done + [out[i]];
    }
    assert out[..|out|] == out && r[..|r|] == r;
  }

  /** The generator: fail closed, push, then patch. */
  method GenerateStepTimes(n: int, accel: real, vmax: real, sqrt: real -> real) returns (out: seq<nat>)
    ensures out == StepTimes(n, accel, vmax, sqrt)
  {
    if n <= 0 {
      return [];
    }
    if accel <= 0.0 || vmax <= 0.0 {
      return [];
    }
    var pushed := PushTimes(Profile(n, accel, vmax), sqrt);
    out := MakeStrict(pushed);
  }
}
