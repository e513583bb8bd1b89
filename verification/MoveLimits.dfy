/** What a planned move asks of the motor, in the units of the limits: its step times against the speed and the
    acceleration in force, overrides included. */
module MoveLimits {
  import opened Timeline
  import opened StepProfile
  import opened ProfileLaws
  import opened StepperAxis

  /** `limit` is in force: the override when it is positive, otherwise the envelope's own. */
  predicate InForce(limit: real, override: real, usual: real) {
    (override > 0.0 ==> limit == override) && (override <= 0.0 ==> limit == usual)
  }

  /** One planning call, with the limits in force, up to a million steps a second. */
  datatype Call = Call(axis: Axis, targetDeg: real, speedDegS: real, accelDegS2: real, speed: real, accel: real)
  {
    predicate Valid() {
      && axis.microstepsPerDeg > 0.0 && accel > 0.0 && speed > 0.0 && Rate() <= 1000000.0
      && InForce(speed, speedDegS, axis.motion.maxSpeedDegS) && InForce(accel, accelDegS2, axis.motion.accelDegS2)
    }
    /** The speed limit in microsteps per second, and the acceleration limit. */
    function Rate(): real { speed * axis.microstepsPerDeg }
    function Gain(): real { accel * axis.microstepsPerDeg }
    function Plan(sqrt: real -> real): MovePlan { axis.Plan(targetDeg, speedDegS, accelDegS2, sqrt) }
    function Times(sqrt: real -> real): seq<nat> { Plan(sqrt).stepTimesUs }
    /** The profile of `n` steps under the limits in force. */
    function Shape(n: nat): Profile { Profile(n, Gain(), Rate()) }
  }

  lemma LimitsUsed(c: Call, sqrt: real -> real)
    requires c.Valid()
    ensures c.Gain() > 0.0 && c.Rate() > 0.0
    ensures c.Times(sqrt) == if c.Times(sqrt) == [] then [] else StepTimes(c.Plan(sqrt).steps, c.Gain(), c.Rate(), sqrt)
  {
    hide StepTimes;
    assert c.axis.Speed(c.speedDegS) == c.Rate() && c.axis.Accel(c.accelDegS2) == c.Gain();
  }

  lemma TimesAreTheProfile(c: Call, sqrt: real -> real)
    requires c.Valid() && IsSqrt(sqrt) && c.Times(sqrt) != []
    ensures var n := |c.Times(sqrt)|;
            && n == c.Plan(sqrt).steps && c.Shape(n).Valid() && c.Times(sqrt) == Rounded(c.Shape(n), sqrt)
            && GapsAtLeast(c.Times(sqrt), MinGap(c.Rate()))
  {
    LimitsUsed(c, sqrt);
    assert c.Rate() <= 1000000.0;
    hide Call.Plan, Call.Valid, Call.Gain, Call.Rate, Rounded, Ascending, GapsAtLeast, MinGap;
    StepTimesAreRoundedProfile(c.Plan(sqrt).steps, c.Gain(), c.Rate(), sqrt);
  }

  /** The step list is the profile of the limits in force, each step within half a microsecond; it starts at 0 and
      its last entry is the duration. */
  lemma PlanFollowsProfile(c: Call, sqrt: real -> real, i: nat)
    requires c.Valid() && IsSqrt(sqrt) && i < |c.Times(sqrt)|
    ensures var times := c.Times(sqrt);
            && |times| == c.Plan(sqrt).steps && times[0] == 0
            && c.Plan(sqrt).totalDurationUs == times[|times| - 1]
            && c.Shape(|times|).Valid()
            && Near(times[i] as real, c.Shape(|times|).StepTime(sqrt, i) * 1000000.0, 0.5)
  {
    TimesAreTheProfile(c, sqrt);
    RoundedTimeIsNear(c.Shape(|c.Times(sqrt)|), sqrt, i);
    FirstStepAtZero(c.Shape(|c.Times(sqrt)|), sqrt);
  }

  predicate Near(x: real, y: real, within: real) { -within <= x - y <= within }

  /** Speed: consecutive steps are never closer than the whole part of a period of the speed limit; and away from both
      ends of the move they are that period apart, to a microsecond. */
  lemma SpeedInForce(c: Call, sqrt: real -> real, i: nat)
    requires c.Valid() && IsSqrt(sqrt) && i + 1 < |c.Times(sqrt)|
    ensures var times := c.Times(sqrt); var period := 1000000.0 / c.Rate(); var p := c.Shape(|times|);
            && times[i + 1] - times[i] >= period.Floor
            && (!FromRest(p, i + 1) && !FromRest(p, p.n - i) ==> Near((times[i + 1] - times[i]) as real, period, 1.0))
  {
    TimesAreTheProfile(c, sqrt);
    var times := c.Times(sqrt);
    var p := c.Shape(|times|);
    assert p.vmax == c.Rate() && times[i] == p.RoundedTime(sqrt, i) && times[i + 1] == p.RoundedTime(sqrt, i + 1);
    assert times[i + 1] - times[i] >= MinGap(c.Rate());
    hide FromRest, Call.Times, Call.Valid, Call.Gain, Call.Rate, Profile.RoundedTime, Profile.StepTime, GapsAtLeast;
    if !FromRest(p, i + 1) && !FromRest(p, p.n - i) {
      RoundedPeriod(p, sqrt, i);
    }
  }

  /** Away from both ends, rounding costs a gap at most a microsecond. */
  lemma RoundedPeriod(p: Profile, sqrt: real -> real, i: nat)
    requires p.Valid() && IsSqrt(sqrt) && i + 1 < p.n && !FromRest(p, i + 1) && !FromRest(p, p.n - i)
    ensures Near((p.RoundedTime(sqrt, i + 1) - p.RoundedTime(sqrt, i)) as real, 1000000.0 / p.vmax, 1.0)
  {
    ProfileShape(p, sqrt, i);
    RoundedTimeIsNear(p, sqrt, i);
    RoundedTimeIsNear(p, sqrt, i + 1);
    hide FromRest, Profile.RoundedTime, Profile.StepTime;
    MicrosecondPeriod(p.StepTime(sqrt, i), p.StepTime(sqrt, i + 1), p.vmax);
  }

  lemma MicrosecondPeriod(x: real, y: real, v: real)
    requires v > 0.0 && y - x == 1.0 / v
    ensures y * 1000000.0 - x * 1000000.0 == 1000000.0 / v
  {
    assert (y - x) * 1000000.0 == 1000000.0 / v;
  }

  /** Microseconds as seconds. */
  function Seconds(us: real): real { us / 1000000.0 }

  /** Acceleration: step i + 1 comes no earlier than constant acceleration from rest makes i steps; and until full speed
      or half of the move is reached, step i comes exactly when it makes i. Both to half a microsecond. */
  lemma AccelerationInForce(c: Call, sqrt: real -> real, i: nat)
    requires c.Valid() && IsSqrt(sqrt) && i < |c.Times(sqrt)|
    ensures var times := c.Times(sqrt); var p := c.Shape(|times|);
            && (i > 0 ==> Covered(c.Gain(), Seconds(times[i] as real + 0.5)) >= (i - 1) as real)
            && (FromRest(p, i) ==> Covered(c.Gain(), Seconds(times[i] as real + 0.5)) >= i as real)
            && (FromRest(p, i) && times[i] > 0 ==> Covered(c.Gain(), Seconds(times[i] as real - 0.5)) <= i as real)
  {
    PlanFollowsProfile(c, sqrt, i);
    var times := c.Times(sqrt);
    var p := c.Shape(|times|);
    if i > 0 {
      AccelerationCap(p, sqrt, i - 1);
    }
    ProfileShape(p, sqrt, i);
    StepTimeNonNegative(p, sqrt, i);
    var t := p.StepTime(sqrt, i);
    hide Covered, FromRest, Profile.StepTime, Axis.Plan;
    CoveredInOrder(c.Gain(), t, Seconds(times[i] as real + 0.5));
    if times[i] > 0 {
      CoveredInOrder(c.Gain(), Seconds(times[i] as real - 0.5), t);
    }
  }
}
