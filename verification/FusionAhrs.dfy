/** The orientation filter: gravity, accelerations and heading over the reals, and the recovery from rejected sensors.

    Normalisation, which the program does with a fast inverse square root, and the integration of the gyroscope are not
    part of this model; where a result needs a unit quaternion it says so. */
module FusionAhrs {
  import opened FusionMath

  datatype Convention = NWU | ENU | NED

  // ---------- Gravity and acceleration

  /** The direction of gravity scaled by 0.5, as the program's update uses it. */
  function HalfGravity(q: Quaternion, convention: Convention): Vector {
    if convention == NED then
      Vector(q.w * q.y - q.x * q.z, -1.0 * (q.y * q.z + q.w * q.x), 0.5 - q.w * q.w - q.z * q.z)
    else
      Vector(q.x * q.z - q.w * q.y, q.y * q.z + q.w * q.x, q.w * q.w - 0.5 + q.z * q.z)
  }

  /** Gravity in the sensor frame, as the program's linear acceleration uses it. */
  function Gravity(q: Quaternion): Vector {
    Vector(2.0 * (q.x * q.z - q.w * q.y), 2.0 * (q.y * q.z + q.w * q.x), 2.0 * (q.w * q.w - 0.5 + q.z * q.z))
  }

  function LinearAcceleration(q: Quaternion, a: Vector, convention: Convention): Vector {
    if convention == NED then VectorAdd(a, Gravity(q)) else VectorSubtract(a, Gravity(q))
  }

  function EarthX(q: Quaternion, a: Vector): real {
    2.0 * ((q.w * q.w - 0.5 + q.x * q.x) * a.x + (q.x * q.y - q.w * q.z) * a.y + (q.x * q.z + q.w * q.y) * a.z)
  }

  function EarthY(q: Quaternion, a: Vector): real {
    2.0 * ((q.x * q.y + q.w * q.z) * a.x + (q.w * q.w - 0.5 + q.y * q.y) * a.y + (q.y * q.z - q.w * q.x) * a.z)
  }

  function EarthZ(q: Quaternion, a: Vector): real {
    2.0 * ((q.x * q.z - q.w * q.y) * a.x + (q.y * q.z + q.w * q.x) * a.y + (q.w * q.w - 0.5 + q.z * q.z) * a.z)
  }

  function EarthAcceleration(q: Quaternion, a: Vector, convention: Convention): Vector {
    var rotated := Vector(EarthX(q, a), EarthY(q, a), EarthZ(q, a));
    if convention == NED then rotated.(z := rotated.z + 1.0) else rotated.(z := rotated.z - 1.0)
  }

  /** Gravity is the third row of the rotation matrix. */
  lemma GravityIsThirdRow(q: Quaternion)
    ensures var m := QuaternionToMatrix(q); Gravity(q) == Vector(m.zx, m.zy, m.zz)
  {
  }

  lemma HalfGravityIsHalf(q: Quaternion, convention: Convention)
    ensures var h, g := HalfGravity(q, convention), Gravity(q);
            if convention == NED then g == Vector(-2.0 * h.x, -2.0 * h.y, -2.0 * h.z)
            else g == Vector(2.0 * h.x, 2.0 * h.y, 2.0 * h.z)
  {
  }

  lemma EarthRows(w: real, x: real, y: real, z: real, ax: real, ay: real, az: real)
    ensures var q, a := Quaternion(w, x, y, z), Vector(ax, ay, az);
            && EarthX(q, a) == Dot(Unit(w, x), TwiceDifference(x, y, w, z), TwiceSum(x, z, w, y), ax, ay, az)
            && EarthY(q, a) == Dot(TwiceSum(y, x, w, z), Unit(w, y), TwiceDifference(y, z, w, x), ax, ay, az)
            && EarthZ(q, a) == Dot(TwiceDifference(z, x, w, y), TwiceSum(z, y, w, x), Unit(w, z), ax, ay, az)
  {
    assert Dot(Unit(w, x), TwiceDifference(x, y, w, z), TwiceSum(x, z, w, y), ax, ay, az)
        == Dot(2.0 * (w * w - 0.5 + x * x), 2.0 * (x * y - w * z), 2.0 * (x * z + w * y), ax, ay, az);
    assert Dot(TwiceSum(y, x, w, z), Unit(w, y), TwiceDifference(y, z, w, x), ax, ay, az)
        == Dot(2.0 * (y * x + w * z), 2.0 * (w * w - 0.5 + y * y), 2.0 * (y * z - w * x), ax, ay, az);
    assert Dot(TwiceDifference(z, x, w, y), TwiceSum(z, y, w, x), Unit(w, z), ax, ay, az)
        == Dot(2.0 * (z * x - w * y), 2.0 * (z * y + w * x), 2.0 * (w * w - 0.5 + z * z), ax, ay, az);
  }

  lemma DotLinear(a: real, b: real, c: real, d: real, e: real, f: real, g: real, h: real, i: real)
    ensures Dot(a, b, c, d - g, e - h, f - i) == Dot(a, b, c, d, e, f) - Dot(a, b, c, g, h, i)
    ensures Dot(a, b, c, d + g, e + h, f + i) == Dot(a, b, c, d, e, f) + Dot(a, b, c, g, h, i)
  {
  }

  /** The rotated accelerometer is the matrix times the accelerometer. */
  lemma EarthIsRotated(q: Quaternion, a: Vector, convention: Convention)
    ensures var r := MatrixMultiplyVector(QuaternionToMatrix(q), a);
            EarthAcceleration(q, a, convention) == r.(z := if convention == NED then r.z + 1.0 else r.z - 1.0)
  {
    hide Unit, TwiceSum, TwiceDifference, Dot, EarthX, EarthY, EarthZ;
    EarthRows(q.w, q.x, q.y, q.z, a.x, a.y, a.z);
  }

  /** Rotating gravity to the Earth frame gives the vertical. */
  lemma RotatedGravity(q: Quaternion)
    requires NormSquared(q) == 1.0
    ensures MatrixMultiplyVector(QuaternionToMatrix(q), Gravity(q)) == Vector(0.0, 0.0, 1.0)
  {
    hide Unit, TwiceSum, TwiceDifference, Dot, NormSquared;
    GravityIsThirdRow(q);
    MatrixOrthogonal(q);
  }

  lemma RotationLinear(m: Matrix, a: Vector, b: Vector)
    ensures MatrixMultiplyVector(m, VectorSubtract(a, b))
         == VectorSubtract(MatrixMultiplyVector(m, a), MatrixMultiplyVector(m, b))
    ensures MatrixMultiplyVector(m, VectorAdd(a, b))
         == VectorAdd(MatrixMultiplyVector(m, a), MatrixMultiplyVector(m, b))
  {
    hide Dot;
    DotLinear(m.xx, m.xy, m.xz, a.x, a.y, a.z, b.x, b.y, b.z);
    DotLinear(m.yx, m.yy, m.yz, a.x, a.y, a.z, b.x, b.y, b.z);
    DotLinear(m.zx, m.zy, m.zz, a.x, a.y, a.z, b.x, b.y, b.z);
  }

  /** In every convention, rotating the linear acceleration gives the Earth acceleration. */
  lemma RotatedLinearIsEarth(q: Quaternion, a: Vector, convention: Convention)
    requires NormSquared(q) == 1.0
    ensures MatrixMultiplyVector(QuaternionToMatrix(q), LinearAcceleration(q, a, convention))
         == EarthAcceleration(q, a, convention)
  {
    hide QuaternionToMatrix, MatrixMultiplyVector, Gravity, EarthAcceleration, NormSquared;
    EarthIsRotated(q, a, convention);
    RotatedGravity(q);
    RotationLinear(QuaternionToMatrix(q), a, Gravity(q));
  }

  /** A sensor at rest measures gravity, upwards, or downwards in the NED convention: then there is no acceleration. */
  lemma AtRest(q: Quaternion)
    requires NormSquared(q) == 1.0
    ensures var still, up := Vector(0.0, 0.0, 0.0), Gravity(q);
            var down := Vector(-up.x, -up.y, -up.z);
            && LinearAcceleration(q, up, NWU) == still && EarthAcceleration(q, up, NWU) == still
            && LinearAcceleration(q, up, ENU) == still && EarthAcceleration(q, up, ENU) == still
            && LinearAcceleration(q, down, NED) == still && EarthAcceleration(q, down, NED) == still
  {
    hide QuaternionToMatrix, Gravity, EarthAcceleration, NormSquared;
    var up := Gravity(q);
    var down := Vector(-up.x, -up.y, -up.z);
    RotatedLinearIsEarth(q, up, NWU);
    RotatedLinearIsEarth(q, up, ENU);
    RotatedLinearIsEarth(q, down, NED);
  }

  // ---------- Heading

  /** Setting the heading turns the quaternion about the vertical; c and s are the cosine and sine of half of yaw minus
      heading. */
  function SetHeading(q: Quaternion, c: real, s: real): Quaternion {
    QuaternionMultiply(Quaternion(c, 0.0, 0.0, -1.0 * s), q)
  }

  lemma TurnMatrix(c: real, s: real)
    requires c * c + s * s == 1.0
    ensures NormSquared(Quaternion(c, 0.0, 0.0, -1.0 * s)) == 1.0
    ensures QuaternionToMatrix(Quaternion(c, 0.0, 0.0, -1.0 * s))
         == Matrix(c * c - s * s, 2.0 * (c * s), 0.0, -2.0 * (c * s), c * c - s * s, 0.0, 0.0, 0.0, 1.0)
  {
  }

  /** Setting the heading keeps the direction of gravity, in every convention, and a unit quaternion a unit quaternion. */
  lemma HeadingKeepsGravity(q: Quaternion, c: real, s: real, convention: Convention)
    requires NormSquared(q) == 1.0 && c * c + s * s == 1.0
    ensures NormSquared(SetHeading(q, c, s)) == 1.0
    ensures Gravity(SetHeading(q, c, s)) == Gravity(q)
    ensures HalfGravity(SetHeading(q, c, s), convention) == HalfGravity(q, convention)
  {
    hide Unit, TwiceSum, TwiceDifference, NormSquared, QuaternionMultiply, Gravity, HalfGravity;
    TurnMatrix(c, s);
    MatrixOfProduct(Quaternion(c, 0.0, 0.0, -1.0 * s), q);
    GravityIsThirdRow(q);
    GravityIsThirdRow(SetHeading(q, c, s));
    HalfGravityIsHalf(q, convention);
    HalfGravityIsHalf(SetHeading(q, c, s), convention);
  }

  /** And the new heading is the one asked for: if the yaw before has direction (yawCos, yawSin), and c and s belong to half
      the angle from the heading (headCos, headSin) to it, the yaw after has the heading's direction. */
  lemma HeadingIsSet(q: Quaternion, c: real, s: real, yawCos: real, yawSin: real, headCos: real, headSin: real, r: real)
    requires NormSquared(q) == 1.0 && c * c + s * s == 1.0 && yawCos * yawCos + yawSin * yawSin == 1.0
    requires c * c - s * s == yawCos * headCos + yawSin * headSin && 2.0 * (c * s) == yawSin * headCos - yawCos * headSin
    requires QuaternionToMatrix(q).xx == r * yawCos && QuaternionToMatrix(q).yx == r * yawSin
    ensures QuaternionToMatrix(SetHeading(q, c, s)).xx == r * headCos
    ensures QuaternionToMatrix(SetHeading(q, c, s)).yx == r * headSin
  {
    hide Unit, TwiceSum, TwiceDifference, NormSquared, QuaternionMultiply;
    TurnMatrix(c, s);
    MatrixOfProduct(Quaternion(c, 0.0, 0.0, -1.0 * s), q);
    Turned(c * c - s * s, 2.0 * (c * s), yawCos, yawSin, headCos, headSin, r, QuaternionToMatrix(q).xx,
           QuaternionToMatrix(q).yx);
  }

  lemma Turned(cd: real, sd: real, yc: real, ys: real, hc: real, hs: real, r: real, xx: real, yx: real)
    requires yc * yc + ys * ys == 1.0 && cd == yc * hc + ys * hs && sd == ys * hc - yc * hs && xx == r * yc && yx == r * ys
    ensures cd * xx + sd * yx == r * hc && -sd * xx + cd * yx == r * hs
  {
    calc {
      cd * xx + sd * yx;
      (yc * hc + ys * hs) * (r * yc) + (ys * hc - yc * hs) * (r * ys);
      (yc * yc + ys * ys) * (r * hc);
    }
    calc {
      -sd * xx + cd * yx;
      -(ys * hc - yc * hs) * (r * yc) + (yc * hc + ys * hs) * (r * ys);
      (yc * yc + ys * ys) * (r * hs);
    }
  }

  // ---------- Recovery of rejected sensors

  const INITIAL_GAIN: real := 10.0
  const INITIALISATION_PERIOD: real := 3.0

  datatype Settings = Settings(gain: real, period: nat)

  /** With no gain or no period the rejection of sensors is switched off. */
  predicate Rejects(cfg: Settings) {
    cfg.gain != 0.0 && cfg.period != 0
  }

  function RampStep(gain: real): real {
    (INITIAL_GAIN - gain) / INITIALISATION_PERIOD
  }

  function RampBy(gain: real, deltaTime: real): real {
    RampStep(gain) * deltaTime
  }

  /** The recovery state of one sensor, accelerometer or magnetometer. */
  datatype Recovery = Recovery(trigger: int, timeout: int, ignored: bool)

  datatype Event = ZeroSample | Accepted | Rejected

  function Clamp(value: int, min: int, max: int): int {
    if value < min then min else if value > max then max else value
  }

  /** The recovery state after one sample, with the trigger period in the settings. */
  function RecoveryStep(r: Recovery, e: Event, period: nat): Recovery {
    match e
    case ZeroSample => r.(ignored := true)
    case Accepted | Rejected =>
      var trigger := if e == Accepted then r.trigger - 9 else r.trigger + 1;
      var recovering := trigger > r.timeout;
      Recovery(Clamp(trigger, 0, period), if recovering then 0 else period, e == Rejected && !recovering)
  }

  /** What the filter keeps for one sensor: whether it is initialising, how far the gain has been ramped down, and the
      recovery state. */
  datatype Filter = Filter(initialising: bool, rampedGain: real, recovery: Recovery)

  /** What one update brings for one sensor: whether the gyroscope exceeds its range, the time passed, whether the sample is
      zero, and whether its error is below the threshold. */
  datatype Sample = Sample(exceeded: bool, deltaTime: real, zero: bool, below: bool)

  function Fresh(period: nat): Filter {
    Filter(true, INITIAL_GAIN, Recovery(0, period, false))
  }

  /** The ramp, which ends in the update in which it goes below the gain. */
  function Ramped(f: Filter, cfg: Settings, deltaTime: real): Filter {
    var down := f.rampedGain - RampBy(cfg.gain, deltaTime);
    if !f.initialising then f
    else if down < cfg.gain || cfg.gain == 0.0 then f.(rampedGain := cfg.gain, initialising := false)
    else f.(rampedGain := down)
  }

  function EventOf(f: Filter, x: Sample, cfg: Settings): Event {
    if x.zero then ZeroSample else if f.initialising || x.below || !Rejects(cfg) then Accepted else Rejected
  }

  function FilterStep(f: Filter, x: Sample, cfg: Settings): Filter {
    var g := Ramped(if x.exceeded then Fresh(cfg.period) else f, cfg, x.deltaTime);
    g.(recovery := RecoveryStep(g.recovery, EventOf(g, x, cfg), cfg.period))
  }

  class Ahrs {
    var settings: Settings
    var initialising: bool
    var rampedGain: real
    var rampedGainStep: real
    var accelerometerIgnored: bool
    var accelerationRecoveryTrigger: int
    var accelerationRecoveryTimeout: int
    var magnetometerIgnored: bool
    var magneticRecoveryTrigger: int
    var magneticRecoveryTimeout: int

    predicate Valid()
      reads this
    {
      rampedGainStep == RampStep(settings.gain)
    }

    function Acceleration(): Filter
      reads this
    {
      Filter(initialising, rampedGain,
             Recovery(accelerationRecoveryTrigger, accelerationRecoveryTimeout, accelerometerIgnored))
    }

    function Magnetic(): Filter
      reads this
    {
      Filter(initialising, rampedGain, Recovery(magneticRecoveryTrigger, magneticRecoveryTimeout, magnetometerIgnored))
    }

    constructor (settings: Settings)
      ensures Valid() && this.settings == settings
      ensures Acceleration() == Magnetic() == Fresh(settings.period)
    {
      this.settings := settings;
      initialising, rampedGain, rampedGainStep := true, INITIAL_GAIN, RampStep(settings.gain);
      accelerometerIgnored, accelerationRecoveryTrigger, accelerationRecoveryTimeout := false, 0, settings.period;
      magnetometerIgnored, magneticRecoveryTrigger, magneticRecoveryTimeout := false, 0, settings.period;
    }

    method ResetFilter()
      requires Valid()
      modifies this
      ensures Valid() && settings == old(settings)
      ensures Acceleration() == Magnetic() == Fresh(settings.period)
    {
      initialising := true;
      rampedGain := INITIAL_GAIN;
      accelerometerIgnored := false;
      accelerationRecoveryTrigger := 0;
      accelerationRecoveryTimeout := settings.period;
      magnetometerIgnored := false;
      magneticRecoveryTrigger := 0;
      magneticRecoveryTimeout := settings.period;
    }

    /** The recovery part of one update, given what the rest of it finds. */
    method Update(gyroscopeExceeded: bool, deltaTime: real, accelerometerZero: bool, accelerationBelow: bool,
                  magnetometerZero: bool, magneticBelow: bool)
      requires Valid()
      modifies this
      ensures Valid() && settings == old(settings)
      ensures Acceleration() == FilterStep(old(Acceleration()),
                Sample(gyroscopeExceeded, deltaTime, accelerometerZero, accelerationBelow), settings)
      ensures Magnetic() == FilterStep(old(Magnetic()),
                Sample(gyroscopeExceeded, deltaTime, magnetometerZero, magneticBelow), settings)
    {
      hide RecoveryStep, RampStep, Ramped, Rejects;
      if gyroscopeExceeded {
        ResetFilter();
      }
      RampDown(deltaTime);
      UpdateAcceleration(accelerometerZero, accelerationBelow || !Rejects(settings));
      UpdateMagnetic(magnetometerZero, magneticBelow || !Rejects(settings));
    }

    /** The ramp of the gain during initialisation. */
    method RampDown(deltaTime: real)
      requires Valid()
      modifies this`rampedGain, this`initialising
      ensures Valid() && Acceleration() == Ramped(old(Acceleration()), settings, deltaTime)
      ensures Magnetic() == Ramped(old(Magnetic()), settings, deltaTime)
    {
      hide RampStep;
      if initialising {
        rampedGain := rampedGain - rampedGainStep * deltaTime;
        if rampedGain < settings.gain || settings.gain == 0.0 {
          rampedGain := settings.gain;
          initialising := false;
        }
      }
    }

    /** The part of the update for the accelerometer. */
    method UpdateAcceleration(zero: bool, ok: bool)
      modifies this`accelerometerIgnored, this`accelerationRecoveryTrigger, this`accelerationRecoveryTimeout
      ensures Acceleration().recovery == RecoveryStep(old(Acceleration()).recovery,
                if zero then ZeroSample else if initialising || ok then Accepted else Rejected, settings.period)
    {
      accelerometerIgnored := true;
      if !zero {
        if initialising || ok {
          accelerometerIgnored := false;
          accelerationRecoveryTrigger := accelerationRecoveryTrigger - 9;
        } else {
          accelerationRecoveryTrigger := accelerationRecoveryTrigger + 1;
        }
        if accelerationRecoveryTrigger > accelerationRecoveryTimeout {
          accelerationRecoveryTimeout := 0;
          accelerometerIgnored := false;
        } else {
          accelerationRecoveryTimeout := settings.period;
        }
        accelerationRecoveryTrigger := Clamp(accelerationRecoveryTrigger, 0, settings.period);
      }
    }

    /** The part of the update for the magnetometer. */
    method UpdateMagnetic(zero: bool, ok: bool)
      modifies this`magnetometerIgnored, this`magneticRecoveryTrigger, this`magneticRecoveryTimeout
      ensures Magnetic().recovery == RecoveryStep(old(Magnetic()).recovery,
                if zero then ZeroSample else if initialising || ok then Accepted else Rejected, settings.period)
    {
      magnetometerIgnored := true;
      if !zero {
        if initialising || ok {
          magnetometerIgnored := false;
          magneticRecoveryTrigger := magneticRecoveryTrigger - 9;
        } else {
          magneticRecoveryTrigger := magneticRecoveryTrigger + 1;
        }
        if magneticRecoveryTrigger > magneticRecoveryTimeout {
          magneticRecoveryTimeout := 0;
          magnetometerIgnored := false;
        } else {
          magneticRecoveryTimeout := settings.period;
        }
        magneticRecoveryTrigger := Clamp(magneticRecoveryTrigger, 0, settings.period);
      }
    }
  }

  // ---------- Runs with fixed settings

  function FilterRun(xs: seq<Sample>, cfg: Settings): Filter {
    if xs == [] then Fresh(cfg.period) else FilterStep(FilterRun(xs[..|xs| - 1], cfg), xs[|xs| - 1], cfg)
  }

  /** How many samples in a row have just been ignored, across resets. Zero samples do not count. */
  function IgnoredInARow(xs: seq<Sample>, cfg: Settings): nat {
    if xs == [] then 0
    else
      var before := IgnoredInARow(xs[..|xs| - 1], cfg);
      if xs[|xs| - 1].zero then before
      else if FilterRun(xs, cfg).recovery.ignored then before + 1
      else 0
  }

  /** The resets since a sample was last let through. */
  function BareResets(xs: seq<Sample>, cfg: Settings): nat {
    if xs == [] then 0
    else
      var x := xs[|xs| - 1];
      if !x.zero && !FilterRun(xs, cfg).recovery.ignored then 0
      else BareResets(xs[..|xs| - 1], cfg) + if x.exceeded then 1 else 0
  }

  /** Feeding a new filter. */
  method Feed(xs: seq<Sample>, ys: seq<Sample>, settings: Settings) returns (a: Ahrs)
    requires |xs| == |ys|
    requires forall i :: 0 <= i < |xs| ==> xs[i].exceeded == ys[i].exceeded && xs[i].deltaTime == ys[i].deltaTime
    ensures a.Acceleration() == FilterRun(xs, settings) && a.Magnetic() == FilterRun(ys, settings)
  {
    hide FilterStep;
    a := new Ahrs(settings);
    for i := 0 to |xs|
      invariant fresh(a) && a.Valid() && a.settings == settings
      invariant a.Acceleration() == FilterRun(xs[..i], settings) && a.Magnetic() == FilterRun(ys[..i], settings)
    {
      assert xs[..i + 1][..i] == xs[..i] && ys[..i + 1][..i] == ys[..i];
      a.Update(xs[i].exceeded, xs[i].deltaTime, xs[i].zero, xs[i].below, ys[i].zero, ys[i].below);
    }
    assert xs[..|xs|] == xs && ys[..|ys|] == ys;
  }

  function Times(period: nat, n: nat): nat {
    period * n
  }

  lemma OneMoreTime(period: nat, n: nat)
    ensures Times(period, n + 1) == Times(period, n) + period && Times(period, 0) == 0 && Times(period, 1) == period
  {
  }

  /** Over any run with fixed settings: the trigger stays between 0 and the period, the timeout is always one of the two,
      and at most `period` samples are ignored in a row for every reset since a sample was last let through, and once
      more. */
  lemma {:induction false} RecoveryBounds(xs: seq<Sample>, cfg: Settings)
    ensures var r := FilterRun(xs, cfg).recovery;
            && 0 <= r.trigger <= cfg.period && (r.timeout == 0 || r.timeout == cfg.period)
            && IgnoredInARow(xs, cfg) <= r.trigger + Times(cfg.period, BareResets(xs, cfg))
            && IgnoredInARow(xs, cfg) <= Times(cfg.period, BareResets(xs, cfg) + 1)
  {
    hide Times, Rejects, RampStep;
    OneMoreTime(cfg.period, BareResets(xs, cfg));
    if xs != [] {
      var front := xs[..|xs| - 1];
      RecoveryBounds(front, cfg);
      OneMoreTime(cfg.period, BareResets(front, cfg));
    }
  }

  /** What one sample does in a run. A zero one is ignored and changes nothing else. One below the threshold, or any while
      the filter initialises or rejection is off, is let through and takes 9 off the trigger. Another one adds 1 and is
      ignored, unless the trigger had reached the period or a recovery is under way. A recovery ends when the trigger has
      fallen to 0. */
  lemma SampleMeaning(xs: seq<Sample>, x: Sample, cfg: Settings)
    ensures var g := FilterRun(xs + [x], cfg);
            var before := if x.exceeded then Recovery(0, cfg.period, false) else FilterRun(xs, cfg).recovery;
            var after, t := g.recovery, before.trigger;
            var recovering := before.timeout == 0 || t == cfg.period;
            && (x.zero ==> after == before.(ignored := true))
            && (!x.zero && (x.below || g.initialising || cfg.gain == 0.0 || cfg.period == 0) ==>
                  && !after.ignored && after.trigger == (if t > 9 then t - 9 else 0)
                  && after.timeout == (if before.timeout == 0 && t > 9 then 0 else cfg.period))
            && (!x.zero && !x.below && !g.initialising && cfg.gain != 0.0 && cfg.period != 0 ==>
                  && (after.ignored <==> !recovering)
                  && after.trigger == (if t == cfg.period then t else t + 1)
                  && after.timeout == (if recovering then 0 else cfg.period))
  {
    hide Ramped, RampStep;
    assert (xs + [x])[..|xs|] == xs;
    RecoveryBounds(xs, cfg);
    RampKeepsRecovery(if x.exceeded then Fresh(cfg.period) else FilterRun(xs, cfg), cfg, x.deltaTime);
  }

  /** How the ramp goes: from 10 to the gain in 3 seconds. */
  lemma RampKeepsRecovery(f: Filter, cfg: Settings, deltaTime: real)
    ensures var g, down := Ramped(f, cfg, deltaTime), f.rampedGain - (10.0 - cfg.gain) / 3.0 * deltaTime;
            && g.recovery == f.recovery
            && (g.initialising <==> f.initialising && down >= cfg.gain && cfg.gain != 0.0)
            && g.rampedGain == (if !f.initialising then f.rampedGain else if g.initialising then down else cfg.gain)
  {
  }

  /** A sample that comes in while the filter initialises is let through. */
  lemma InitialisingAccepts(xs: seq<Sample>, cfg: Settings)
    requires xs != [] && FilterRun(xs, cfg).initialising && !xs[|xs| - 1].zero
    ensures IgnoredInARow(xs, cfg) == 0 && BareResets(xs, cfg) == 0
  {
  }

  /** The ramp is over in the very update that starts it. */
  predicate RampEndsAtOnce(cfg: Settings, deltaTime: real) {
    INITIAL_GAIN - RampBy(cfg.gain, deltaTime) < cfg.gain || cfg.gain == 0.0
  }

  /** Samples at fixed intervals, none of them zero. */
  predicate Regular(xs: seq<Sample>, deltaTime: real) {
    forall i :: 0 <= i < |xs| ==> xs[i].deltaTime == deltaTime && !xs[i].zero
  }

  lemma {:induction false} SlowRampKeepsCount(xs: seq<Sample>, cfg: Settings, deltaTime: real)
    requires Regular(xs, deltaTime) && !RampEndsAtOnce(cfg, deltaTime)
    ensures BareResets(xs, cfg) == 0
  {
    hide RecoveryStep, RampStep;
    if xs != [] {
      SlowRampKeepsCount(xs[..|xs| - 1], cfg, deltaTime);
      if xs[|xs| - 1].exceeded {
        InitialisingAccepts(xs, cfg);
      }
    }
  }

  lemma {:induction false} NothingIgnored(xs: seq<Sample>, cfg: Settings)
    requires !Rejects(cfg)
    ensures IgnoredInARow(xs, cfg) == 0
  {
    if xs != [] {
      NothingIgnored(xs[..|xs| - 1], cfg);
    }
  }

  /** A sample over the threshold. */
  function Bad(exceeded: bool, deltaTime: real): Sample {
    Sample(exceeded, deltaTime, false, false)
  }

  function Repeated(x: Sample, n: nat): seq<Sample> {
    seq(n, _ => x)
  }

  lemma RejectedOnce(f: Filter, cfg: Settings, deltaTime: real)
    requires Rejects(cfg) && (f.initialising ==> f == Fresh(cfg.period) && RampEndsAtOnce(cfg, deltaTime))
    requires f.recovery.timeout == cfg.period && 0 <= f.recovery.trigger < cfg.period
    ensures var g := FilterStep(f, Bad(false, deltaTime), cfg);
            !g.initialising && g.recovery == Recovery(f.recovery.trigger + 1, cfg.period, true)
  {
    hide RampStep;
  }

  /** While the trigger is below the period, every sample over the threshold is ignored. */
  lemma {:induction false} RejectedRun(xs: seq<Sample>, cfg: Settings, deltaTime: real, n: nat)
    requires Rejects(cfg)
    requires var f := FilterRun(xs, cfg);
             && f.recovery.timeout == cfg.period && 0 <= f.recovery.trigger && f.recovery.trigger + n <= cfg.period
             && (f.initialising ==> f == Fresh(cfg.period) && RampEndsAtOnce(cfg, deltaTime))
    ensures var ys := xs + Repeated(Bad(false, deltaTime), n);
            var f, g := FilterRun(xs, cfg), FilterRun(ys, cfg);
            && IgnoredInARow(ys, cfg) == IgnoredInARow(xs, cfg) + n && BareResets(ys, cfg) == BareResets(xs, cfg)
            && g.recovery.trigger == f.recovery.trigger + n && g.recovery.timeout == cfg.period
            && (n > 0 ==> !g.initialising) && (n == 0 ==> g == f)
  {
    hide FilterStep, Rejects, RampEndsAtOnce;
    var ys := xs + Repeated(Bad(false, deltaTime), n);
    if n == 0 {
      assert ys == xs;
    } else {
      RejectedRun(xs, cfg, deltaTime, n - 1);
      RejectedOnce(FilterRun(xs + Repeated(Bad(false, deltaTime), n - 1), cfg), cfg, deltaTime);
      assert ys[..|ys| - 1] == xs + Repeated(Bad(false, deltaTime), n - 1) && ys[|ys| - 1] == Bad(false, deltaTime);
    }
  }

  /** A reset in the middle of that, with a ramp that ends at once: the count goes on, and the trigger starts again. */
  lemma BareReset(xs: seq<Sample>, cfg: Settings, deltaTime: real)
    requires Rejects(cfg) && RampEndsAtOnce(cfg, deltaTime)
    ensures var ys := xs + [Bad(true, deltaTime)];
            var g := FilterRun(ys, cfg);
            && IgnoredInARow(ys, cfg) == IgnoredInARow(xs, cfg) + 1 && BareResets(ys, cfg) == BareResets(xs, cfg) + 1
            && g.recovery.trigger == 1 && g.recovery.timeout == cfg.period && !g.initialising
  {
    hide RampStep;
    assert (xs + [Bad(true, deltaTime)])[..|xs|] == xs;
  }

  /** The bound is met: with n resets in a row, all bare, n + 1 times the period. */
  lemma {:induction false} ResetsProlong(cfg: Settings, deltaTime: real, n: nat) returns (xs: seq<Sample>)
    requires Rejects(cfg) && RampEndsAtOnce(cfg, deltaTime)
    ensures Regular(xs, deltaTime) && BareResets(xs, cfg) == n && IgnoredInARow(xs, cfg) == Times(cfg.period, n + 1)
  {
    hide FilterRun, IgnoredInARow, BareResets, Times, RampEndsAtOnce, Rejects;
    OneMoreTime(cfg.period, n);
    RejectsAtAll(cfg);
    var front: seq<Sample>, k := [], cfg.period;
    if n == 0 {
      NoSamples(cfg);
    } else {
      var before := ResetsProlong(cfg, deltaTime, n - 1);
      BareReset(before, cfg, deltaTime);
      front, k := before + [Bad(true, deltaTime)], cfg.period - 1;
    }
    RejectedRun(front, cfg, deltaTime, k);
    xs := front + Repeated(Bad(false, deltaTime), k);
  }

  lemma NoSamples(cfg: Settings)
    ensures FilterRun([], cfg) == Fresh(cfg.period) && IgnoredInARow([], cfg) == 0 && BareResets([], cfg) == 0
  {
  }

  /** The filter itself, driven so: in the middle of the run the gyroscope exceeds its range once, and twice `period`
      samples are ignored in a row. */
  method ProlongedByReset(cfg: Settings, deltaTime: real) returns (ignored: nat)
    requires Rejects(cfg) && RampEndsAtOnce(cfg, deltaTime)
    ensures ignored == 2 * cfg.period
  {
    hide FilterStep, RampEndsAtOnce;
    ignored := 0;
    var a := new Ahrs(cfg);
    for i := 0 to 2 * cfg.period
      invariant a.Valid() && a.settings == cfg && ignored == i
      invariant var f := a.Acceleration();
                && f.recovery.timeout == cfg.period
                && f.recovery.trigger == (if i <= cfg.period then i else i - cfg.period)
                && (f.initialising ==> f == Fresh(cfg.period))
    {
      ghost var f := a.Acceleration();
      if i == cfg.period {
        ExceededOnce(f, cfg, deltaTime);
      } else {
        RejectedOnce(f, cfg, deltaTime);
      }
      a.Update(i == cfg.period, deltaTime, false, false, false, false);
      if a.accelerometerIgnored {
        ignored := ignored + 1;
      }
    }
  }

  lemma ExceededOnce(f: Filter, cfg: Settings, deltaTime: real)
    requires Rejects(cfg) && RampEndsAtOnce(cfg, deltaTime)
    ensures var g := FilterStep(f, Bad(true, deltaTime), cfg);
            !g.initialising && g.recovery == Recovery(1, cfg.period, true)
  {
    hide RampStep;
  }

  ghost predicate NeverBeyond(cfg: Settings, deltaTime: real) {
    forall xs :: Regular(xs, deltaTime) ==> IgnoredInARow(xs, cfg) <= cfg.period
  }

  /** With samples at fixed intervals, at most `period` are ignored in a row, across resets, in every run exactly if
      rejection is switched off or the ramp does not end in the update that starts it. (At the program's gain of 0.5 that
      is an interval of at most 3 seconds.) */
  lemma CountAcrossResetsIff(cfg: Settings, deltaTime: real)
    ensures NeverBeyond(cfg, deltaTime) <==> !Rejects(cfg) || !RampEndsAtOnce(cfg, deltaTime)
    ensures 0.0 < cfg.gain < 10.0 ==> (RampEndsAtOnce(cfg, deltaTime) <==> deltaTime > 3.0)
  {
    hide IgnoredInARow, BareResets, FilterRun, RampStep, Times, RampEndsAtOnce, Rejects, Regular;
    if 0.0 < cfg.gain < INITIAL_GAIN {
      RampTime(cfg, deltaTime);
    }
    if !Rejects(cfg) || !RampEndsAtOnce(cfg, deltaTime) {
      forall xs | Regular(xs, deltaTime)
        ensures IgnoredInARow(xs, cfg) <= cfg.period
      {
        if !Rejects(cfg) {
          NothingIgnored(xs, cfg);
        } else {
          SlowRampKeepsCount(xs, cfg, deltaTime);
          RecoveryBounds(xs, cfg);
          OneMoreTime(cfg.period, 0);
        }
      }
    } else {
      var xs := ResetsProlong(cfg, deltaTime, 1);
      OneMoreTime(cfg.period, 1);
      RejectsAtAll(cfg);
    }
  }

  lemma RejectsAtAll(cfg: Settings)
    requires Rejects(cfg)
    ensures cfg.period > 0 && cfg.gain != 0.0
  {
  }

  lemma RampTime(cfg: Settings, deltaTime: real)
    requires 0.0 < cfg.gain < INITIAL_GAIN
    ensures RampEndsAtOnce(cfg, deltaTime) <==> deltaTime > INITIALISATION_PERIOD
  {
    var step := RampStep(cfg.gain);
    assert INITIAL_GAIN - cfg.gain == 3.0 * step;
    Scaled(step, deltaTime, 3.0);
  }

  lemma Scaled(step: real, a: real, b: real)
    requires step > 0.0
    ensures step * a > step * b <==> a > b
  {
    assert step * (a - b) == step * a - step * b;
  }

  // ---------- With zero samples in between

  function ZeroSamples(exceeded: bool, deltaTime: real, n: nat): seq<Sample> {
    if n == 0 then [] else ZeroSamples(exceeded, deltaTime, n - 1) + [Sample(exceeded && n == 1, deltaTime, true, false)]
  }

  predicate Uniform(xs: seq<Sample>, deltaTime: real) {
    forall i :: 0 <= i < |xs| ==> xs[i].deltaTime == deltaTime
  }

  /** Zero samples move the ramp on, and nothing else. */
  lemma {:induction false} ZerosRamp(xs: seq<Sample>, cfg: Settings, exceeded: bool, deltaTime: real, n: nat)
    requires cfg.gain != 0.0 && n > 0
    requires exceeded || FilterRun(xs, cfg) == Fresh(cfg.period)
    ensures var ys := xs + ZeroSamples(exceeded, deltaTime, n);
            var g := FilterRun(ys, cfg);
            && g.recovery == Recovery(0, cfg.period, true) && IgnoredInARow(ys, cfg) == IgnoredInARow(xs, cfg)
            && (g.initialising ==> g.rampedGain == INITIAL_GAIN - Decline(cfg.gain, deltaTime, n) >= cfg.gain)
  {
    hide RampBy, FilterStep;
    var ys := xs + ZeroSamples(exceeded, deltaTime, n);
    assert ys[..|ys| - 1] == xs + ZeroSamples(exceeded, deltaTime, n - 1);
    assert ys[|ys| - 1] == Sample(exceeded && n == 1, deltaTime, true, false);
    ZeroStep(FilterRun(ys[..|ys| - 1], cfg), ys[|ys| - 1], cfg);
    if n > 1 {
      ZerosRamp(xs, cfg, exceeded, deltaTime, n - 1);
    } else {
      assert xs + ZeroSamples(exceeded, deltaTime, 0) == xs;
    }
  }

  lemma ZeroStep(f: Filter, x: Sample, cfg: Settings)
    requires x.zero && cfg.gain != 0.0
    ensures var before, g := if x.exceeded then Fresh(cfg.period) else f, FilterStep(f, x, cfg);
            && g.recovery == before.recovery.(ignored := true)
            && (g.initialising ==>
                  before.initialising && g.rampedGain == before.rampedGain - RampBy(cfg.gain, x.deltaTime) >= cfg.gain)
  {
    hide RampBy;
  }

  /** How far the gain has been ramped down after n updates. */
  function Decline(gain: real, deltaTime: real, n: nat): real {
    if n == 0 then 0.0 else Decline(gain, deltaTime, n - 1) + RampBy(gain, deltaTime)
  }

  lemma {:induction false} DeclineIsLinear(gain: real, deltaTime: real, n: nat)
    ensures Decline(gain, deltaTime, n) == n as real * RampBy(gain, deltaTime)
  {
    hide RampBy;
    if n > 0 {
      DeclineIsLinear(gain, deltaTime, n - 1);
    }
  }

  /** The ramp that is never over, however many updates it takes. */
  predicate RampNeverEnds(gain: real, deltaTime: real) {
    gain == 10.0 || (gain > 10.0 && deltaTime >= 3.0)
  }

  lemma RampEndsAfter(gain: real, deltaTime: real) returns (n: nat)
    requires deltaTime > 0.0 && !RampNeverEnds(gain, deltaTime)
    ensures n > 0 && INITIAL_GAIN - Decline(gain, deltaTime, n) < gain
  {
    if gain < INITIAL_GAIN {
      var step := RampBy(gain, deltaTime);
      var target := INITIAL_GAIN - gain;
      assert RampStep(gain) > 0.0;
      Positive(RampStep(gain), deltaTime);
      n := (target / step).Floor + 1;
      DeclineIsLinear(gain, deltaTime, n);
      BeyondQuotient(target, step, n as real);
    } else {
      n := 1;
      assert Decline(gain, deltaTime, 1) == Decline(gain, deltaTime, 0) + RampBy(gain, deltaTime);
      assert INITIAL_GAIN - gain == 3.0 * RampStep(gain);
      Scaled(-RampStep(gain), 3.0, deltaTime);
    }
  }

  lemma Positive(a: real, b: real)
    requires a > 0.0 && b > 0.0
    ensures a * b > 0.0
  {
  }

  lemma BeyondQuotient(target: real, step: real, n: real)
    requires step > 0.0 && n > target / step
    ensures n * step > target
  {
    Scaled(step, n, target / step);
  }

  lemma {:induction false} StaysInitialising(xs: seq<Sample>, cfg: Settings, deltaTime: real)
    requires cfg.gain != 0.0 && Uniform(xs, deltaTime) && RampNeverEnds(cfg.gain, deltaTime) && deltaTime > 0.0
    ensures FilterRun(xs, cfg).initialising && FilterRun(xs, cfg).rampedGain >= INITIAL_GAIN && IgnoredInARow(xs, cfg) == 0
  {
    hide RecoveryStep, RampBy, RampNeverEnds;
    RampGrows(cfg.gain, deltaTime);
    if xs != [] {
      StaysInitialising(xs[..|xs| - 1], cfg, deltaTime);
      assert xs[|xs| - 1].deltaTime == deltaTime;
      if !xs[|xs| - 1].zero {
        InitialisingAccepts(xs, cfg);
      }
    }
  }

  lemma RampGrows(gain: real, deltaTime: real)
    requires RampNeverEnds(gain, deltaTime) && deltaTime > 0.0
    ensures RampBy(gain, deltaTime) <= 0.0 && INITIAL_GAIN - RampBy(gain, deltaTime) >= gain
  {
    var step := -RampStep(gain);
    assert gain - INITIAL_GAIN == 3.0 * step;
    if step > 0.0 {
      Scaled(step, 3.0, deltaTime);
      Positive(step, deltaTime);
    }
  }

  ghost predicate NeverBeyondUniform(cfg: Settings, deltaTime: real) {
    forall xs :: Uniform(xs, deltaTime) ==> IgnoredInARow(xs, cfg) <= cfg.period
  }

  /** Zero samples while the gain is ramped down, then samples over the threshold; the same again after a reset. */
  lemma ZerosProlong(cfg: Settings, deltaTime: real) returns (xs: seq<Sample>)
    requires Rejects(cfg) && deltaTime > 0.0 && !RampNeverEnds(cfg.gain, deltaTime)
    ensures Uniform(xs, deltaTime) && IgnoredInARow(xs, cfg) == 2 * cfg.period
  {
    hide FilterRun, IgnoredInARow, RampNeverEnds, Decline;
    RejectsAtAll(cfg);
    var n := RampEndsAfter(cfg.gain, deltaTime);
    NoSamples(cfg);
    ZerosRamp([], cfg, false, deltaTime, n);
    var a := [] + ZeroSamples(false, deltaTime, n);
    RejectedRun(a, cfg, deltaTime, cfg.period);
    var b := a + Repeated(Bad(false, deltaTime), cfg.period);
    ZerosRamp(b, cfg, true, deltaTime, n);
    var c := b + ZeroSamples(true, deltaTime, n);
    RejectedRun(c, cfg, deltaTime, cfg.period);
    xs := c + Repeated(Bad(false, deltaTime), cfg.period);
    ZerosUniform(false, deltaTime, n);
    ZerosUniform(true, deltaTime, n);
  }

  lemma {:induction false} ZerosUniform(exceeded: bool, deltaTime: real, n: nat)
    ensures Uniform(ZeroSamples(exceeded, deltaTime, n), deltaTime)
  {
    if n > 0 {
      ZerosUniform(exceeded, deltaTime, n - 1);
    }
  }

  /** With samples at fixed intervals, zero samples among them: at most `period` are ignored in a row in every run exactly
      if rejection is off or the ramp never ends. At the program's gain of 0.5 it always does. */
  lemma CountWithZerosIff(cfg: Settings, deltaTime: real)
    requires deltaTime > 0.0
    ensures NeverBeyondUniform(cfg, deltaTime) <==> !Rejects(cfg) || RampNeverEnds(cfg.gain, deltaTime)
  {
    hide IgnoredInARow, FilterRun, RampNeverEnds, Rejects, Uniform;
    if !Rejects(cfg) || RampNeverEnds(cfg.gain, deltaTime) {
      forall xs | Uniform(xs, deltaTime)
        ensures IgnoredInARow(xs, cfg) <= cfg.period
      {
        if !Rejects(cfg) {
          NothingIgnored(xs, cfg);
        } else {
          RejectsAtAll(cfg);
          StaysInitialising(xs, cfg, deltaTime);
        }
      }
    } else {
      RejectsAtAll(cfg);
      var xs := ZerosProlong(cfg, deltaTime);
    }
  }

  /** And whatever the intervals, and even with zero samples in between: exactly if rejection is switched off, or the gain
      is the initial one, with which the filter never stops initialising. */
  lemma CountInEveryRunIff(cfg: Settings)
    ensures (forall xs :: IgnoredInARow(xs, cfg) <= cfg.period) <==> !Rejects(cfg) || cfg.gain == 10.0
  {
    hide IgnoredInARow, BareResets, FilterRun, RampStep, Times, Regular;
    if !Rejects(cfg) || cfg.gain == INITIAL_GAIN {
      forall xs: seq<Sample>
        ensures IgnoredInARow(xs, cfg) <= cfg.period
      {
        if !Rejects(cfg) {
          NothingIgnored(xs, cfg);
        } else {
          AlwaysInitialising(xs, cfg);
        }
      }
    } else {
      var deltaTime := if cfg.gain < INITIAL_GAIN then 4.0 else 0.0;
      SomeRampEnds(cfg, deltaTime);
      var xs := ResetsProlong(cfg, deltaTime, 1);
      OneMoreTime(cfg.period, 1);
    }
  }

  lemma SomeRampEnds(cfg: Settings, deltaTime: real)
    requires (cfg.gain < INITIAL_GAIN && deltaTime == 4.0) || (cfg.gain > INITIAL_GAIN && deltaTime == 0.0)
    ensures RampEndsAtOnce(cfg, deltaTime)
  {
  }

  lemma {:induction false} AlwaysInitialising(xs: seq<Sample>, cfg: Settings)
    requires cfg.gain == INITIAL_GAIN
    ensures FilterRun(xs, cfg).initialising && FilterRun(xs, cfg).rampedGain == INITIAL_GAIN
    ensures IgnoredInARow(xs, cfg) == 0
  {
    hide RecoveryStep;
    if xs != [] {
      AlwaysInitialising(xs[..|xs| - 1], cfg);
      if !xs[|xs| - 1].zero {
        InitialisingAccepts(xs, cfg);
      }
    }
  }
}
