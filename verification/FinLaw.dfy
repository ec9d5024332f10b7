/** The canard law of src/rollcontrol.c: from a demanded angular acceleration to an angle of attack, over the reals. */
module FinLaw {

  /** The functions of libm that are used; only what Lawful says of them is relied on. */
  datatype MathLib = MathLib(sqrt: real -> real, exp: real -> real)

  ghost predicate Lawful(lib: MathLib) {
    && (forall x: real :: x >= 0.0 ==> lib.sqrt(x) >= 0.0 && lib.sqrt(x) * lib.sqrt(x) == x)
    && (forall x: real :: lib.exp(x) > 0.0)
  }

  datatype StateData = StateData(time: real, accUp: real, velUp: real, altitude: real, rollRate: real, rollAngle: real)

  const FINFIT_A := 0.0006
  const FINFIT_B := 0.045
  const FIN_CBASE := 3.2
  const FIN_AREA := 0.00113
  const FIN_ARM := 0.085
  const I_INIT := 0.086
  const I_BO := 0.077
  const EXPECTED_BURN_TIME := 5.7
  const SUBSONIC := 265.0
  const SUPERSONIC := 330.0
  const M_PI := 3.14159265358979323846

  function Abs(x: real): real {
    if x < 0.0 then -x else x
  }

  function DegreesToRadians(degrees: real): real {
    degrees * M_PI / 180.0
  }

  function RadiansToDegrees(radians: real): real {
    radians * 180.0 / M_PI
  }

  /** Moment of inertia while the motor burns and after. */
  function Inertia(time: real): (i: real)
    ensures i >= I_BO
  {
    if time < EXPECTED_BURN_TIME then I_INIT + (I_BO - I_INIT) * (time / EXPECTED_BURN_TIME) else I_BO
  }

  /** While the motor burns the inertia falls linearly from its initial to its burn-out value, without a jump. */
  lemma InertiaDecreases(t: real, t': real)
    requires 0.0 <= t <= t'
    ensures I_BO <= Inertia(t') <= Inertia(t) <= I_INIT
    ensures Inertia(0.0) == I_INIT
    ensures I_INIT + (I_BO - I_INIT) * (EXPECTED_BURN_TIME / EXPECTED_BURN_TIME) == Inertia(EXPECTED_BURN_TIME)
  {
  }

  function Density(lib: MathLib, altitude: real): (rd: real)
    requires Lawful(lib)
    ensures rd > 0.0
  {
    1.2250 * lib.exp((-9.80665 * 0.0289644 * altitude) / (8.31432 * 288.15))
  }

  /** rd*v*v*FIN_AREA*FIN_ARM: roll torque per unit of lift coefficient, up to a factor. */
  function Leverage(rd: real, v: real): (k: real)
    requires rd > 0.0 && v >= 1.0
    ensures k > 0.0
  {
    Positive(rd, v);
    Positive(rd * v, v);
    rd * v * v * FIN_AREA * FIN_ARM
  }

  lemma Positive(x: real, y: real)
    requires x > 0.0 && y > 0.0
    ensures x * y > 0.0
  {
  }

  /** Angle in degrees from the quadratic subsonic fit. */
  function SubsonicFin(lib: MathLib, aa: real, i: real, k: real): real
    requires k > 0.0
  {
    (lib.sqrt(Abs(2.0 * aa * i * FINFIT_A) / k + FINFIT_B * FINFIT_B) - FINFIT_B) / (2.0 * FINFIT_A)
  }

  /** Angle in degrees from the linear supersonic model. */
  function SupersonicFin(aa: real, i: real, k: real): real
    requires k > 0.0
  {
    RadiansToDegrees(aa * i / (2.0 * k * FIN_CBASE))
  }

  function Blend(y0: real, y1: real, velocity: real): real {
    y0 + (y1 - y0) * (velocity - SUBSONIC) / (SUPERSONIC - SUBSONIC)
  }

  /** Magnitude of the angle for a demanded angular acceleration aa >= 0 in radians. */
  function FinAngle(lib: MathLib, aa: real, i: real, k: real, velocity: real): real
    requires k > 0.0
  {
    if velocity <= SUBSONIC then SubsonicFin(lib, aa, i, k)
    else if velocity < SUPERSONIC then Blend(SubsonicFin(lib, aa, i, k), SupersonicFin(aa, i, k), velocity)
    else SupersonicFin(aa, i, k)
  }

  /** The angle of attack in degrees for a demanded correction. */
  function EstimateAlpha(lib: MathLib, setAa: real, s: StateData): real
    requires Lawful(lib)
  {
    if Abs(setAa) < 1.0 || s.velUp < 1.0 then 0.0
    else
      var aa := Abs(DegreesToRadians(setAa));
      var output := FinAngle(lib, aa, Inertia(s.time), Leverage(Density(lib, s.altitude), s.velUp), s.velUp);
      if setAa < 0.0 then -output else output
  }

  /** Any law from a demand and a flight state to an angle; what FlightSafety proves holds whatever the law. */
  type CanardLaw = (real, StateData) -> real

  function LawOf(lib: MathLib): CanardLaw
    requires Lawful(lib)
  {
    (x: real, s: StateData) => EstimateAlpha(lib, x, s)
  }

  // ---------------------------------------------------------------- the fin models are inverted

  /** Lift coefficient of the subsonic fit at an angle in degrees. */
  function SubsonicLift(alpha: real): real {
    FINFIT_A * alpha * alpha + FINFIT_B * alpha
  }

  /** A non-negative square root is unique. */
  lemma RootIs(lib: MathLib, x: real, r: real)
    requires Lawful(lib) && r >= 0.0 && x == r * r
    ensures lib.sqrt(x) == r
  {
    Scale(0.0, r, r);
    var t := lib.sqrt(x);
    if t > r {
      SquareStrict(r, t);
    } else if t < r {
      SquareStrict(t, r);
    }
  }

  lemma SquareStrict(a: real, b: real)
    requires 0.0 <= a < b
    ensures a * a < b * b
  {
    assert b * b - a * b == (b - a) * b > 0.0;
    assert a * b - a * a == a * (b - a) >= 0.0;
  }

  lemma Scale(x: real, y: real, c: real)
    requires x <= y && c >= 0.0
    ensures x * c <= y * c
  {
  }

  lemma Quotient(x: real, y: real, k: real)
    requires x <= y && k > 0.0
    ensures x / k <= y / k
  {
  }

  lemma QuotientTimes(x: real, k: real)
    requires k != 0.0
    ensures x / k * k == x
  {
  }

  lemma SqrtMonotone(lib: MathLib, x: real, y: real)
    requires Lawful(lib) && 0.0 <= x <= y
    ensures lib.sqrt(x) <= lib.sqrt(y)
  {
    var a, b := lib.sqrt(x), lib.sqrt(y);
    if a > b {
      SquareStrict(b, a);
    }
  }

  /** The load 2*aa*I*A/k under the subsonic root. */
  function Load(aa: real, i: real, k: real): (q: real)
    requires aa >= 0.0 && i > 0.0 && k > 0.0
    ensures q >= 0.0 && q == Abs(2.0 * aa * i * FINFIT_A) / k && q * k == 2.0 * FINFIT_A * (aa * i)
  {
    Scale(0.0, aa, i);
    var num := 2.0 * aa * i * FINFIT_A;
    Quotient(0.0, num, k);
    QuotientTimes(num, k);
    num / k
  }

  /** Completing the square in the fit. */
  lemma SquareOfFit(alpha: real)
    ensures var r := 2.0 * FINFIT_A * alpha + FINFIT_B;
            r * r == 4.0 * FINFIT_A * SubsonicLift(alpha) + FINFIT_B * FINFIT_B
  {
  }

  lemma LiftMatchesLoad(lift: real, q: real, k: real, torque: real)
    requires k > 0.0 && q * k == 2.0 * FINFIT_A * torque
    ensures 2.0 * k * lift == torque <==> 4.0 * FINFIT_A * lift == q
  {
    if 2.0 * k * lift == torque {
      assert (q - 4.0 * FINFIT_A * lift) * k == 0.0;
    }
  }

  lemma SubsonicRoot(lib: MathLib, aa: real, i: real, k: real)
    requires Lawful(lib) && aa >= 0.0 && i > 0.0 && k > 0.0
    ensures var t := lib.sqrt(Load(aa, i, k) + FINFIT_B * FINFIT_B);
            t >= FINFIT_B && SubsonicFin(lib, aa, i, k) == (t - FINFIT_B) / (2.0 * FINFIT_A)
  {
    var q := Load(aa, i, k);
    RootIs(lib, FINFIT_B * FINFIT_B, FINFIT_B);
    SqrtMonotone(lib, FINFIT_B * FINFIT_B, q + FINFIT_B * FINFIT_B);
  }

  /** The subsonic angle is the one non-negative angle at which the fit yields the demanded torque. */
  lemma SubsonicInverts(lib: MathLib, aa: real, i: real, k: real, alpha: real)
    requires Lawful(lib) && aa >= 0.0 && i > 0.0 && k > 0.0
    ensures alpha >= 0.0 && 2.0 * k * SubsonicLift(alpha) == aa * i <==> alpha == SubsonicFin(lib, aa, i, k)
  {
    var q := Load(aa, i, k);
    var x := q + FINFIT_B * FINFIT_B;
    var r := 2.0 * FINFIT_A * alpha + FINFIT_B;
    SubsonicRoot(lib, aa, i, k);
    SquareOfFit(alpha);
    LiftMatchesLoad(SubsonicLift(alpha), q, k, aa * i);
    if alpha >= 0.0 && 2.0 * k * SubsonicLift(alpha) == aa * i {
      RootIs(lib, x, r);
    }
    if alpha == SubsonicFin(lib, aa, i, k) {
      assert r == lib.sqrt(x);
    }
  }

  /** The supersonic angle is the one at which the linear model yields the demanded torque. */
  lemma SupersonicInverts(aa: real, i: real, k: real, alpha: real)
    requires k > 0.0
    ensures 2.0 * k * (FIN_CBASE * DegreesToRadians(alpha)) == aa * i <==> alpha == SupersonicFin(aa, i, k)
  {
    var d := 2.0 * k * FIN_CBASE;
    QuotientTimes(aa * i, d);
    var a := DegreesToRadians(alpha);
    assert 2.0 * k * (FIN_CBASE * a) == a * d;
    if a * d == aa * i {
      assert (a - aa * i / d) * d == 0.0;
      NoZeroDivisors(a - aa * i / d, d);
    }
  }

  lemma NoZeroDivisors(x: real, d: real)
    requires d > 0.0 && x * d == 0.0
    ensures x == 0.0
  {
  }

  // ---------------------------------------------------------------- odd and monotone

  lemma SubsonicMonotone(lib: MathLib, x: real, y: real, i: real, k: real)
    requires Lawful(lib) && 0.0 <= x <= y && i > 0.0 && k > 0.0
    ensures 0.0 <= SubsonicFin(lib, x, i, k) <= SubsonicFin(lib, y, i, k)
  {
    SubsonicRoot(lib, x, i, k);
    SubsonicRoot(lib, y, i, k);
    LoadMonotone(x, y, i, k);
    SqrtMonotone(lib, Load(x, i, k) + FINFIT_B * FINFIT_B, Load(y, i, k) + FINFIT_B * FINFIT_B);
  }

  lemma LoadMonotone(x: real, y: real, i: real, k: real)
    requires 0.0 <= x <= y && i > 0.0 && k > 0.0
    ensures Load(x, i, k) <= Load(y, i, k)
  {
    Scale(x, y, i);
    Quotient(2.0 * x * i * FINFIT_A, 2.0 * y * i * FINFIT_A, k);
  }

  lemma SupersonicMonotone(x: real, y: real, i: real, k: real)
    requires 0.0 <= x <= y && i > 0.0 && k > 0.0
    ensures 0.0 <= SupersonicFin(x, i, k) <= SupersonicFin(y, i, k)
  {
    Scale(0.0, x, i);
    Scale(x, y, i);
    Quotient(0.0, x * i, 2.0 * k * FIN_CBASE);
    Quotient(x * i, y * i, 2.0 * k * FIN_CBASE);
  }

  function Mean(y0: real, y1: real, w: real): real {
    y0 * (1.0 - w) + y1 * w
  }

  lemma BlendIsMean(y0: real, y1: real, velocity: real)
    ensures Blend(y0, y1, velocity) == Mean(y0, y1, (velocity - SUBSONIC) / (SUPERSONIC - SUBSONIC))
  {
    var w := (velocity - SUBSONIC) / (SUPERSONIC - SUBSONIC);
    assert velocity - SUBSONIC == w * 65.0;
    assert Blend(y0, y1, velocity) == y0 + (y1 - y0) * w;
  }

  lemma MeanBetween(y0: real, y1: real, w: real)
    requires 0.0 <= w <= 1.0 && y0 <= y1
    ensures y0 <= Mean(y0, y1, w) <= y1 && y0 <= Mean(y1, y0, w) <= y1
  {
    var d := y1 - y0;
    assert 0.0 <= w * d && 0.0 <= (1.0 - w) * d;
    assert Mean(y0, y1, w) - y0 == w * d;
    assert y1 - Mean(y0, y1, w) == (1.0 - w) * d;
    assert Mean(y1, y0, w) - y0 == (1.0 - w) * d;
    assert y1 - Mean(y1, y0, w) == w * d;
  }

  lemma MeanMonotone(x0: real, x1: real, y0: real, y1: real, w: real)
    requires 0.0 <= w <= 1.0 && 0.0 <= x0 <= y0 && 0.0 <= x1 <= y1
    ensures 0.0 <= Mean(x0, x1, w) <= Mean(y0, y1, w)
  {
    assert x0 * (1.0 - w) >= 0.0 && x1 * w >= 0.0;
    assert (y0 - x0) * (1.0 - w) >= 0.0 && (y1 - x1) * w >= 0.0;
    assert Mean(y0, y1, w) - Mean(x0, x1, w) == (y0 - x0) * (1.0 - w) + (y1 - x1) * w;
  }

  /** The blend lies between the two models, and meets them at the ends of the transonic range. */
  lemma BlendBetween(y0: real, y1: real, velocity: real)
    ensures Blend(y0, y1, SUBSONIC) == y0 && Blend(y0, y1, SUPERSONIC) == y1
    ensures SUBSONIC <= velocity <= SUPERSONIC ==>
              (if y0 <= y1 then y0 <= Blend(y0, y1, velocity) <= y1 else y1 <= Blend(y0, y1, velocity) <= y0)
  {
    var w := (velocity - SUBSONIC) / (SUPERSONIC - SUBSONIC);
    BlendIsMean(y0, y1, velocity);
    BlendIsMean(y0, y1, SUBSONIC);
    BlendIsMean(y0, y1, SUPERSONIC);
    if 0.0 <= w <= 1.0 {
      if y0 <= y1 {
        MeanBetween(y0, y1, w);
      } else {
        MeanBetween(y1, y0, w);
      }
    }
  }

  lemma FinAngleMonotone(lib: MathLib, x: real, y: real, i: real, k: real, velocity: real)
    requires Lawful(lib) && 0.0 <= x <= y && i > 0.0 && k > 0.0
    ensures 0.0 <= FinAngle(lib, x, i, k, velocity) <= FinAngle(lib, y, i, k, velocity)
  {
    hide SubsonicFin, SupersonicFin, Blend, Mean;
    SubsonicMonotone(lib, x, y, i, k);
    SupersonicMonotone(x, y, i, k);
    if SUBSONIC < velocity < SUPERSONIC {
      var w := (velocity - SUBSONIC) / (SUPERSONIC - SUBSONIC);
      var x0, x1 := SubsonicFin(lib, x, i, k), SupersonicFin(x, i, k);
      var y0, y1 := SubsonicFin(lib, y, i, k), SupersonicFin(y, i, k);
      BlendIsMean(x0, x1, velocity);
      BlendIsMean(y0, y1, velocity);
      MeanMonotone(x0, x1, y0, y1, w);
    }
  }

  /** Equal and opposite demands get equal and opposite angles. */
  lemma EstimateOdd(lib: MathLib, x: real, s: StateData)
    requires Lawful(lib)
    ensures EstimateAlpha(lib, -x, s) == -EstimateAlpha(lib, x, s)
  {
    assert DegreesToRadians(-x) == -DegreesToRadians(x);
  }

  lemma EstimateSign(lib: MathLib, x: real, s: StateData)
    requires Lawful(lib)
    ensures x >= 0.0 ==> EstimateAlpha(lib, x, s) >= 0.0
    ensures x <= 0.0 ==> EstimateAlpha(lib, x, s) <= 0.0
  {
    if Abs(x) >= 1.0 && s.velUp >= 1.0 {
      var aa := Abs(DegreesToRadians(x));
      FinAngleMonotone(lib, aa, aa, Inertia(s.time), Leverage(Density(lib, s.altitude), s.velUp), s.velUp);
    }
  }

  /** A larger demand never gets a smaller angle, across dead zone, subsonic, transonic and supersonic flight. */
  lemma EstimateMonotone(lib: MathLib, x: real, y: real, s: StateData)
    requires Lawful(lib) && x <= y
    ensures EstimateAlpha(lib, x, s) <= EstimateAlpha(lib, y, s)
  {
    if x <= 0.0 <= y {
      EstimateSign(lib, x, s);
      EstimateSign(lib, y, s);
    } else if x > 0.0 {
      MonotoneAbove(lib, x, y, s);
    } else {
      MonotoneAbove(lib, -y, -x, s);
      EstimateOdd(lib, x, s);
      EstimateOdd(lib, y, s);
    }
  }

  lemma MonotoneAbove(lib: MathLib, x: real, y: real, s: StateData)
    requires Lawful(lib) && 0.0 < x <= y
    ensures EstimateAlpha(lib, x, s) <= EstimateAlpha(lib, y, s)
  {
    EstimateSign(lib, y, s);
    if x >= 1.0 && s.velUp >= 1.0 {
      var i, k := Inertia(s.time), Leverage(Density(lib, s.altitude), s.velUp);
      FinAngleMonotone(lib, Abs(DegreesToRadians(x)), Abs(DegreesToRadians(y)), i, k, s.velUp);
    }
  }

  // ---------------------------------------------------------------- what the angle is for

  /** Twice this times a lift coefficient is the roll torque: barometric density, velocity squared, area and arm. */
  function LiftScale(lib: MathLib, s: StateData): real {
    1.225 * lib.exp(-9.80665 * 0.0289644 / (8.31432 * 288.15) * s.altitude) * (s.velUp * s.velUp) * (0.00113 * 0.085)
  }

  /** The torque that a demand of x degrees per second squared asks for. */
  function DemandedTorque(x: real, s: StateData): real {
    (Abs(x) * M_PI / 180.0) * (if s.time < 5.7 then 0.086 - 0.009 * (s.time / 5.7) else 0.077)
  }

  lemma LiftScaleIs(lib: MathLib, s: StateData)
    requires Lawful(lib) && s.velUp >= 1.0
    ensures LiftScale(lib, s) == Leverage(Density(lib, s.altitude), s.velUp)
  {
    var rd, v := Density(lib, s.altitude), s.velUp;
    ExponentIs(s.altitude);
    Regroup(rd, v);
  }

  lemma ExponentIs(h: real)
    ensures -9.80665 * 0.0289644 / (8.31432 * 288.15) * h == (-9.80665 * 0.0289644 * h) / (8.31432 * 288.15)
  {
  }

  lemma Regroup(rd: real, v: real)
    ensures rd * v * v * FIN_AREA * FIN_ARM == rd * (v * v) * (0.00113 * 0.085)
  {
    assert rd * v * v == rd * (v * v);
  }

  lemma DemandedTorqueIs(x: real, s: StateData)
    ensures DemandedTorque(x, s) == Abs(DegreesToRadians(x)) * Inertia(s.time)
    ensures Abs(x) >= 1.0 ==> DemandedTorque(x, s) > 0.0
  {
    assert Abs(DegreesToRadians(x)) == Abs(x) * M_PI / 180.0;
    var i := Inertia(s.time);
    if Abs(x) >= 1.0 {
      Positive(Abs(x) * M_PI / 180.0, i);
    }
  }

  /** In the dead zone, a demand below 1 or a velocity below 1 m/s, the angle is zero. */
  lemma EstimateDeadZone(lib: MathLib, x: real, s: StateData)
    requires Lawful(lib) && (Abs(x) < 1.0 || s.velUp < 1.0)
    ensures EstimateAlpha(lib, x, s) == 0.0
  {
  }

  lemma FinsPositive(lib: MathLib, aa: real, i: real, k: real)
    requires Lawful(lib) && aa >= 0.0 && i > 0.0 && k > 0.0 && aa * i > 0.0
    ensures SubsonicFin(lib, aa, i, k) > 0.0 && SupersonicFin(aa, i, k) > 0.0
  {
    hide SubsonicFin, SupersonicFin;
    SubsonicMonotone(lib, aa, aa, i, k);
    SupersonicMonotone(aa, aa, i, k);
    SubsonicInverts(lib, aa, i, k, SubsonicFin(lib, aa, i, k));
    SupersonicInverts(aa, i, k, SupersonicFin(aa, i, k));
  }

  /**
   * In the transonic range the angle is the blend of the two models: as far from the subsonic angle towards the
   * supersonic one as the velocity is from 265 towards 330, hence between them.
   */
  lemma EstimateTransonic(lib: MathLib, x: real, s: StateData, a0: real, a1: real)
    requires Lawful(lib) && Abs(x) >= 1.0 && 265.0 < s.velUp < 330.0
    requires a0 >= 0.0 && 2.0 * LiftScale(lib, s) * SubsonicLift(a0) == DemandedTorque(x, s)
    requires 2.0 * LiftScale(lib, s) * (FIN_CBASE * DegreesToRadians(a1)) == DemandedTorque(x, s)
    ensures var size := Abs(EstimateAlpha(lib, x, s));
            && size - a0 == (a1 - a0) * (s.velUp - 265.0) / 65.0
            && (if a0 <= a1 then a0 <= size <= a1 else a1 <= size <= a0)
    ensures x > 0.0 <==> EstimateAlpha(lib, x, s) > 0.0
  {
    hide SubsonicFin, SupersonicFin, SubsonicLift, DegreesToRadians, Inertia, Leverage, Density;
    hide LiftScale, DemandedTorque;
    var aa, i, k := Abs(DegreesToRadians(x)), Inertia(s.time), Leverage(Density(lib, s.altitude), s.velUp);
    LiftScaleIs(lib, s);
    DemandedTorqueIs(x, s);
    SubsonicInverts(lib, aa, i, k, a0);
    SupersonicInverts(aa, i, k, a1);
    FinsPositive(lib, aa, i, k);
    BlendBetween(a0, a1, s.velUp);
  }

  /**
   * Outside the dead zone the angle is not zero and has the demand's sign; outside the transonic range too it yields
   * exactly the demanded torque.
   */
  lemma EstimateMeetsDemand(lib: MathLib, x: real, s: StateData)
    requires Lawful(lib) && Abs(x) >= 1.0 && s.velUp >= 1.0
    ensures var alpha := EstimateAlpha(lib, x, s);
            var k, torque := LiftScale(lib, s), DemandedTorque(x, s);
            && (x > 0.0 ==> alpha > 0.0) && (x < 0.0 ==> alpha < 0.0)
            && (s.velUp <= 265.0 ==> 2.0 * k * SubsonicLift(Abs(alpha)) == torque)
            && (s.velUp >= 330.0 ==> 2.0 * k * (FIN_CBASE * DegreesToRadians(Abs(alpha))) == torque)
  {
    hide SubsonicFin, SupersonicFin, SubsonicLift, DegreesToRadians, LiftScale, DemandedTorque;
    EstimateSign(lib, x, s);
    LiftScaleIs(lib, s);
    DemandedTorqueIs(x, s);
    var aa, i, k := Abs(DegreesToRadians(x)), Inertia(s.time), Leverage(Density(lib, s.altitude), s.velUp);
    SubsonicInverts(lib, aa, i, k, SubsonicFin(lib, aa, i, k));
    SupersonicInverts(aa, i, k, SupersonicFin(aa, i, k));
    FinsPositive(lib, aa, i, k);
    if SUBSONIC < s.velUp < SUPERSONIC {
      BlendBetween(SubsonicFin(lib, aa, i, k), SupersonicFin(aa, i, k), s.velUp);
    }
  }
}
