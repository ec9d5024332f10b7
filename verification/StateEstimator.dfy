/** Launch detection and integration of the IMU (src/state.c), over the reals. */
module StateEstimator {
  import opened Bytes
  import opened FinLaw

  const EARTHG := 9.80665
  const ADIS_GLSB := 0.00333 * EARTHG
  const ADIS_RLSB := 0.05
  const LAUNCH_ALTITUDE := 1390.0
  const LAUNCH_ACCEL := 40.0
  const GRAVITY := 9.81
  const NS := 1_000_000_000.0

  /** An IMU message in physical units, with its decoded time in nanoseconds. */
  datatype Reading = Reading(now: nat, accel: real, rollRate: real)

  /** The message's raw counts, after byte swapping. */
  function FromCounts(now: nat, accX: int, gyroX: int): Reading {
    Reading(now, ADIS_GLSB * accX as real, ADIS_RLSB * gyroX as real)
  }

  datatype Estimate = Estimate(state: StateData, lastTime: nat, hasLaunched: bool, launchTime: nat)

  const INITIAL := Estimate(StateData(0.0, 0.0, 0.0, LAUNCH_ALTITUDE, 0.0, 0.0), 0, false, 0)

  /** The difference of two uint64_t times, in seconds. */
  function Seconds(later: nat, earlier: nat): real {
    ((later - earlier) % TWO_64) as real / NS
  }

  /** What a rate held for dt seconds adds up to. */
  function Over(rate: real, dt: real): real {
    rate * dt
  }

  function OnImu(est: Estimate, r: Reading): Estimate {
    var launching := !est.hasLaunched && Abs(r.accel) > LAUNCH_ACCEL;
    var launched := est.hasLaunched || launching;
    var launchTime := if launching then r.now else est.launchTime;
    var lastTime := if est.lastTime == 0 then r.now else est.lastTime;
    var state :=
      if !launched then est.state
      else
        var dt := Seconds(r.now, lastTime);
        var accUp := r.accel - GRAVITY;
        var velUp := est.state.velUp + Over(accUp, dt);
        StateData(Seconds(r.now, launchTime), accUp, velUp, est.state.altitude + Over(velUp, dt), -r.rollRate,
                  est.state.rollAngle + Over(r.rollRate, dt));
    Estimate(state, r.now, launched, launchTime)
  }

  function Run(rs: seq<Reading>): Estimate {
    if rs == [] then INITIAL else OnImu(Run(rs[..|rs| - 1]), rs[|rs| - 1])
  }

  // ---------------------------------------------------------------- the history

  /** The first reading beyond the launch threshold, or the length if there is none. */
  function LaunchIndex(rs: seq<Reading>): (k: nat)
    ensures k <= |rs| && (k < |rs| ==> Abs(rs[k].accel) > LAUNCH_ACCEL)
    ensures forall i :: 0 <= i < k ==> Abs(rs[i].accel) <= LAUNCH_ACCEL
  {
    if rs == [] then 0
    else
      var k := LaunchIndex(rs[..|rs| - 1]);
      if k < |rs| - 1 || Abs(rs[|rs| - 1].accel) > LAUNCH_ACCEL then k else |rs|
  }

  /** The time reading i is integrated from: the reading before, unless that one's time is the unset value 0. */
  function StepFrom(rs: seq<Reading>, i: nat): nat
    requires i < |rs|
  {
    if i > 0 && rs[i - 1].now != 0 then rs[i - 1].now else rs[i].now
  }

  function Dt(rs: seq<Reading>, i: nat): real
    requires i < |rs|
  {
    Seconds(rs[i].now, StepFrom(rs, i))
  }

  /** Time integrated over readings lo..hi. */
  function SumDt(rs: seq<Reading>, lo: nat, hi: nat): real
    requires lo <= hi <= |rs|
    decreases hi
  {
    if lo == hi then 0.0 else SumDt(rs, lo, hi - 1) + Dt(rs, hi - 1)
  }

  /** Velocity: the sum of acceleration less gravity times step, over readings lo..hi. */
  function SumVelocity(rs: seq<Reading>, lo: nat, hi: nat): real
    requires lo <= hi <= |rs|
    decreases hi
  {
    if lo == hi then 0.0
    else SumVelocity(rs, lo, hi - 1) + Over(rs[hi - 1].accel - GRAVITY, Dt(rs, hi - 1))
  }

  /** Height gained: the sum of velocity after each reading times step. */
  function SumHeight(rs: seq<Reading>, lo: nat, hi: nat): real
    requires lo <= hi <= |rs|
    decreases hi
  {
    if lo == hi then 0.0
    else SumHeight(rs, lo, hi - 1) + Over(SumVelocity(rs, lo, hi), Dt(rs, hi - 1))
  }

  /** Roll angle: the sum of roll rate times step. */
  function SumRoll(rs: seq<Reading>, lo: nat, hi: nat): real
    requires lo <= hi <= |rs|
    decreases hi
  {
    if lo == hi then 0.0 else SumRoll(rs, lo, hi - 1) + Over(rs[hi - 1].rollRate, Dt(rs, hi - 1))
  }

  lemma {:induction false} SumsOfPrefix(rs: seq<Reading>, lo: nat, hi: nat)
    requires lo <= hi < |rs|
    ensures var front := rs[..|rs| - 1];
            && SumDt(rs, lo, hi) == SumDt(front, lo, hi)
            && SumVelocity(rs, lo, hi) == SumVelocity(front, lo, hi)
            && SumHeight(rs, lo, hi) == SumHeight(front, lo, hi)
            && SumRoll(rs, lo, hi) == SumRoll(front, lo, hi)
    decreases hi
  {
    hide Seconds, Over;
    if lo < hi {
      SumsOfPrefix(rs, lo, hi - 1);
    }
  }

  /**
   * The estimate is a function of the history: launch latches at the first strong reading, and the sums start there.
   */
  lemma {:induction false} IntegratorHistory(rs: seq<Reading>)
    ensures var est, k := Run(rs), LaunchIndex(rs);
            && est.hasLaunched == (k < |rs|)
            && est.lastTime == (if rs == [] then 0 else rs[|rs| - 1].now)
            && (est.hasLaunched ==> est.launchTime == rs[k].now
                                    && est.state.time == Seconds(rs[|rs| - 1].now, rs[k].now)
                                    && est.state.accUp == rs[|rs| - 1].accel - GRAVITY
                                    && est.state.rollRate == -rs[|rs| - 1].rollRate)
            && est.state.velUp == SumVelocity(rs, k, |rs|)
            && est.state.altitude == LAUNCH_ALTITUDE + SumHeight(rs, k, |rs|)
            && est.state.rollAngle == SumRoll(rs, k, |rs|)
            && (!est.hasLaunched ==> est.state == INITIAL.state)
  {
    hide Seconds, Over;
    if rs != [] {
      var n: nat := |rs| - 1;
      IntegratorHistory(rs[..n]);
      StepOfLast(rs);
      var k := LaunchIndex(rs);
      if k <= n {
        SumsOfPrefix(rs, k, n);
      }
      assert k == n ==> SumVelocity(rs, k, n) == SumHeight(rs, k, n) == SumRoll(rs, k, n) == 0.0;
    }
  }

  lemma StepOfLast(rs: seq<Reading>)
    requires rs != []
    ensures var n := |rs| - 1;
            var last := if n == 0 then 0 else rs[..n][n - 1].now;
            Dt(rs, n) == Seconds(rs[n].now, if last == 0 then rs[n].now else last)
  {
    hide Seconds;
  }

  // ---------------------------------------------------------------- telescoping

  predicate NonDecreasing(rs: seq<Reading>) {
    forall i :: 0 < i < |rs| ==> rs[i - 1].now <= rs[i].now < TWO_64
  }

  /** The first time after the unset value 0, from reading i on. */
  function FirstSet(rs: seq<Reading>, i: nat, hi: nat): nat
    requires i <= hi <= |rs|
    decreases hi - i
  {
    if i == hi then 0 else if rs[i].now != 0 then rs[i].now else FirstSet(rs, i + 1, hi)
  }

  /** Where integration starts: the last reading before launch, or the first one with a time. */
  function Origin(rs: seq<Reading>, lo: nat, hi: nat): nat
    requires lo <= hi <= |rs|
  {
    if lo > 0 && rs[lo - 1].now != 0 then rs[lo - 1].now else FirstSet(rs, lo, hi)
  }

  lemma SecondsForward(later: nat, earlier: nat)
    requires earlier <= later < TWO_64
    ensures Seconds(later, earlier) == (later - earlier) as real / NS
  {
  }

  /** A time that goes back counts as almost 2^64 ns. */
  lemma SecondsBackward(later: nat, earlier: nat)
    requires later < earlier < TWO_64
    ensures Seconds(later, earlier) == (0x1_0000_0000_0000_0000 - (earlier - later)) as real / 1_000_000_000.0
  {
  }

  lemma {:induction false} FirstSetGrows(rs: seq<Reading>, i: nat, hi: nat)
    requires NonDecreasing(rs) && i < hi <= |rs|
    ensures FirstSet(rs, i, hi) == if FirstSet(rs, i, hi - 1) != 0 then FirstSet(rs, i, hi - 1) else rs[hi - 1].now
    ensures FirstSet(rs, i, hi - 1) == 0 ==> i == hi - 1 || rs[hi - 2].now == 0
    ensures FirstSet(rs, i, hi - 1) != 0 ==> i < hi - 1 && rs[hi - 2].now != 0
    decreases hi - i
  {
    if i < hi - 1 {
      FirstSetGrows(rs, i + 1, hi);
      if rs[i].now != 0 {
        TimesOrdered(rs, i, hi - 2);
      }
    }
  }

  lemma {:induction false} TimesOrdered(rs: seq<Reading>, i: nat, j: nat)
    requires NonDecreasing(rs) && i <= j < |rs|
    ensures rs[i].now <= rs[j].now
    decreases j
  {
    if i < j {
      TimesOrdered(rs, i, j - 1);
    }
  }

  /** With non-decreasing times the steps add up to the time since the origin, with none lost or counted twice. */
  lemma {:induction false} StepsTelescope(rs: seq<Reading>, lo: nat, hi: nat)
    requires NonDecreasing(rs) && lo < hi <= |rs| && rs[0].now < TWO_64
    ensures Origin(rs, lo, hi) <= rs[hi - 1].now
    ensures SumDt(rs, lo, hi) == (rs[hi - 1].now - Origin(rs, lo, hi)) as real / NS
    decreases hi
  {
    var i := hi - 1;
    FirstSetGrows(rs, lo, hi);
    SecondsForward(rs[i].now, StepFrom(rs, i));
    if lo < i {
      StepsTelescope(rs, lo, i);
    } else {
      assert SumDt(rs, lo, i) == 0.0;
    }
  }

  /** The time integrated since launch is the time since the last reading before it. */
  lemma LaunchTelescopes(rs: seq<Reading>)
    requires NonDecreasing(rs) && LaunchIndex(rs) < |rs| && rs[0].now < TWO_64
    ensures var k := LaunchIndex(rs);
            k > 0 && rs[k - 1].now > 0 ==>
              SumDt(rs, k, |rs|) == (rs[|rs| - 1].now - rs[k - 1].now) as real / NS
  {
    hide SumDt, LaunchIndex;
    StepsTelescope(rs, LaunchIndex(rs), |rs|);
  }

  // ---------------------------------------------------------------- constant acceleration

  function Steady(start: nat, step: nat, accel: real, rollRate: real, n: nat): seq<Reading> {
    seq(n, i requires 0 <= i < n => Reading(start + (i + 1) * step, accel, rollRate))
  }

  function RunFrom(est: Estimate, rs: seq<Reading>): Estimate {
    if rs == [] then est else OnImu(RunFrom(est, rs[..|rs| - 1]), rs[|rs| - 1])
  }

  function SteadyVelocity(v: real, a: real, dt: real, n: nat): real {
    v + n as real * (a * dt)
  }

  function SteadyHeight(h: real, v: real, a: real, dt: real, n: nat): real {
    h + n as real * (v * dt) + (a * dt * dt) * (n * (n + 1)) as real / 2.0
  }

  lemma SteadyStep(h: real, v: real, a: real, dt: real, n: nat)
    ensures SteadyVelocity(v, a, dt, n + 1) == SteadyVelocity(v, a, dt, n) + Over(a, dt)
    ensures SteadyHeight(h, v, a, dt, n + 1) == SteadyHeight(h, v, a, dt, n) + Over(SteadyVelocity(v, a, dt, n + 1), dt)
  {
    var c, k := a * dt * dt, n as real;
    assert ((n + 1) * (n + 2)) as real == (n * (n + 1)) as real + 2.0 * (k + 1.0) by {
      assert (n + 1) * (n + 2) == n * (n + 1) + 2 * (n + 1);
    }
    assert c * ((n + 1) * (n + 2)) as real / 2.0 == c * (n * (n + 1)) as real / 2.0 + c * (k + 1.0);
    assert (v + (k + 1.0) * (a * dt)) * dt == v * dt + c * (k + 1.0);
  }

  lemma {:induction false} RunFromConcat(est: Estimate, a: seq<Reading>, b: seq<Reading>)
    ensures RunFrom(est, a + b) == RunFrom(RunFrom(est, a), b)
  {
    hide OnImu;
    if b == [] {
      assert a + b == a;
    } else {
      RunFromConcat(est, a, b[..|b| - 1]);
      assert (a + b)[..|a + b| - 1] == a + b[..|b| - 1];
    }
  }

  lemma {:induction false} RunIsRunFrom(rs: seq<Reading>)
    ensures Run(rs) == RunFrom(INITIAL, rs)
  {
    hide OnImu;
    if rs != [] {
      RunIsRunFrom(rs[..|rs| - 1]);
    }
  }

  /**
   * n equal steps dt at constant acceleration a add exactly n*a*dt to the velocity and n*v*dt + a*dt*dt*n*(n+1)/2 to
   * the height, counted from any reading after launch or from the last reading before it.
   */
  lemma {:induction false} ConstantAcceleration(est: Estimate, step: nat, accel: real, rollRate: real, n: nat)
    requires est.hasLaunched || Abs(accel) > LAUNCH_ACCEL
    requires est.lastTime > 0 && step < TWO_64
    ensures var a, dt := accel - GRAVITY, step as real / NS;
            var est' := RunFrom(est, Steady(est.lastTime, step, accel, rollRate, n));
            && est'.hasLaunched == (est.hasLaunched || n > 0) && est'.lastTime == est.lastTime + n * step
            && est'.state.velUp == SteadyVelocity(est.state.velUp, a, dt, n)
            && est'.state.altitude == SteadyHeight(est.state.altitude, est.state.velUp, a, dt, n)
  {
    if n > 0 {
      hide SteadyVelocity, SteadyHeight, Over, Seconds;
      var m := n - 1;
      var rs := Steady(est.lastTime, step, accel, rollRate, n);
      assert rs[..m] == Steady(est.lastTime, step, accel, rollRate, m);
      ConstantAcceleration(est, step, accel, rollRate, m);
      LaterByStep(est.lastTime, step, m);
      SteadyStep(est.state.altitude, est.state.velUp, accel - GRAVITY, step as real / NS, m);
    }
  }

  lemma LaterByStep(start: nat, step: nat, m: nat)
    requires step < TWO_64
    ensures start + (m + 1) * step == start + m * step + step
    ensures start + m * step >= start
    ensures Seconds(start + (m + 1) * step, start + m * step) == step as real / NS
  {
    assert (m + 1) * step == m * step + step;
    assert m * step >= 0;
  }

  // ---------------------------------------------------------------- the module's variables

  class StateEstimator {
    var currentState: StateData
    var lastTime: nat
    var hasLaunched: bool
    var launchTime: nat
    /** The states sent so far. */
    var sent: seq<StateData>
    ghost var readings: seq<Reading>

    ghost predicate Valid()
      reads this
    {
      Estimate(currentState, lastTime, hasLaunched, launchTime) == Run(readings)
    }

    constructor ()
      ensures Valid() && readings == [] && sent == []
    {
      hasLaunched, lastTime, launchTime := false, 0, 0;
      currentState := StateData(0.0, 0.0, 0.0, LAUNCH_ALTITUDE, 0.0, 0.0);
      sent, readings := [], [];
    }

    method StateReceiveImu(now: nat, accX: int, gyroX: int)
      requires Valid()
      modifies this
      ensures Valid() && readings == old(readings) + [FromCounts(now, accX, gyroX)]
      ensures sent == old(sent) + [currentState]
    {
      hide Run, Seconds, Over;
      RunSnoc(readings, FromCounts(now, accX, gyroX));
      var accel := ADIS_GLSB * accX as real;
      var rollRate := ADIS_RLSB * gyroX as real;
      if !hasLaunched && Abs(accel) > LAUNCH_ACCEL {
        hasLaunched := true;
        launchTime := now;
      }
      if lastTime == 0 {
        lastTime := now;
      }
      if hasLaunched {
        var dt := Seconds(now, lastTime);
        currentState := currentState.(time := Seconds(now, launchTime));
        currentState := currentState.(accUp := accel - GRAVITY);
        currentState := currentState.(velUp := currentState.velUp + Over(currentState.accUp, dt));
        currentState := currentState.(altitude := currentState.altitude + Over(currentState.velUp, dt));
        currentState := currentState.(rollRate := -rollRate);
        currentState := currentState.(rollAngle := currentState.rollAngle + Over(rollRate, dt));
      }
      sent := sent + [currentState];
      lastTime := now;
      readings := readings + [FromCounts(now, accX, gyroX)];
    }
  }

  lemma RunSnoc(rs: seq<Reading>, r: Reading)
    ensures Run(rs + [r]) == OnImu(Run(rs), r)
  {
    assert (rs + [r])[..|rs|] == rs;
  }
}
