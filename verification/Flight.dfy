/** Motion that does not depend on how time is cut into steps. */
module Flight {
  import opened Arithmetic
  import opened Locomotion
  import opened JumpTraces

  // ---------------------------------------------------------------- arithmetic

  /** Flying for `a` and then for `b` is flying for `a + b`. */
  lemma BallisticComposes(v: real, g: real, a: real, b: real)
    ensures Ballistic(v, g, a + b) == Ballistic(v, g, a) + Ballistic(v - g * a, g, b)
    ensures v - g * (a + b) == (v - g * a) - g * b
  {
    assert 0.5 * g * (a + b) * (a + b) == 0.5 * g * a * a + g * a * b + 0.5 * g * b * b;
  }

  /** The trapezoid over one unclamped tick is exact. */
  lemma TrapezoidIsBallistic(v: real, g: real, d: real)
    ensures Travelled(v, v - g * d, d) == Ballistic(v, g, d)
  {
  }

  lemma TravelledGrows(a: real, b: real, c: real, e: real, d: real)
    requires a <= b && c <= e && d > 0.0
    ensures Travelled(a, c, d) <= Travelled(b, e, d)
    ensures c < e ==> Travelled(a, c, d) < Travelled(b, e, d)
  {
    var low, high := (a + c) * 0.5, (b + e) * 0.5;
    assert low <= high;
    Grows(d, low, high);
  }

  // ---------------------------------------------------------------- free fall, step by step

  datatype Motion = Motion(y: real, velocity: real)

  function Fall(g: real, terminal: real, m: Motion, delta: real): Motion {
    var velocity := Dropped(m.velocity, g, terminal, delta);
    Motion(m.y + Travelled(m.velocity, velocity, delta), velocity)
  }

  function FallThrough(g: real, terminal: real, m: Motion, deltas: seq<real>): Motion {
    if deltas == [] then m
    else Fall(g, terminal, FallThrough(g, terminal, m, deltas[..|deltas| - 1]), deltas[|deltas| - 1])
  }

  function Total(deltas: seq<real>): real {
    if deltas == [] then 0.0 else Total(deltas[..|deltas| - 1]) + deltas[|deltas| - 1]
  }

  ghost predicate AllPositive(deltas: seq<real>) {
    forall i | 0 <= i < |deltas| :: deltas[i] > 0.0
  }

  /** Where free fall from `m` is after `t`, and how a clamped fall may differ. */
  ghost predicate FallenFor(g: real, terminal: real, m: Motion, t: real, end: Motion) {
    && end.velocity == Dropped(m.velocity, g, terminal, t)
    && end.y >= m.y + Ballistic(m.velocity, g, t)
    && (m.velocity - g * t >= -terminal <==> end.y == m.y + Ballistic(m.velocity, g, t))
  }

  lemma FallOnce(g: real, terminal: real, m: Motion, mid: Motion, s: real, d: real)
    requires g > 0.0 && d > 0.0 && FallenFor(g, terminal, m, s, mid)
    ensures FallenFor(g, terminal, m, s + d, Fall(g, terminal, mid, d))
  {
    var free := m.velocity - g * s;
    BallisticComposes(m.velocity, g, s, d);
    Grows(g, 0.0, d);
    TrapezoidIsBallistic(free, g, d);
    var end := Fall(g, terminal, mid, d);
    TravelledGrows(free, mid.velocity, free - g * d, end.velocity, d);
  }

  /**
   However time is cut, falling follows the parabola exactly until it would pass the terminal speed;
   past that point the velocity sticks and the body is strictly above the parabola.
   */
  lemma {:induction false} FallIsBallistic(g: real, terminal: real, m: Motion, deltas: seq<real>)
    requires g > 0.0 && AllPositive(deltas) && m.velocity >= -terminal
    ensures FallenFor(g, terminal, m, Total(deltas), FallThrough(g, terminal, m, deltas))
  {
    if deltas != [] {
      var init, d := deltas[..|deltas| - 1], deltas[|deltas| - 1];
      FallIsBallistic(g, terminal, m, init);
      FallOnce(g, terminal, m, FallThrough(g, terminal, m, init), Total(init), d);
    }
  }

  /** Where free fall without a limit would be after `t`. */
  function FreeFall(g: real, m: Motion, t: real): Motion {
    Motion(m.y + Ballistic(m.velocity, g, t), m.velocity - g * t)
  }

  ghost predicate StaysFree(g: real, terminal: real, m: Motion, t: real) {
    FreeFall(g, m, t).velocity >= -terminal
  }

  lemma FallenIsFree(g: real, terminal: real, m: Motion, t: real, end: Motion)
    requires FallenFor(g, terminal, m, t, end) && StaysFree(g, terminal, m, t)
    ensures end == FreeFall(g, m, t)
  {
  }

  lemma FallIsExact(g: real, terminal: real, m: Motion, deltas: seq<real>)
    requires g > 0.0 && AllPositive(deltas) && m.velocity >= -terminal
    requires StaysFree(g, terminal, m, Total(deltas))
    ensures FallThrough(g, terminal, m, deltas) == FreeFall(g, m, Total(deltas))
  {
    FallIsBallistic(g, terminal, m, deltas);
    FallenIsFree(g, terminal, m, Total(deltas), FallThrough(g, terminal, m, deltas));
  }

  /** Two ways of cutting the same airtime end in the same place, short of the terminal speed. */
  lemma FallDoesNotDependOnSteps(g: real, terminal: real, m: Motion, coarse: seq<real>, fine: seq<real>)
    requires g > 0.0 && AllPositive(coarse) && AllPositive(fine) && Total(coarse) == Total(fine)
    requires m.velocity >= -terminal && StaysFree(g, terminal, m, Total(coarse))
    ensures FallThrough(g, terminal, m, coarse) == FallThrough(g, terminal, m, fine) == FreeFall(g, m, Total(coarse))
  {
    FallIsExact(g, terminal, m, coarse);
    FallIsExact(g, terminal, m, fine);
  }

  /** A body that already falls at the terminal speed keeps to a straight line, however time is cut. */
  lemma {:induction false} TerminalFallIsStraight(g: real, terminal: real, y: real, deltas: seq<real>)
    requires g > 0.0 && AllPositive(deltas)
    ensures FallThrough(g, terminal, Motion(y, -terminal), deltas) == Motion(y - terminal * Total(deltas), -terminal)
  {
    if deltas != [] {
      var init, d := deltas[..|deltas| - 1], deltas[|deltas| - 1];
      TerminalFallIsStraight(g, terminal, y, init);
      Grows(g, 0.0, d);
      assert terminal * Total(deltas) == terminal * Total(init) + terminal * d;
    }
  }

  // ---------------------------------------------------------------- a whole jump

  /** From the jumping tick on: airborne ticks only, on no steep slope, with no reset. */
  ghost predicate AirborneAfter(s: Setup, bodies: seq<Body>, events: seq<Event>, i: nat, n: nat) {
    && i < n <= |events| < |bodies|
    && JumpsAt(s, bodies, events, i) && !events[i].frame.steep
    && forall m | i < m < n ::
         events[m].Tick? && !events[m].frame.grounded && !events[m].frame.steep && !ResetsAt(s, bodies, events, m)
  }

  lemma FallKeepsToTheParabola(v: real, g: real, terminal: real, y: real, b: Motion, t: real, d: real)
    requires g > 0.0 && d > 0.0
    requires b == Motion(y + Ballistic(v, g, t), v - g * t)
    requires v - g * (t + d) >= -terminal
    ensures Fall(g, terminal, b, d) == Motion(y + Ballistic(v, g, t + d), v - g * (t + d))
  {
    BallisticComposes(v, g, t, d);
    TrapezoidIsBallistic(v - g * t, g, d);
  }

  lemma GravityIsPositive(tuning: Tuning, horse: HorseArchetype)
    requires tuning.IsSanitized()
    ensures JumpGravity(tuning, horse) > 0.0
  {
    QuotientIsPositive(tuning.gravity, horse.JumpGravity(), Courser.JumpGravity());
  }

  lemma QuotientIsPositive(a: real, b: real, c: real)
    requires a > 0.0 && b > 0.0 && c > 0.0
    ensures a * b / c > 0.0
  {
    assert a * b > 0.0;
  }

  function MotionOf(b: Body): Motion {
    Motion(b.y, b.velocity)
  }

  lemma AirborneTickFalls(s: Setup, b: Body, f: Frame)
    requires b.coyote == 0.0 && f.delta > 0.0 && !f.grounded && !f.steep && !Resets(s.tuning, b, f)
    ensures var next := Stepped(s.tuning, s.horse, s.spawnY, b, f);
            && MotionOf(next) == Fall(JumpGravity(s.tuning, s.horse), s.tuning.terminalFallSpeed, MotionOf(b), f.delta)
            && next.coyote == 0.0
  {
  }

  lemma JumpTickRises(s: Setup, b: Body, f: Frame)
    requires Jumps(s.tuning, b, f) && !f.steep
    ensures var v, g := JumpVelocity(s.tuning, s.horse), JumpGravity(s.tuning, s.horse);
            var next := Stepped(s.tuning, s.horse, s.spawnY, b, f);
            && MotionOf(next)
               == Motion(b.y + Ballistic(v, g, f.delta), Dropped(v, g, s.tuning.terminalFallSpeed, f.delta))
            && next.coyote == 0.0
  {
  }

  ghost predicate OnParabola(v: real, g: real, y: real, t: real, b: Body) {
    MotionOf(b) == Motion(y + Ballistic(v, g, t), v - g * t) && b.coyote == 0.0
  }

  lemma FlightContinues(s: Setup, v: real, g: real, y: real, t: real, b: Body, f: Frame)
    requires s.tuning.IsSanitized() && g == JumpGravity(s.tuning, s.horse)
    requires OnParabola(v, g, y, t, b) && v - g * (t + f.delta) >= -s.tuning.terminalFallSpeed
    requires f.delta > 0.0 && !f.grounded && !f.steep && !Resets(s.tuning, b, f)
    ensures OnParabola(v, g, y, t + f.delta, Stepped(s.tuning, s.horse, s.spawnY, b, f))
  {
    GravityIsPositive(s.tuning, s.horse);
    AirborneTickFalls(s, b, f);
    FallKeepsToTheParabola(v, g, s.tuning.terminalFallSpeed, y, MotionOf(b), t, f.delta);
  }

  ghost predicate Unclamped(s: Setup, v: real, g: real, t: real) {
    && v == JumpVelocity(s.tuning, s.horse) && g == JumpGravity(s.tuning, s.horse)
    && v - g * t >= -s.tuning.terminalFallSpeed
  }

  lemma FlightStarts(s: Setup, v: real, g: real, b: Body, f: Frame)
    requires Jumps(s.tuning, b, f) && !f.steep && Unclamped(s, v, g, f.delta)
    ensures OnParabola(v, g, b.y, f.delta, Stepped(s.tuning, s.horse, s.spawnY, b, f))
  {
    JumpTickRises(s, b, f);
  }

  lemma UnclampedEarlier(s: Setup, v: real, g: real, t: real, d: real)
    requires s.tuning.IsSanitized() && Unclamped(s, v, g, t + d) && d > 0.0
    ensures Unclamped(s, v, g, t)
  {
    GravityIsPositive(s.tuning, s.horse);
    Grows(g, t, t + d);
  }

  lemma FlightStartsInRun(s: Setup, bodies: seq<Body>, events: seq<Event>, i: nat, v: real, g: real)
    requires IsRun(s, bodies, events) && JumpsAt(s, bodies, events, i) && !events[i].frame.steep
    requires Unclamped(s, v, g, Elapsed(events, i, i + 1))
    ensures OnParabola(v, g, bodies[i].y, Elapsed(events, i, i + 1), bodies[i + 1])
  {
    assert Elapsed(events, i, i) == 0.0;
    FlightStarts(s, v, g, bodies[i], events[i].frame);
  }

  lemma FlightContinuesInRun(
      s: Setup, bodies: seq<Body>, events: seq<Event>, y: real, t: real, m: nat, v: real, g: real)
    requires IsRun(s, bodies, events) && m < |events|
    requires events[m].Tick? && !events[m].frame.grounded && !events[m].frame.steep && !ResetsAt(s, bodies, events, m)
    requires OnParabola(v, g, y, t, bodies[m]) && Unclamped(s, v, g, t + Delta(events[m]))
    ensures OnParabola(v, g, y, t + Delta(events[m]), bodies[m + 1])
  {
    FlightContinues(s, v, g, y, t, bodies[m], events[m].frame);
  }

  /** A jump flies the same parabola whatever ticks its airtime is cut into. */
  lemma {:induction false} JumpFliesTheParabola(
      s: Setup, bodies: seq<Body>, events: seq<Event>, i: nat, n: nat, v: real, g: real)
    requires IsRun(s, bodies, events) && AirborneAfter(s, bodies, events, i, n)
    requires Unclamped(s, v, g, Elapsed(events, i, n))
    ensures OnParabola(v, g, bodies[i].y, Elapsed(events, i, n), bodies[n])
  {
    if n == i + 1 {
      FlightStartsInRun(s, bodies, events, i, v, g);
    } else {
      var t := Elapsed(events, i, n - 1);
      UnclampedEarlier(s, v, g, t, Delta(events[n - 1]));
      JumpFliesTheParabola(s, bodies, events, i, n - 1, v, g);
      FlightContinuesInRun(s, bodies, events, bodies[i].y, t, n - 1, v, g);
    }
  }

  // ---------------------------------------------------------------- the designed arc

  /** The designed arc by the fraction of its airtime that has passed. */
  function Height(apex: real, u: real): real {
    4.0 * apex * (u * (1.0 - u))
  }

  lemma ArcShape(apex: real, airtime: real, u: real)
    requires airtime > 0.0
    ensures Ballistic(4.0 * apex / airtime, 8.0 * apex / (airtime * airtime), u * airtime) == Height(apex, u)
  {
    var t := u * airtime;
    assert 4.0 * apex / airtime * t == 4.0 * apex * u;
    assert 8.0 * apex / (airtime * airtime) * t * t == 8.0 * apex * u * u by {
      var q := 8.0 * apex / (airtime * airtime);
      assert q * (airtime * airtime) == 8.0 * apex;
      assert q * t * t == q * (airtime * airtime) * (u * u);
    }
  }

  /** At default tuning every archetype's jump peaks at its apex, halfway through its airtime, and then lands. */
  lemma DefaultJumpMeetsItsDesign(horse: HorseArchetype, t: real)
    ensures var v, g := JumpVelocity(DEFAULT_TUNING, horse), JumpGravity(DEFAULT_TUNING, horse);
            && Ballistic(v, g, horse.JumpAirtime() / 2.0) == horse.JumpApex()
            && Ballistic(v, g, horse.JumpAirtime()) == 0.0
            && Ballistic(v, g, t) <= horse.JumpApex()
            && (Ballistic(v, g, t) > 0.0 <==> 0.0 < t < horse.JumpAirtime())
            && v - g * horse.JumpAirtime() >= -DEFAULT_TUNING.terminalFallSpeed
  {
    var apex, airtime := horse.JumpApex(), horse.JumpAirtime();
    assert JumpVelocity(DEFAULT_TUNING, horse) == 4.0 * apex / airtime;
    assert JumpGravity(DEFAULT_TUNING, horse) == 8.0 * apex / (airtime * airtime);
    var u := t / airtime;
    assert t == u * airtime && airtime / 2.0 == 0.5 * airtime && airtime == 1.0 * airtime;
    ArcShape(apex, airtime, u);
    ArcShape(apex, airtime, 0.5);
    ArcShape(apex, airtime, 1.0);
    HalfwayIsHighest(apex, u);
    FractionOfAirtime(u, airtime);
  }

  /** A rise after `t` of flight as designed: the apex halfway, nothing at the end, above ground between. */
  predicate MeetsDesign(horse: HorseArchetype, t: real, rise: real) {
    && (t == horse.JumpAirtime() / 2.0 ==> rise == horse.JumpApex())
    && (t == horse.JumpAirtime() ==> rise == 0.0)
    && (0.0 < t < horse.JumpAirtime() ==> 0.0 < rise <= horse.JumpApex())
  }

  lemma DefaultArc(s: Setup, t: real)
    requires s.tuning == DEFAULT_TUNING && t <= s.horse.JumpAirtime()
    ensures var v, g := JumpVelocity(s.tuning, s.horse), JumpGravity(s.tuning, s.horse);
            Unclamped(s, v, g, t) && MeetsDesign(s.horse, t, Ballistic(v, g, t))
  {
    DefaultJumpMeetsItsDesign(s.horse, t);
    GravityIsPositive(s.tuning, s.horse);
    Grows(JumpGravity(s.tuning, s.horse), t, s.horse.JumpAirtime());
  }

  lemma RiseOnParabola(v: real, g: real, y: real, t: real, b: Body)
    requires OnParabola(v, g, y, t, b)
    ensures b.y - y == Ballistic(v, g, t)
  {
  }

  /**
   In any run at default tuning a jump stands at its apex after half its airtime, is back at the
   height it left from after all of it, and is above that height and under the apex in between.
   */
  lemma DefaultJumpInRun(s: Setup, bodies: seq<Body>, events: seq<Event>, i: nat, n: nat)
    requires s.tuning == DEFAULT_TUNING && IsRun(s, bodies, events) && AirborneAfter(s, bodies, events, i, n)
    requires Elapsed(events, i, n) <= s.horse.JumpAirtime()
    ensures MeetsDesign(s.horse, Elapsed(events, i, n), bodies[n].y - bodies[i].y)
  {
    var v, g, t := JumpVelocity(s.tuning, s.horse), JumpGravity(s.tuning, s.horse), Elapsed(events, i, n);
    DefaultArc(s, t);
    JumpFliesTheParabola(s, bodies, events, i, n, v, g);
    RiseOnParabola(v, g, bodies[i].y, t, bodies[n]);
  }

  lemma HalfwayIsHighest(apex: real, u: real)
    requires apex > 0.0
    ensures Height(apex, u) <= apex == Height(apex, 0.5)
    ensures Height(apex, u) > 0.0 <==> 0.0 < u < 1.0
  {
    var rise := u * (1.0 - u);
    assert 0.25 - rise == (u - 0.5) * (u - 0.5);
    assert rise > 0.0 <==> 0.0 < u < 1.0;
    ScaleKeepsSign(4.0 * apex, rise);
    ScaleKeepsSign(4.0 * apex, 0.25 - rise);
    assert 4.0 * apex * (0.25 - rise) == apex - Height(apex, u);
  }

  lemma FractionOfAirtime(u: real, airtime: real)
    requires airtime > 0.0
    ensures u > 0.0 <==> u * airtime > 0.0
    ensures u < 1.0 <==> u * airtime < airtime
  {
    var rest := 1.0 - u;
    ScaleKeepsSign(airtime, u);
    ScaleKeepsSign(airtime, rest);
    assert airtime * rest == airtime - u * airtime;
  }

  // ---------------------------------------------------------------- rate limiters

  function Abs(x: real): real { if x < 0.0 then -x else x }

  function MoveTowards(current: real, target: real, limit: real): real {
    if Abs(target - current) <= limit then target
    else if target > current then current + limit
    else current - limit
  }

  function MoveThrough(current: real, target: real, rate: real, deltas: seq<real>): real {
    if deltas == [] then current
    else MoveTowards(MoveThrough(current, target, rate, deltas[..|deltas| - 1]), target, rate * deltas[|deltas| - 1])
  }

  lemma MoveTowardsComposes(current: real, target: real, a: real, b: real)
    requires a >= 0.0 && b >= 0.0
    ensures MoveTowards(MoveTowards(current, target, a), target, b) == MoveTowards(current, target, a + b)
  {
  }

  /** How far the ramp may have moved after all the ticks. */
  function Reach(rate: real, deltas: seq<real>): real {
    if deltas == [] then 0.0 else Reach(rate, deltas[..|deltas| - 1]) + rate * deltas[|deltas| - 1]
  }

  lemma {:induction false} ReachIsProportional(rate: real, deltas: seq<real>)
    ensures Reach(rate, deltas) == rate * Total(deltas)
  {
    if deltas != [] {
      ReachIsProportional(rate, deltas[..|deltas| - 1]);
    }
  }

  lemma {:induction false} RampReaches(current: real, target: real, rate: real, deltas: seq<real>)
    requires rate >= 0.0 && AllPositive(deltas)
    ensures Reach(rate, deltas) >= 0.0
    ensures MoveThrough(current, target, rate, deltas) == MoveTowards(current, target, Reach(rate, deltas))
  {
    if deltas != [] {
      var init, d := deltas[..|deltas| - 1], deltas[|deltas| - 1];
      RampReaches(current, target, rate, init);
      ProductIsNotNegative(rate, d);
      MoveTowardsComposes(current, target, Reach(rate, init), rate * d);
    }
  }

  /** Ramping at a fixed rate towards a fixed target depends only on the total time. */
  lemma RampDoesNotDependOnSteps(current: real, target: real, rate: real, deltas: seq<real>)
    requires rate >= 0.0 && AllPositive(deltas)
    ensures MoveThrough(current, target, rate, deltas) == MoveTowards(current, target, rate * Total(deltas))
  {
    RampReaches(current, target, rate, deltas);
    ReachIsProportional(rate, deltas);
  }

  // ---------------------------------------------------------------- terrain recovery

  predicate SumsToProduct(exp: real -> real, x: real, y: real) {
    exp(x + y) == exp(x) * exp(y)
  }

  predicate IsFraction(p: real) {
    0.0 < p <= 1.0
  }

  /** The two laws of the exponential function that recovery rests on. */
  ghost predicate IsExponential(exp: real -> real) {
    && (forall x: real, y: real :: SumsToProduct(exp, x, y))
    && (forall x: real | x <= 0.0 :: IsFraction(exp(x)))
  }

  function RecoveredThrough(
      exp: real -> real, charging: bool, multiplier: real, target: real, recovery: real, deltas: seq<real>): real
    requires recovery > 0.0
  {
    if deltas == [] then multiplier
    else Recovered(
           exp, charging, RecoveredThrough(exp, charging, multiplier, target, recovery, deltas[..|deltas| - 1]),
           target, recovery, deltas[|deltas| - 1])
  }

  lemma GapsMultiply(m: real, target: real, p: real, q: real)
    requires m <= target && 0.0 < p
    ensures Closer(m, target, p) <= target
    ensures Closer(Closer(m, target, p), target, q) == Closer(m, target, p * q)
  {
    var gap := target - m;
    ProductIsNotNegative(gap, p);
    assert gap * (1.0 - p) == gap - gap * p;
    assert (gap * p) * (1.0 - q) == gap * p - gap * p * q;
    assert gap * (1.0 - p * q) == gap - gap * p * q;
  }

  lemma NoGapStaysClosed(target: real, q: real)
    ensures Closer(target, target, q) == target
  {
  }

  lemma ExponentsAdd(recovery: real, a: real, b: real)
    requires recovery > 0.0 && a > 0.0
    ensures Exponent(recovery, a + b) == Exponent(recovery, a) + Exponent(recovery, b)
    ensures Exponent(recovery, a) <= 0.0
  {
  }

  lemma RecoveryComposes(exp: real -> real, charging: bool, m: real, target: real, recovery: real, a: real, b: real)
    requires IsExponential(exp) && recovery > 0.0 && a > 0.0 && b > 0.0
    ensures Recovered(exp, charging, Recovered(exp, charging, m, target, recovery, a), target, recovery, b)
            == Recovered(exp, charging, m, target, recovery, a + b)
  {
    var x, y := Exponent(recovery, a), Exponent(recovery, b);
    ExponentsAdd(recovery, a, b);
    var p, q := exp(x), exp(y);
    assert SumsToProduct(exp, x, y) && IsFraction(p);
    NoGapStaysClosed(target, q);
    if target >= m {
      GapsMultiply(m, target, p, q);
    }
  }

  /** Recovery over any positive time depends only on its total. */
  lemma {:induction false} RecoveryDoesNotDependOnSteps(
      exp: real -> real, charging: bool, m: real, target: real, recovery: real, deltas: seq<real>)
    requires IsExponential(exp) && recovery > 0.0 && AllPositive(deltas) && deltas != []
    ensures Total(deltas) > 0.0
    ensures RecoveredThrough(exp, charging, m, target, recovery, deltas)
            == Recovered(exp, charging, m, target, recovery, Total(deltas))
  {
    var init, d := deltas[..|deltas| - 1], deltas[|deltas| - 1];
    if init != [] {
      RecoveryDoesNotDependOnSteps(exp, charging, m, target, recovery, init);
      RecoveryComposes(exp, charging, m, target, recovery, Total(init), d);
    }
  }
}
