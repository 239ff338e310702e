/** Exactly when a fall depends on the ticks its time is cut into, with ticks as short as the kernel demands. */
module FallCuts {
  import opened Arithmetic
  import opened Locomotion
  import opened JumpTraces
  import opened Flight

  // ---------------------------------------------------------------- cuts

  /** Ticks the kernel accepts, none longer than `longest`, that add up to `t`. */
  ghost predicate IsCut(cut: seq<real>, t: real, longest: real) {
    AllPositive(cut) && Total(cut) == t && forall i | 0 <= i < |cut| :: cut[i] <= longest
  }

  lemma {:induction false} TotalJoins(a: seq<real>, b: seq<real>)
    ensures Total(a + b) == Total(a) + Total(b)
  {
    if b == [] {
      assert a + b == a;
    } else {
      assert (a + b)[..|a + b| - 1] == a + b[..|b| - 1];
      TotalJoins(a, b[..|b| - 1]);
    }
  }

  lemma CutsJoin(a: seq<real>, s: real, b: seq<real>, t: real, longest: real)
    requires IsCut(a, s, longest) && IsCut(b, t, longest)
    ensures IsCut(a + b, s + t, longest)
  {
    TotalJoins(a, b);
  }

  lemma OneTick(d: real, longest: real)
    requires 0.0 < d <= longest
    ensures IsCut([d], d, longest)
  {
    assert [d][..0] == [];
  }

  lemma TwoTicks(e: real, f: real, longest: real)
    requires 0.0 < e && 0.0 < f && e + f <= longest
    ensures IsCut([e, f], e + f, longest)
  {
    OneTick(e, longest);
    OneTick(f, longest);
    CutsJoin([e], e, [f], f, longest);
    assert [e] + [f] == [e, f];
  }

  lemma TicksSuffice(t: real, longest: real) returns (n: nat)
    requires t >= 0.0 && longest > 0.0
    ensures t <= n as real * longest
  {
    var ticks := t / longest;
    assert t == ticks * longest;
    ProductIsNotNegative(longest, t);
    assert ticks >= 0.0;
    n := ticks.Floor + 1;
    assert ticks <= n as real;
    Grows(longest, ticks, n as real);
  }

  lemma {:induction false} CutIntoAtMost(t: real, longest: real, n: nat) returns (cut: seq<real>)
    requires 0.0 <= t <= n as real * longest && longest > 0.0
    ensures IsCut(cut, t, longest)
    decreases n
  {
    if t == 0.0 {
      cut := [];
    } else if t <= longest {
      cut := [t];
      OneTick(t, longest);
    } else {
      assert (n - 1) as real * longest == n as real * longest - longest;
      var rest := CutIntoAtMost(t - longest, longest, n - 1);
      OneTick(longest, longest);
      CutsJoin(rest, t - longest, [longest], longest, longest);
      cut := rest + [longest];
    }
  }

  /** Any time can be cut into accepted ticks. */
  lemma CutInto(t: real, longest: real) returns (cut: seq<real>)
    requires t >= 0.0 && longest > 0.0
    ensures IsCut(cut, t, longest)
  {
    var n := TicksSuffice(t, longest);
    cut := CutIntoAtMost(t, longest, n);
  }

  // ---------------------------------------------------------------- falling through joined cuts

  lemma {:induction false} FallJoins(g: real, terminal: real, m: Motion, a: seq<real>, b: seq<real>)
    ensures FallThrough(g, terminal, m, a + b) == FallThrough(g, terminal, FallThrough(g, terminal, m, a), b)
  {
    if b == [] {
      assert a + b == a;
    } else {
      assert (a + b)[..|a + b| - 1] == a + b[..|b| - 1];
      FallJoins(g, terminal, m, a, b[..|b| - 1]);
    }
  }

  lemma FallInOneTick(g: real, terminal: real, m: Motion, d: real)
    ensures FallThrough(g, terminal, m, [d]) == Fall(g, terminal, m, d)
  {
    assert [d][..0] == [];
  }

  lemma FallInTwoTicks(g: real, terminal: real, m: Motion, e: real, f: real)
    ensures FallThrough(g, terminal, m, [e, f]) == Fall(g, terminal, Fall(g, terminal, m, e), f)
  {
    assert [e, f] == [e] + [f];
    FallJoins(g, terminal, m, [e], [f]);
    FallInOneTick(g, terminal, m, e);
    FallInOneTick(g, terminal, Fall(g, terminal, m, e), f);
  }

  lemma StuckFall(g: real, terminal: real, m: Motion, d: real)
    requires m.velocity - g * d <= -terminal
    ensures Fall(g, terminal, m, d) == Motion(m.y + (m.velocity - terminal) * 0.5 * d, -terminal)
  {
  }

  lemma DropsDiffer(y: real, mean: real, level: real, e: real, f: real)
    requires mean != level && f > 0.0
    ensures y + mean * (e + f) != y + mean * e + level * f
  {
    assert mean * (e + f) == mean * e + mean * f;
    ProductsDiffer(mean, level, f);
  }

  /** Once the speed sticks within the first of two ticks, one tick instead of the two ends elsewhere. */
  lemma StuckTicksDiffer(g: real, terminal: real, m: Motion, e: real, f: real)
    requires g > 0.0 && e > 0.0 && f > 0.0 && m.velocity != -terminal && m.velocity - g * e <= -terminal
    ensures var one, two := Fall(g, terminal, m, e + f), Fall(g, terminal, Fall(g, terminal, m, e), f);
            one.velocity == two.velocity == -terminal && one.y != two.y
  {
    Grows(g, e, e + f);
    Grows(g, 0.0, f);
    var mean := (m.velocity - terminal) * 0.5;
    StuckFall(g, terminal, m, e);
    StuckFall(g, terminal, m, e + f);
    StuckFall(g, terminal, Fall(g, terminal, m, e), f);
    DropsDiffer(m.y, mean, -terminal, e, f);
  }

  /** A gap between two bodies at the terminal speed stays, however they go on falling. */
  lemma GapStays(g: real, terminal: real, a: Motion, b: Motion, rest: seq<real>)
    requires g > 0.0 && AllPositive(rest) && a.velocity == b.velocity == -terminal && a.y != b.y
    ensures FallThrough(g, terminal, a, rest) != FallThrough(g, terminal, b, rest)
  {
    TerminalFallIsStraight(g, terminal, a.y, rest);
    TerminalFallIsStraight(g, terminal, b.y, rest);
  }

  lemma FallInThree(g: real, terminal: real, m: Motion, before: seq<real>, ticks: seq<real>, after: seq<real>)
    ensures FallThrough(g, terminal, m, before + (ticks + after))
            == FallThrough(g, terminal, FallThrough(g, terminal, FallThrough(g, terminal, m, before), ticks), after)
  {
    FallJoins(g, terminal, m, before, ticks + after);
    FallJoins(g, terminal, FallThrough(g, terminal, m, before), ticks, after);
  }

  lemma SplitTickDiffers(g: real, terminal: real, mid: Motion, e: real, f: real, after: seq<real>)
    requires g > 0.0 && e > 0.0 && f > 0.0 && AllPositive(after)
    requires mid.velocity != -terminal && mid.velocity - g * e <= -terminal
    ensures FallThrough(g, terminal, FallThrough(g, terminal, mid, [e + f]), after)
            != FallThrough(g, terminal, FallThrough(g, terminal, mid, [e, f]), after)
  {
    FallInOneTick(g, terminal, mid, e + f);
    FallInTwoTicks(g, terminal, mid, e, f);
    StuckTicksDiffer(g, terminal, mid, e, f);
    GapStays(g, terminal, Fall(g, terminal, mid, e + f), Fall(g, terminal, Fall(g, terminal, mid, e), f), after);
  }

  lemma SplitTickShows(
      g: real, terminal: real, m: Motion, before: seq<real>, e: real, f: real, after: seq<real>)
    requires g > 0.0 && e > 0.0 && f > 0.0 && AllPositive(after)
    requires var mid := FallThrough(g, terminal, m, before);
             mid.velocity != -terminal && mid.velocity - g * e <= -terminal
    ensures FallThrough(g, terminal, m, before + ([e + f] + after))
            != FallThrough(g, terminal, m, before + ([e, f] + after))
  {
    FallInThree(g, terminal, m, before, [e + f], after);
    FallInThree(g, terminal, m, before, [e, f], after);
    SplitTickDiffers(g, terminal, FallThrough(g, terminal, m, before), e, f, after);
  }

  // ---------------------------------------------------------------- where the clamp bites

  /** A moment of the fall shortly before the clamp bites, and two short ticks of which the first meets it. */
  ghost predicate MeetsClamp(
    g: real, terminal: real, m: Motion, t: real, longest: real, before: seq<real>, p: real, e: real, f: real)
  {
    && p >= 0.0 && IsCut(before, p, longest)
    && e > 0.0 && f > 0.0 && e + f <= longest && p + e + f <= t
    && FallThrough(g, terminal, m, before).velocity != -terminal
    && FallThrough(g, terminal, m, before).velocity - g * e <= -terminal
  }

  function Lesser(a: real, b: real): real {
    if a < b then a else b
  }

  lemma ClampMetAtOnce(g: real, terminal: real, m: Motion, t: real, longest: real) returns (e: real)
    requires g > 0.0 && t > 0.0 && longest > 0.0 && m.velocity < -terminal
    ensures MeetsClamp(g, terminal, m, t, longest, [], 0.0, e, e)
  {
    e := Lesser(t, longest) / 2.0;
    Grows(g, 0.0, e);
  }

  lemma ClampTime(g: real, terminal: real, v: real, t: real) returns (s: real)
    requires g > 0.0 && t > 0.0 && v > -terminal && v - g * t < -terminal
    ensures 0.0 < s < t && v - g * s == -terminal
  {
    s := (v + terminal) / g;
    assert g * s == v + terminal;
    if s >= t { Grows(g, t, s); }
    if s <= 0.0 { Grows(g, s, 0.0); }
  }

  lemma SpeedBeforeClamp(g: real, terminal: real, v: real, s: real, e: real)
    requires g > 0.0 && e > 0.0 && v - g * s == -terminal
    ensures v - g * (s - e) > -terminal && v - g * (s - e) - g * e == -terminal
  {
    assert g * (s - e) == g * s - g * e;
    Grows(g, 0.0, e);
  }

  lemma TicksAround(s: real, t: real, longest: real) returns (e: real, f: real)
    requires 0.0 < s < t && longest > 0.0
    ensures 0.0 < e <= s && 0.0 < f && e + f <= longest && s + f <= t
  {
    e, f := Lesser(s, longest / 2.0), Lesser(t - s, longest / 2.0);
  }

  lemma SpeedAfterFreeFall(g: real, terminal: real, m: Motion, cut: seq<real>, p: real, longest: real)
    requires g > 0.0 && IsCut(cut, p, longest) && m.velocity >= -terminal && m.velocity - g * p >= -terminal
    ensures FallThrough(g, terminal, m, cut).velocity == m.velocity - g * p
  {
    FallIsExact(g, terminal, m, cut);
  }

  lemma TicksAroundClamp(g: real, terminal: real, v: real, t: real, longest: real)
    returns (p: real, e: real, f: real)
    requires g > 0.0 && t > 0.0 && longest > 0.0 && v > -terminal && v - g * t < -terminal
    ensures p >= 0.0 && e > 0.0 && f > 0.0 && e + f <= longest && p + e + f <= t
    ensures v - g * p > -terminal && v - g * p - g * e == -terminal
  {
    var s := ClampTime(g, terminal, v, t);
    e, f := TicksAround(s, t, longest);
    p := s - e;
    SpeedBeforeClamp(g, terminal, v, s, e);
  }

  lemma ClampMetLater(g: real, terminal: real, m: Motion, t: real, longest: real)
    returns (before: seq<real>, p: real, e: real, f: real)
    requires g > 0.0 && t > 0.0 && longest > 0.0 && m.velocity > -terminal && m.velocity - g * t < -terminal
    ensures MeetsClamp(g, terminal, m, t, longest, before, p, e, f)
  {
    p, e, f := TicksAroundClamp(g, terminal, m.velocity, t, longest);
    before := CutInto(p, longest);
    SpeedAfterFreeFall(g, terminal, m, before, p, longest);
  }

  // ---------------------------------------------------------------- the exact condition

  /** Every way of cutting `t` into accepted ticks ends in the same place. */
  ghost predicate CutsEndAlike(g: real, terminal: real, m: Motion, t: real, longest: real) {
    forall coarse: seq<real>, fine: seq<real> | IsCut(coarse, t, longest) && IsCut(fine, t, longest) ::
      FallThrough(g, terminal, m, coarse) == FallThrough(g, terminal, m, fine)
  }

  lemma CutAroundTheClamp(
      g: real, terminal: real, m: Motion, t: real, longest: real, before: seq<real>, p: real, e: real, f: real)
    returns (coarse: seq<real>, fine: seq<real>)
    requires g > 0.0 && longest > 0.0 && MeetsClamp(g, terminal, m, t, longest, before, p, e, f)
    ensures IsCut(coarse, t, longest) && IsCut(fine, t, longest)
    ensures FallThrough(g, terminal, m, coarse) != FallThrough(g, terminal, m, fine)
  {
    var left := t - (p + e + f);
    var after := CutInto(left, longest);
    OneTick(e + f, longest);
    TwoTicks(e, f, longest);
    CutsJoin([e + f], e + f, after, left, longest);
    CutsJoin([e, f], e + f, after, left, longest);
    CutsJoin(before, p, [e + f] + after, e + f + left, longest);
    CutsJoin(before, p, [e, f] + after, e + f + left, longest);
    coarse, fine := before + ([e + f] + after), before + ([e, f] + after);
    SplitTickShows(g, terminal, m, before, e, f, after);
  }

  /** A fall that passes the terminal speed shows its ticks, however short they have to be. */
  lemma ClampShowsTheCut(g: real, terminal: real, m: Motion, t: real, longest: real)
    returns (coarse: seq<real>, fine: seq<real>)
    requires g > 0.0 && t > 0.0 && longest > 0.0
    requires m.velocity != -terminal && !StaysFree(g, terminal, m, t)
    ensures IsCut(coarse, t, longest) && IsCut(fine, t, longest)
    ensures FallThrough(g, terminal, m, coarse) != FallThrough(g, terminal, m, fine)
  {
    var before: seq<real>, p, e, f := [], 0.0, 0.0, 0.0;
    if m.velocity < -terminal {
      e := ClampMetAtOnce(g, terminal, m, t, longest);
      f := e;
    } else {
      before, p, e, f := ClampMetLater(g, terminal, m, t, longest);
    }
    coarse, fine := CutAroundTheClamp(g, terminal, m, t, longest, before, p, e, f);
  }

  lemma UnclampedCutsEndAlike(g: real, terminal: real, m: Motion, t: real, cut: seq<real>, longest: real)
    requires g > 0.0 && t > 0.0 && IsCut(cut, t, longest)
    requires m.velocity == -terminal || StaysFree(g, terminal, m, t)
    ensures FallThrough(g, terminal, m, cut)
            == if m.velocity == -terminal then Motion(m.y - terminal * t, -terminal) else FreeFall(g, m, t)
  {
    if m.velocity == -terminal {
      TerminalFallIsStraight(g, terminal, m.y, cut);
    } else {
      Grows(g, 0.0, t);
      FallIsExact(g, terminal, m, cut);
    }
  }

  /**
   Whatever the longest tick accepted, a fall over `t` does not depend on how `t` is cut exactly when
   the terminal speed either holds from the start or is not passed by the end.
   */
  lemma FallIgnoresCutsExactlyWhen(g: real, terminal: real, m: Motion, t: real, longest: real)
    requires g > 0.0 && t > 0.0 && longest > 0.0
    ensures CutsEndAlike(g, terminal, m, t, longest) <==> m.velocity == -terminal || StaysFree(g, terminal, m, t)
  {
    if m.velocity == -terminal || StaysFree(g, terminal, m, t) {
      forall cut: seq<real> | IsCut(cut, t, longest)
        ensures FallThrough(g, terminal, m, cut)
                == if m.velocity == -terminal then Motion(m.y - terminal * t, -terminal) else FreeFall(g, m, t)
      {
        UnclampedCutsEndAlike(g, terminal, m, t, cut, longest);
      }
    } else {
      var coarse, fine := ClampShowsTheCut(g, terminal, m, t, longest);
    }
  }

  // ---------------------------------------------------------------- the kernel's own ticks

  /** Airborne ticks only, on no steep slope, with no reset, and too late to jump. */
  ghost predicate Airborne(s: Setup, bodies: seq<Body>, events: seq<Event>, i: nat, n: nat) {
    && i <= n <= |events| < |bodies| && bodies[i].coyote == 0.0
    && forall m | i <= m < n ::
         events[m].Tick? && !events[m].frame.grounded && !events[m].frame.steep && !ResetsAt(s, bodies, events, m)
  }

  function Deltas(events: seq<Event>, i: nat, n: nat): seq<real>
    requires i <= n <= |events|
  {
    if i == n then [] else Deltas(events, i, n - 1) + [Delta(events[n - 1])]
  }

  /** What the kernel does in the air is such a fall, through a cut of the time that passes. */
  lemma {:induction false} AirborneRunIsAFall(s: Setup, bodies: seq<Body>, events: seq<Event>, i: nat, n: nat)
    requires IsRun(s, bodies, events) && Airborne(s, bodies, events, i, n)
    ensures IsCut(Deltas(events, i, n), Elapsed(events, i, n), s.tuning.maximumDt)
    ensures bodies[n].coyote == 0.0
    ensures MotionOf(bodies[n])
            == FallThrough(JumpGravity(s.tuning, s.horse), s.tuning.terminalFallSpeed, MotionOf(bodies[i]),
                           Deltas(events, i, n))
  {
    if i < n {
      var d := Delta(events[n - 1]);
      AirborneRunIsAFall(s, bodies, events, i, n - 1);
      AirborneTickFalls(s, bodies[n - 1], events[n - 1].frame);
      OneTick(d, s.tuning.maximumDt);
      CutsJoin(Deltas(events, i, n - 1), Elapsed(events, i, n - 1), [d], d, s.tuning.maximumDt);
      assert Deltas(events, i, n)[..|Deltas(events, i, n)| - 1] == Deltas(events, i, n - 1);
    }
  }

  /** Two runs that are airborne alike for the same time, short of the terminal speed, end alike. */
  lemma AirborneRunsEndAlike(
      s: Setup, bodies: seq<Body>, events: seq<Event>, i: nat, n: nat,
      others: seq<Body>, ticks: seq<Event>, j: nat, k: nat)
    requires IsRun(s, bodies, events) && Airborne(s, bodies, events, i, n)
    requires IsRun(s, others, ticks) && Airborne(s, others, ticks, j, k)
    requires MotionOf(bodies[i]) == MotionOf(others[j]) && Elapsed(events, i, n) == Elapsed(ticks, j, k) > 0.0
    requires var m, g, terminal := MotionOf(bodies[i]), JumpGravity(s.tuning, s.horse), s.tuning.terminalFallSpeed;
             m.velocity == -terminal || StaysFree(g, terminal, m, Elapsed(events, i, n))
    ensures MotionOf(bodies[n]) == MotionOf(others[k])
  {
    AirborneRunIsAFall(s, bodies, events, i, n);
    AirborneRunIsAFall(s, others, ticks, j, k);
    GravityIsPositive(s.tuning, s.horse);
    FallIgnoresCutsExactlyWhen(JumpGravity(s.tuning, s.horse), s.tuning.terminalFallSpeed, MotionOf(bodies[i]),
                               Elapsed(events, i, n), s.tuning.maximumDt);
  }

  /** One such fall at default tuning: a Courser at 29 m/s ends apart after one long tick and two short ones. */
  lemma ClampedFallDependsOnSteps(y: real)
    ensures var longest := DEFAULT_TUNING.maximumDt;
            IsCut([0.2], 0.2, longest) && IsCut([0.1, 0.1], 0.2, longest)
    ensures var g, terminal := JumpGravity(DEFAULT_TUNING, Courser), DEFAULT_TUNING.terminalFallSpeed;
            && FallThrough(g, terminal, Motion(y, -29.0), [0.2]) == Motion(y - 5.9, -30.0)
            && FallThrough(g, terminal, Motion(y, -29.0), [0.1, 0.1]) == Motion(y - 5.95, -30.0)
  {
    var g, terminal, m := JumpGravity(DEFAULT_TUNING, Courser), DEFAULT_TUNING.terminalFallSpeed, Motion(y, -29.0);
    OneTick(0.2, DEFAULT_TUNING.maximumDt);
    TwoTicks(0.1, 0.1, DEFAULT_TUNING.maximumDt);
    FallInOneTick(g, terminal, m, 0.2);
    FallInTwoTicks(g, terminal, m, 0.1, 0.1);
    assert g >= 20.0;
  }

  /** A tick in the air, with nothing pressed. */
  function AirTick(delta: real): Frame {
    Frame(false, false, false, false, 1.0, delta)
  }

  /** The kernel itself: the same body after the same fifth of a second, in one accepted tick or in two. */
  lemma KernelTicksEndApart(s: Setup, b: Body)
    requires s.tuning == DEFAULT_TUNING && s.horse == Courser
    requires b.coyote == 0.0 && b.velocity == -29.0 && b.y >= 0.0
    ensures var one := Stepped(s.tuning, s.horse, s.spawnY, b, AirTick(0.2));
            MotionOf(one) == Motion(b.y - 5.9, -30.0)
    ensures var half := Stepped(s.tuning, s.horse, s.spawnY, b, AirTick(0.1));
            var two := Stepped(s.tuning, s.horse, s.spawnY, half, AirTick(0.1));
            MotionOf(two) == Motion(b.y - 5.95, -30.0)
  {
    var g, terminal := JumpGravity(s.tuning, s.horse), s.tuning.terminalFallSpeed;
    ClampedFallDependsOnSteps(b.y);
    FallInOneTick(g, terminal, MotionOf(b), 0.2);
    FallInTwoTicks(g, terminal, MotionOf(b), 0.1, 0.1);
    AirborneTickFalls(s, b, AirTick(0.2));
    AirborneTickFalls(s, b, AirTick(0.1));
    AirborneTickFalls(s, Stepped(s.tuning, s.horse, s.spawnY, b, AirTick(0.1)), AirTick(0.1));
  }
}
