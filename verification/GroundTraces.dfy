/** What the kernel's ticks do on the ground, in the air and on a slope, told by what each tick observed. */
module GroundTraces {
  import opened Locomotion
  import opened JumpTraces

  // ---------------------------------------------------------------- one tick of a run

  /** Ground under the horse, no jump and no reset: it stands where it is, and only a rising speed is kept. */
  lemma GroundedTickStands(s: Setup, bodies: seq<Body>, events: seq<Event>, i: nat)
    requires IsRun(s, bodies, events) && i < |events| && events[i].Tick? && events[i].frame.grounded
    requires !JumpsAt(s, bodies, events, i) && !ResetsAt(s, bodies, events, i)
    ensures var before, after := bodies[i], bodies[i + 1];
            && after.grounded && after.y == before.y && after.airTime == 0.0
            && (before.velocity > 0.0 && !events[i].frame.steep ==> after.velocity == before.velocity)
            && (before.velocity <= 0.0 || events[i].frame.steep ==> after.velocity == 0.0)
  {
    assert bodies[i + 1] == Next(s, bodies[i], events[i]);
  }

  /** No ground, or a jump: the horse is in the air, and its time there goes on from the last ground. */
  lemma AirborneTickGoesOn(s: Setup, bodies: seq<Body>, events: seq<Event>, i: nat)
    requires IsRun(s, bodies, events) && i < |events| && events[i].Tick? && !ResetsAt(s, bodies, events, i)
    requires !events[i].frame.grounded || JumpsAt(s, bodies, events, i)
    ensures !bodies[i + 1].grounded
    ensures bodies[i + 1].airTime
            == if events[i].frame.grounded then 0.0 else bodies[i].airTime + events[i].frame.delta
  {
    assert bodies[i + 1] == Next(s, bodies[i], events[i]);
  }

  /** A tick on a steep slope never ends rising. */
  lemma SteepTickNeverRises(s: Setup, bodies: seq<Body>, events: seq<Event>, i: nat)
    requires IsRun(s, bodies, events) && i < |events| && events[i].Tick? && events[i].frame.steep
    ensures bodies[i + 1].velocity <= 0.0
  {
    assert bodies[i + 1] == Next(s, bodies[i], events[i]);
  }

  /** A reset is asked for or follows a fall below the kill plane, and puts the horse back at its spawn. */
  lemma ResetsExactlyWhen(s: Setup, bodies: seq<Body>, events: seq<Event>, i: nat)
    requires IsRun(s, bodies, events) && i < |events| && events[i].Tick?
    ensures ResetsAt(s, bodies, events, i) <==> events[i].frame.reset || bodies[i].y < s.tuning.killPlaneY
    ensures ResetsAt(s, bodies, events, i) ==>
              bodies[i + 1] == Body(s.spawnY, 0.0, true, 0.0, s.tuning.coyoteTime, 0.0, 0.0)
  {
    assert bodies[i + 1] == Next(s, bodies[i], events[i]);
  }

  /** The engine's correction replaces height, speed and ground, and leaves the timers of jumping alone. */
  lemma CorrectionIsTaken(s: Setup, bodies: seq<Body>, events: seq<Event>, i: nat)
    requires IsRun(s, bodies, events) && i < |events| && events[i].EngineMoved?
    ensures var before, after := bodies[i], bodies[i + 1];
            && after.y == events[i].y && after.velocity == events[i].velocity && after.grounded == events[i].grounded
            && after.airTime == before.airTime && after.coyote == before.coyote && after.buffer == before.buffer
  {
    assert bodies[i + 1] == Next(s, bodies[i], events[i]);
  }

  // ---------------------------------------------------------------- time in the air

  /** Over a run the air time is what has passed since the last ground, reset or spawn. */
  lemma {:induction false} AirTimeIsTimeSinceGround(s: Setup, bodies: seq<Body>, events: seq<Event>, k: int, n: nat)
    requires IsRun(s, bodies, events) && n <= |events| && -1 <= k < n
    requires Supports(s, bodies, events, k) && forall m | k < m < n :: !Supports(s, bodies, events, m)
    ensures bodies[n].airTime == Elapsed(events, k + 1, n)
  {
    if n > 0 {
      assert bodies[n] == Next(s, bodies[n - 1], events[n - 1]);
    }
    if k < n - 1 {
      assert !Supports(s, bodies, events, n - 1);
      AirTimeIsTimeSinceGround(s, bodies, events, k, n - 1);
    }
  }

  // ---------------------------------------------------------------- landing recovery

  /** The event finds ground under a horse that was in the air. */
  predicate LandsAt(bodies: seq<Body>, events: seq<Event>, i: nat) {
    && i < |events| && i < |bodies| && !bodies[i].grounded
    && match events[i] case Tick(f) => f.grounded case EngineMoved(_, _, grounded) => grounded
  }

  /** A jump or a reset, either of which ends the recovery. */
  predicate EndsRecovery(s: Setup, bodies: seq<Body>, events: seq<Event>, i: nat) {
    JumpsAt(s, bodies, events, i) || ResetsAt(s, bodies, events, i)
  }

  /** Event `k` is the last landing before `n`, and nothing has ended its recovery. */
  ghost predicate LandedLast(s: Setup, bodies: seq<Body>, events: seq<Event>, k: nat, n: nat) {
    && k < n <= |events| && LandsAt(bodies, events, k)
    && (forall m: nat | k < m < n :: !LandsAt(bodies, events, m))
    && forall m: nat | k <= m < n :: !EndsRecovery(s, bodies, events, m)
  }

  function LeftOf(total: real, used: real): real {
    if used < total then total - used else 0.0
  }

  lemma LandingStarts(s: Setup, bodies: seq<Body>, events: seq<Event>, k: nat)
    requires IsRun(s, bodies, events) && k < |events| && LandsAt(bodies, events, k)
    requires !EndsRecovery(s, bodies, events, k)
    ensures bodies[k + 1].landingRecovery == LeftOf(0.2, Elapsed(events, k, k + 1))
  {
    assert bodies[k + 1] == Next(s, bodies[k], events[k]);
    assert Elapsed(events, k, k) == 0.0;
  }

  lemma RecoveryGoesOn(s: Setup, bodies: seq<Body>, events: seq<Event>, m: nat)
    requires IsRun(s, bodies, events) && m < |events| && !LandsAt(bodies, events, m)
    requires !EndsRecovery(s, bodies, events, m) && bodies[m].landingRecovery >= 0.0
    ensures bodies[m + 1].landingRecovery == LeftOf(bodies[m].landingRecovery, Delta(events[m]))
  {
    assert bodies[m + 1] == Next(s, bodies[m], events[m]);
  }

  /** Landing recovery is what is left of a fifth of a second since the last landing. */
  lemma {:induction false} LandingRecoveryIsAWindow(s: Setup, bodies: seq<Body>, events: seq<Event>, k: nat, n: nat)
    requires IsRun(s, bodies, events) && LandedLast(s, bodies, events, k, n)
    ensures bodies[n].landingRecovery == LeftOf(0.2, Elapsed(events, k, n))
  {
    if k == n - 1 {
      LandingStarts(s, bodies, events, k);
    } else {
      LandingRecoveryIsAWindow(s, bodies, events, k, n - 1);
      RecoveryGoesOn(s, bodies, events, n - 1);
      assert events[n - 1].Tick? ==> events[n - 1].frame.delta > 0.0;
    }
  }

  /** Without such a landing there is none: before the first, and after a jump or a reset. */
  lemma {:induction false} NoRecoveryWithoutLanding(s: Setup, bodies: seq<Body>, events: seq<Event>, n: nat)
    requires IsRun(s, bodies, events) && n <= |events|
    requires forall k: nat :: !LandedLast(s, bodies, events, k, n)
    ensures bodies[n].landingRecovery == 0.0
  {
    if n > 0 {
      var e, earlier: nat := events[n - 1], n - 1;
      assert bodies[n] == Next(s, bodies[n - 1], e);
      if !EndsRecovery(s, bodies, events, n - 1) {
        assert !LandedLast(s, bodies, events, n - 1, n);
        forall k: nat | LandedLast(s, bodies, events, k, earlier) ensures false {
          assert LandedLast(s, bodies, events, k, n);
        }
        NoRecoveryWithoutLanding(s, bodies, events, n - 1);
        RecoveryGoesOn(s, bodies, events, n - 1);
        assert e.Tick? ==> e.frame.delta > 0.0;
      }
    }
  }

  // ---------------------------------------------------------------- terrain

  /** Worse ground slows at once. Better ground closes all but a twentieth of the gap in the design's time. */
  lemma TerrainIsRecovered(exp: real -> real, horse: HorseArchetype, multiplier: real, target: real, delta: real)
    ensures Recovered(exp, true, multiplier, target, horse.TerrainRecovery(), delta) == 1.0
    ensures target < multiplier ==> Recovered(exp, false, multiplier, target, horse.TerrainRecovery(), delta) == target
    ensures target >= multiplier && delta == horse.TerrainRecovery() ==>
              target - Recovered(exp, false, multiplier, target, horse.TerrainRecovery(), delta)
              == (target - multiplier) * exp(-3.0)
  {
  }

  /** The kernel's terrain step: none on a steep slope, a fresh start after a reset. */
  lemma TerrainFollowsTheTick(
      exp: real -> real, tuning: Tuning, horse: HorseArchetype, charging: bool, multiplier: real, b: Body, f: Frame)
    ensures var after := TerrainAfter(exp, tuning, horse, charging, multiplier, b, f);
            && (f.reset || b.y < tuning.killPlaneY ==> after == 1.0)
            && (!f.reset && b.y >= tuning.killPlaneY && f.steep ==> after == multiplier)
            && (!f.reset && b.y >= tuning.killPlaneY && !f.steep && charging ==> after == 1.0)
            && (!f.reset && b.y >= tuning.killPlaneY && !f.steep && !charging && f.terrainTarget < multiplier ==>
                  after == f.terrainTarget)
  {
  }

  // ---------------------------------------------------------------- the design's numbers

  /** The three horses: apex, airtime and terrain recovery, and how the default tuning's windows read. */
  lemma DesignRows()
    ensures Courser.JumpApex() == 1.8 && Courser.JumpAirtime() == 0.7 && Courser.TerrainRecovery() == 2.0
    ensures Warhorse.JumpApex() == 1.2 && Warhorse.JumpAirtime() == 0.5 && Warhorse.TerrainRecovery() == 2.5
    ensures Mustang.JumpApex() == 2.2 && Mustang.JumpAirtime() == 0.8 && Mustang.TerrainRecovery() == 1.5
    ensures DEFAULT_TUNING.coyoteTime == 0.15 && DEFAULT_TUNING.jumpBufferTime == 0.12
    ensures DEFAULT_TUNING.terminalFallSpeed == 30.0 && DEFAULT_TUNING.killPlaneY == -20.0
    ensures DEFAULT_TUNING.maximumDt == 0.25
  {
  }

  /** Each horse's own jump speed and gravity: it climbs for half its airtime, and that far is its apex. */
  lemma JumpReachesItsApex(horse: HorseArchetype)
    ensures var half := horse.JumpAirtime() / 2.0;
            && horse.JumpVelocity() == horse.JumpGravity() * half
            && Ballistic(horse.JumpVelocity(), horse.JumpGravity(), half) == horse.JumpApex()
  {
  }
}
