/** The horse's vertical motion and terrain response: jump windows, flight, recovery and resets, over real numbers. */
module Locomotion {

  const LANDING_RECOVERY_S: real := 0.2

  datatype HorseArchetype = Courser | Warhorse | Mustang {
    function JumpApex(): real {
      match this
      case Courser => 1.8
      case Warhorse => 1.2
      case Mustang => 2.2
    }

    function JumpAirtime(): (airtime: real)
      ensures airtime > 0.0
    {
      match this
      case Courser => 0.7
      case Warhorse => 0.5
      case Mustang => 0.8
    }

    function TerrainRecovery(): (seconds: real)
      ensures seconds > 0.0
    {
      match this
      case Courser => 2.0
      case Warhorse => 2.5
      case Mustang => 1.5
    }

    function JumpVelocity(): (v: real)
      ensures v > 0.0
    {
      4.0 * JumpApex() / JumpAirtime()
    }

    function JumpGravity(): (g: real)
      ensures g > 0.0
    {
      8.0 * JumpApex() / (JumpAirtime() * JumpAirtime())
    }
  }

  /** The sanitized tuning values the vertical motion reads. */
  datatype Tuning = Tuning(
    gravity: real, terminalFallSpeed: real, jumpImpulse: real, coyoteTime: real, jumpBufferTime: real,
    killPlaneY: real, maximumDt: real)
  {
    predicate IsSanitized() {
      && gravity > 0.0 && terminalFallSpeed > 0.0 && jumpImpulse > 0.0
      && coyoteTime >= 0.0 && jumpBufferTime >= 0.0 && maximumDt > 0.0
    }
  }

  const DEFAULT_TUNING: Tuning :=
    Tuning(8.0 * 1.8 / (0.7 * 0.7), 30.0, 4.0 * 1.8 / 0.7, 0.15, 0.12, -20.0, 0.25)

  function JumpVelocity(tuning: Tuning, horse: HorseArchetype): real {
    tuning.jumpImpulse * horse.JumpVelocity() / Courser.JumpVelocity()
  }

  function JumpGravity(tuning: Tuning, horse: HorseArchetype): real {
    tuning.gravity * horse.JumpGravity() / Courser.JumpGravity()
  }

  /** The velocity after falling for `delta`, never below the terminal speed. */
  function Dropped(velocity: real, gravity: real, terminal: real, delta: real): real {
    Max(velocity - gravity * delta, -terminal)
  }

  /** The height a tick of constant deceleration gains. */
  function Ballistic(velocity: real, gravity: real, t: real): real {
    velocity * t - 0.5 * gravity * t * t
  }

  function Fallen(tuning: Tuning, horse: HorseArchetype, velocity: real, delta: real): real {
    Dropped(velocity, JumpGravity(tuning, horse), tuning.terminalFallSpeed, delta)
  }

  function JumpRise(tuning: Tuning, horse: HorseArchetype, delta: real): real {
    Ballistic(JumpVelocity(tuning, horse), JumpGravity(tuning, horse), delta)
  }

  /** The trapezoid rule. */
  function Travelled(initial: real, final: real, delta: real): real {
    (initial + final) * 0.5 * delta
  }

  function Max(a: real, b: real): real { if a < b then b else a }
  function Min(a: real, b: real): real { if a < b then a else b }

  datatype Body = Body(
    y: real, velocity: real, grounded: bool, airTime: real, coyote: real, buffer: real, landingRecovery: real)

  /** What one tick observes: the player's jump and reset, and the floor under the horse. */
  datatype Frame = Frame(
    jumpPressed: bool, reset: bool, grounded: bool, steep: bool, terrainTarget: real, delta: real)

  function FreshBody(tuning: Tuning, spawnY: real): Body {
    Body(spawnY, 0.0, true, 0.0, tuning.coyoteTime, 0.0, 0.0)
  }

  predicate Resets(tuning: Tuning, b: Body, f: Frame) {
    f.reset || b.y < tuning.killPlaneY
  }

  function CoyoteNow(tuning: Tuning, b: Body, f: Frame): real {
    if f.grounded then tuning.coyoteTime else Max(b.coyote - f.delta, 0.0)
  }

  function BufferNow(tuning: Tuning, b: Body, f: Frame): real {
    if f.jumpPressed then tuning.jumpBufferTime else b.buffer
  }

  predicate Jumps(tuning: Tuning, b: Body, f: Frame) {
    && !Resets(tuning, b, f)
    && (f.grounded || CoyoteNow(tuning, b, f) > 0.0)
    && BufferNow(tuning, b, f) > 0.0
  }

  /** The vertical part of a tick that does not reset, before the slide on a steep slope. */
  function Lifted(tuning: Tuning, horse: HorseArchetype, b: Body, f: Frame): Body {
    var landing := if !b.grounded && f.grounded then LANDING_RECOVERY_S else b.landingRecovery;
    var airTime := if f.grounded then 0.0 else b.airTime + f.delta;
    if (f.grounded || CoyoteNow(tuning, b, f) > 0.0) && BufferNow(tuning, b, f) > 0.0 then
      Body(b.y + JumpRise(tuning, horse, f.delta),
           Fallen(tuning, horse, JumpVelocity(tuning, horse), f.delta), false, airTime, 0.0, 0.0, 0.0)
    else
      var velocity :=
        if f.grounded then Max(b.velocity, 0.0)
        else Fallen(tuning, horse, b.velocity, f.delta);
      Body(if f.grounded then b.y else b.y + Travelled(b.velocity, velocity, f.delta),
           velocity, f.grounded, airTime, CoyoteNow(tuning, b, f),
           Max(BufferNow(tuning, b, f) - f.delta, 0.0), Max(landing - f.delta, 0.0))
  }

  function Stepped(tuning: Tuning, horse: HorseArchetype, spawnY: real, b: Body, f: Frame): Body {
    if Resets(tuning, b, f) then FreshBody(tuning, spawnY)
    else
      var lifted := Lifted(tuning, horse, b, f);
      if f.steep then lifted.(velocity := Min(lifted.velocity, 0.0)) else lifted
  }

  /** The engine's collision-resolved motion fed back into the body. */
  function Resolved(b: Body, y: real, velocity: real, grounded: bool): Body {
    b.(y := y, velocity := velocity, grounded := grounded,
       landingRecovery := if !b.grounded && grounded then LANDING_RECOVERY_S else b.landingRecovery)
  }

  // ---------------------------------------------------------------- terrain

  /** Rough ground slows at once; better ground is recovered over three time constants. */
  function Recovered(
      exp: real -> real, charging: bool, multiplier: real, target: real, recovery: real, delta: real): real
    requires recovery > 0.0
  {
    if charging then 1.0
    else if target < multiplier then target
    else Closer(multiplier, target, exp(Exponent(recovery, delta)))
  }

  /** Part of the gap to the target closed; `left` is the fraction of the gap that remains. */
  function Closer(from: real, target: real, left: real): real {
    from + (target - from) * (1.0 - left)
  }

  function Exponent(recovery: real, delta: real): real
    requires recovery > 0.0
  {
    -3.0 * delta / recovery
  }

  /** The terrain's share of the speed after a tick. */
  function TerrainAfter(
      exp: real -> real, tuning: Tuning, horse: HorseArchetype, charging: bool, multiplier: real, b: Body,
      f: Frame): real
  {
    if Resets(tuning, b, f) then 1.0
    else if f.steep then multiplier
    else Recovered(exp, charging, multiplier, f.terrainTarget, horse.TerrainRecovery(), f.delta)
  }

  datatype StepError = NonPositiveDelta | DeltaTooLarge

  datatype StepOutcome = Rejected(error: StepError) | Moved(jumped: bool, reset: bool)

  // ---------------------------------------------------------------- the kernel

  class HorseKernel {
    const tuning: Tuning
    const spawnY: real
    const exp: real -> real
    var horse: HorseArchetype
    var y: real
    var velocity: real
    var grounded: bool
    var airTime: real
    var coyoteRemaining: real
    var jumpBufferRemaining: real
    var landingRecoveryRemaining: real
    var terrainSpeedMultiplier: real
    var majesticChargeActive: bool

    function State(): Body
      reads this
    {
      Body(y, velocity, grounded, airTime, coyoteRemaining, jumpBufferRemaining, landingRecoveryRemaining)
    }

    constructor (tuning: Tuning, spawnY: real, exp: real -> real)
      requires tuning.IsSanitized()
      ensures this.tuning == tuning && this.spawnY == spawnY && this.exp == exp && horse == Mustang
      ensures terrainSpeedMultiplier == 1.0 && !majesticChargeActive
      ensures State() == FreshBody(tuning, spawnY)
    {
      this.tuning := tuning;
      this.spawnY := spawnY;
      this.exp := exp;
      horse := Mustang;
      y, velocity, grounded, airTime := spawnY, 0.0, true, 0.0;
      coyoteRemaining, jumpBufferRemaining, landingRecoveryRemaining := tuning.coyoteTime, 0.0, 0.0;
      terrainSpeedMultiplier, majesticChargeActive := 1.0, false;
    }

    method SetMajesticChargeActive(active: bool)
      modifies this`majesticChargeActive, this`terrainSpeedMultiplier
      ensures majesticChargeActive == active
      ensures terrainSpeedMultiplier == if active then 1.0 else old(terrainSpeedMultiplier)
    {
      majesticChargeActive := active;
      if active {
        terrainSpeedMultiplier := 1.0;
      }
    }

    method Reset()
      modifies this`y, this`velocity, this`grounded, this`airTime, this`coyoteRemaining,
               this`jumpBufferRemaining, this`landingRecoveryRemaining, this`terrainSpeedMultiplier
      ensures State() == FreshBody(tuning, spawnY) && terrainSpeedMultiplier == 1.0
    {
      terrainSpeedMultiplier := 1.0;
      y, velocity, grounded, airTime := spawnY, 0.0, true, 0.0;
      coyoteRemaining, jumpBufferRemaining, landingRecoveryRemaining := tuning.coyoteTime, 0.0, 0.0;
    }

    method ResolveMotion(y: real, velocity: real, grounded: bool)
      modifies this`y, this`velocity, this`grounded, this`landingRecoveryRemaining
      ensures State() == Resolved(old(State()), y, velocity, grounded)
    {
      this.y := y;
      this.velocity := velocity;
      if !this.grounded && grounded {
        landingRecoveryRemaining := LANDING_RECOVERY_S;
      }
      this.grounded := grounded;
    }

    /** Advances one tick. A refused delta changes nothing. */
    method Step(f: Frame) returns (outcome: StepOutcome)
      modifies this`y, this`velocity, this`grounded, this`airTime, this`coyoteRemaining,
               this`jumpBufferRemaining, this`landingRecoveryRemaining, this`terrainSpeedMultiplier
      ensures outcome.Rejected? <==> !(0.0 < f.delta <= tuning.maximumDt)
      ensures outcome.Rejected? ==> State() == old(State()) && terrainSpeedMultiplier == old(terrainSpeedMultiplier)
      ensures outcome.Moved? ==>
                && terrainSpeedMultiplier
                   == TerrainAfter(
                        exp, tuning, horse, majesticChargeActive, old(terrainSpeedMultiplier), old(State()), f)
                && State() == Stepped(tuning, horse, spawnY, old(State()), f)
                && outcome == Moved(Jumps(tuning, old(State()), f), Resets(tuning, old(State()), f))
    {
      if f.delta <= 0.0 {
        return Rejected(NonPositiveDelta);
      }
      if f.delta > tuning.maximumDt {
        return Rejected(DeltaTooLarge);
      }
      if f.reset || y < tuning.killPlaneY {
        Reset();
        return Moved(false, true);
      }
      var jumped, displacement := IntegrateVertical(f);
      if f.steep {
        velocity := Min(velocity, 0.0);
      } else {
        RecoverTerrain(f.terrainTarget, f.delta);
      }
      y := y + displacement;
      return Moved(jumped, false);
    }

    method RecoverTerrain(target: real, delta: real)
      modifies this`terrainSpeedMultiplier
      ensures terrainSpeedMultiplier
              == Recovered(
                   exp, majesticChargeActive, old(terrainSpeedMultiplier), target, horse.TerrainRecovery(), delta)
    {
      if majesticChargeActive {
        terrainSpeedMultiplier := 1.0;
      } else if target < terrainSpeedMultiplier {
        terrainSpeedMultiplier := target;
      } else {
        var blend := 1.0 - exp(-3.0 * delta / horse.TerrainRecovery());
        terrainSpeedMultiplier := terrainSpeedMultiplier + (target - terrainSpeedMultiplier) * blend;
      }
    }

    method IntegrateVertical(f: Frame) returns (jumped: bool, displacement: real)
      modifies this`velocity, this`grounded, this`airTime, this`coyoteRemaining,
               this`jumpBufferRemaining, this`landingRecoveryRemaining
      ensures State().(y := y + displacement) == Lifted(tuning, horse, old(State()), f)
      ensures jumped == ((f.grounded || CoyoteNow(tuning, old(State()), f) > 0.0)
                         && BufferNow(tuning, old(State()), f) > 0.0)
    {
      if !grounded && f.grounded {
        landingRecoveryRemaining := LANDING_RECOVERY_S;
      }
      grounded := f.grounded;
      landingRecoveryRemaining := Max(landingRecoveryRemaining - f.delta, 0.0);
      if f.grounded {
        coyoteRemaining := tuning.coyoteTime;
        airTime := 0.0;
      } else {
        coyoteRemaining := Max(coyoteRemaining - f.delta, 0.0);
        airTime := airTime + f.delta;
      }
      if f.jumpPressed {
        jumpBufferRemaining := tuning.jumpBufferTime;
      }
      var canJump := f.grounded || coyoteRemaining > 0.0;
      if canJump && jumpBufferRemaining > 0.0 {
        velocity := Fallen(tuning, horse, JumpVelocity(tuning, horse), f.delta);
        grounded := false;
        coyoteRemaining, jumpBufferRemaining, landingRecoveryRemaining := 0.0, 0.0, 0.0;
        return true, JumpRise(tuning, horse, f.delta);
      }
      jumpBufferRemaining := Max(jumpBufferRemaining - f.delta, 0.0);
      if f.grounded {
        if velocity < 0.0 {
          velocity := 0.0;
        }
        return false, 0.0;
      } else {
        var initial := velocity;
        velocity := Fallen(tuning, horse, initial, f.delta);
        return false, Travelled(initial, velocity, f.delta);
      }
    }
  }
}
