/** When a horse may jump, read off the history of its ticks alone. */
module JumpTraces {
  import opened Locomotion

  datatype Event =
    | Tick(frame: Frame)
    | EngineMoved(y: real, velocity: real, grounded: bool)

  /** Fixed tuning, archetype and spawn. */
  datatype Setup = Setup(tuning: Tuning, horse: HorseArchetype, spawnY: real)

  function Next(s: Setup, b: Body, e: Event): Body {
    match e
    case Tick(f) => Stepped(s.tuning, s.horse, s.spawnY, b, f)
    case EngineMoved(y, velocity, grounded) => Resolved(b, y, velocity, grounded)
  }

  /** A run from a fresh spawn, through any accepted ticks and engine corrections. */
  ghost predicate IsRun(s: Setup, bodies: seq<Body>, events: seq<Event>) {
    && s.tuning.IsSanitized()
    && |bodies| == |events| + 1
    && bodies[0] == FreshBody(s.tuning, s.spawnY)
    && forall i | 0 <= i < |events| ::
         && (events[i].Tick? ==> 0.0 < events[i].frame.delta <= s.tuning.maximumDt)
         && bodies[i + 1] == Next(s, bodies[i], events[i])
  }

  predicate JumpsAt(s: Setup, bodies: seq<Body>, events: seq<Event>, i: int) {
    0 <= i < |events| && i < |bodies| && events[i].Tick? && Jumps(s.tuning, bodies[i], events[i].frame)
  }

  predicate ResetsAt(s: Setup, bodies: seq<Body>, events: seq<Event>, i: int) {
    0 <= i < |events| && i < |bodies| && events[i].Tick? && Resets(s.tuning, bodies[i], events[i].frame)
  }

  function Delta(e: Event): real {
    if e.Tick? then e.frame.delta else 0.0
  }

  /** The time the ticks from `from` up to, not including, `to` take. */
  function Elapsed(events: seq<Event>, from: nat, to: nat): real
    requires from <= to <= |events|
  {
    if from == to then 0.0 else Elapsed(events, from, to - 1) + Delta(events[to - 1])
  }

  /** Tick `k` put solid ground under the horse; `-1` is the spawn itself. */
  predicate Supports(s: Setup, bodies: seq<Body>, events: seq<Event>, k: int) {
    || k == -1
    || ResetsAt(s, bodies, events, k)
    || (0 <= k < |events| && events[k].Tick? && events[k].frame.grounded)
  }

  /** No jump since `k`, that tick included. */
  ghost predicate NoJumpSince(s: Setup, bodies: seq<Body>, events: seq<Event>, k: int, i: nat) {
    forall m | k <= m < i :: !JumpsAt(s, bodies, events, m)
  }

  /** Ground was under the horse, with no jump since, less than the coyote time before event `i` ends. */
  ghost predicate SupportedUpTo(s: Setup, bodies: seq<Body>, events: seq<Event>, k: int, i: nat) {
    -1 <= k < i && Supports(s, bodies, events, k) && NoJumpSince(s, bodies, events, k, i)
  }

  ghost predicate PressedUpTo(s: Setup, bodies: seq<Body>, events: seq<Event>, p: nat, i: nat) {
    && p < i <= |events|
    && events[p].Tick? && events[p].frame.jumpPressed
    && NoJumpSince(s, bodies, events, p, i)
    && forall m | p <= m < i :: !ResetsAt(s, bodies, events, m)
  }

  // ---------------------------------------------------------------- what the timers mean

  /** The coyote timer is what is left since the most recent support, or nothing after a jump. */
  lemma {:induction false} CoyoteTimerIsAWindow(s: Setup, bodies: seq<Body>, events: seq<Event>, i: nat)
    requires IsRun(s, bodies, events) && i <= |events|
    ensures bodies[i].coyote >= 0.0
    ensures forall k | SupportedUpTo(s, bodies, events, k, i) ::
              bodies[i].coyote >= s.tuning.coyoteTime - Elapsed(events, k + 1, i)
    ensures bodies[i].coyote > 0.0 ==>
              exists k :: SupportedUpTo(s, bodies, events, k, i)
                          && bodies[i].coyote == s.tuning.coyoteTime - Elapsed(events, k + 1, i)
  {
    if i == 0 {
      assert SupportedUpTo(s, bodies, events, -1, 0);
    } else {
      CoyoteTimerIsAWindow(s, bodies, events, i - 1);
      var before, e := bodies[i - 1], events[i - 1];
      assert bodies[i] == Next(s, before, e);
      forall k | SupportedUpTo(s, bodies, events, k, i)
        ensures bodies[i].coyote >= s.tuning.coyoteTime - Elapsed(events, k + 1, i)
      {
        if k < i - 1 {
          assert SupportedUpTo(s, bodies, events, k, i - 1);
          assert !JumpsAt(s, bodies, events, i - 1);
        } else {
          assert !JumpsAt(s, bodies, events, k);
        }
        ElapsedIsNotNegative(s, bodies, events, k + 1, i);
      }
      if bodies[i].coyote > 0.0 {
        assert !JumpsAt(s, bodies, events, i - 1);
        if Supports(s, bodies, events, i - 1) {
          assert SupportedUpTo(s, bodies, events, i - 1, i);
        } else {
          var k :| SupportedUpTo(s, bodies, events, k, i - 1)
                   && before.coyote == s.tuning.coyoteTime - Elapsed(events, k + 1, i - 1);
          assert SupportedUpTo(s, bodies, events, k, i);
        }
      }
    }
  }

  lemma {:induction false} ElapsedIsNotNegative(s: Setup, bodies: seq<Body>, events: seq<Event>, from: nat, to: nat)
    requires IsRun(s, bodies, events) && from <= to <= |events|
    ensures Elapsed(events, from, to) >= 0.0
  {
    if from < to {
      ElapsedIsNotNegative(s, bodies, events, from, to - 1);
      assert events[to - 1].Tick? ==> events[to - 1].frame.delta > 0.0;
    }
  }

  lemma {:induction false} JumpBufferCoversPresses(s: Setup, bodies: seq<Body>, events: seq<Event>, i: nat)
    requires IsRun(s, bodies, events) && i <= |events|
    ensures bodies[i].buffer >= 0.0
    ensures forall p: nat | PressedUpTo(s, bodies, events, p, i) ::
              bodies[i].buffer >= s.tuning.jumpBufferTime - Elapsed(events, p, i)
  {
    if i > 0 {
      JumpBufferCoversPresses(s, bodies, events, i - 1);
      assert bodies[i] == Next(s, bodies[i - 1], events[i - 1]);
      forall p: nat | PressedUpTo(s, bodies, events, p, i)
        ensures bodies[i].buffer >= s.tuning.jumpBufferTime - Elapsed(events, p, i)
      {
        assert !JumpsAt(s, bodies, events, i - 1) && !ResetsAt(s, bodies, events, i - 1);
        if p < i - 1 {
          assert PressedUpTo(s, bodies, events, p, i - 1);
          ElapsedIsNotNegative(s, bodies, events, p, i - 1);
        }
      }
    }
  }

  lemma {:induction false} JumpBufferHasItsPress(s: Setup, bodies: seq<Body>, events: seq<Event>, i: nat)
    returns (p: nat)
    requires IsRun(s, bodies, events) && i <= |events| && bodies[i].buffer > 0.0
    ensures PressedUpTo(s, bodies, events, p, i)
    ensures bodies[i].buffer == s.tuning.jumpBufferTime - Elapsed(events, p, i)
  {
    var before, e := bodies[i - 1], events[i - 1];
    assert bodies[i] == Next(s, before, e);
    assert !JumpsAt(s, bodies, events, i - 1) && !ResetsAt(s, bodies, events, i - 1);
    if e.Tick? && e.frame.jumpPressed {
      p := i - 1;
      assert Elapsed(events, i - 1, i) == Elapsed(events, i - 1, i - 1) + Delta(e);
    } else {
      p := JumpBufferHasItsPress(s, bodies, events, i - 1);
    }
  }

  /** The jump buffer is what is left since the most recent press no jump has used. */
  lemma JumpBufferIsAWindow(s: Setup, bodies: seq<Body>, events: seq<Event>, i: nat)
    requires IsRun(s, bodies, events) && i <= |events|
    ensures bodies[i].buffer >= 0.0
    ensures forall p: nat | PressedUpTo(s, bodies, events, p, i) ::
              bodies[i].buffer >= s.tuning.jumpBufferTime - Elapsed(events, p, i)
    ensures bodies[i].buffer > 0.0 ==>
              exists p: nat :: PressedUpTo(s, bodies, events, p, i)
                               && bodies[i].buffer == s.tuning.jumpBufferTime - Elapsed(events, p, i)
  {
    JumpBufferCoversPresses(s, bodies, events, i);
    if bodies[i].buffer > 0.0 {
      var p := JumpBufferHasItsPress(s, bodies, events, i);
    }
  }

  // ---------------------------------------------------------------- jumps

  ghost predicate CoyoteWindowOpen(s: Setup, bodies: seq<Body>, events: seq<Event>, i: nat)
    requires i < |events|
  {
    || (events[i].Tick? && events[i].frame.grounded)
    || exists k :: SupportedUpTo(s, bodies, events, k, i)
                   && Elapsed(events, k + 1, i + 1) < s.tuning.coyoteTime
  }

  ghost predicate PressWindowOpen(s: Setup, bodies: seq<Body>, events: seq<Event>, i: nat)
    requires i < |events|
  {
    || (events[i].Tick? && events[i].frame.jumpPressed && s.tuning.jumpBufferTime > 0.0)
    || exists p: nat :: PressedUpTo(s, bodies, events, p, i)
                        && Elapsed(events, p, i) < s.tuning.jumpBufferTime
  }

  /** A tick jumps exactly when ground and an unused press are both recent enough. */
  lemma JumpsExactlyWhen(s: Setup, bodies: seq<Body>, events: seq<Event>, i: nat)
    requires IsRun(s, bodies, events) && i < |events|
    ensures JumpsAt(s, bodies, events, i) <==>
              && events[i].Tick? && !ResetsAt(s, bodies, events, i)
              && CoyoteWindowOpen(s, bodies, events, i) && PressWindowOpen(s, bodies, events, i)
  {
    CoyoteTimerIsAWindow(s, bodies, events, i);
    JumpBufferIsAWindow(s, bodies, events, i);
    var b := bodies[i];
    if events[i].Tick? {
      var f := events[i].frame;
      assert forall from: nat | from <= i :: Elapsed(events, from, i + 1) == Elapsed(events, from, i) + f.delta;
      assert f.grounded || (b.coyote - f.delta > 0.0 <==> CoyoteWindowOpen(s, bodies, events, i));
      if f.jumpPressed {
        assert PressWindowOpen(s, bodies, events, i) ==> s.tuning.jumpBufferTime > 0.0 by {
          forall p: nat | PressedUpTo(s, bodies, events, p, i) ensures Elapsed(events, p, i) >= 0.0 {
            ElapsedIsNotNegative(s, bodies, events, p, i);
          }
        }
      } else {
        assert b.buffer > 0.0 <==> PressWindowOpen(s, bodies, events, i);
      }
    }
  }

  /** Every jump uses a press of its own, and ground or a reset lies between any two. */
  lemma JumpsAreSeparated(s: Setup, bodies: seq<Body>, events: seq<Event>, i: nat, j: nat)
    requires IsRun(s, bodies, events) && i < j
    requires JumpsAt(s, bodies, events, i) && JumpsAt(s, bodies, events, j)
    ensures exists p :: i < p <= j && events[p].Tick? && events[p].frame.jumpPressed
    ensures exists k :: i < k <= j && Supports(s, bodies, events, k)
  {
    JumpsExactlyWhen(s, bodies, events, j);
    if events[j].frame.grounded {
      assert Supports(s, bodies, events, j);
    } else {
      var k :| SupportedUpTo(s, bodies, events, k, j) && Elapsed(events, k + 1, j + 1) < s.tuning.coyoteTime;
      assert k > i;
    }
    if !events[j].frame.jumpPressed {
      var p: nat :| PressedUpTo(s, bodies, events, p, j) && Elapsed(events, p, j) < s.tuning.jumpBufferTime;
      assert p > i;
    }
  }
}
