/** What a drawn rider does between and past its snapshots, told by the motion the snapshots came from. */
module SnapshotMotion {
  import opened Arithmetic
  import opened Protocol
  import opened SnapshotBufferModel

  // ---------------------------------------------------------------- uniform motion

  /** Where a body is that starts at `origin` and keeps its velocity for `seconds`. */
  function Place(origin: Triple<real>, velocity: Triple<real>, seconds: real): Triple<real> {
    Triple(origin.x + Scaled(velocity.x, seconds), origin.y + Scaled(velocity.y, seconds),
           origin.z + Scaled(velocity.z, seconds))
  }

  function Seconds(ticks: real, rate: uint32): real
    requires rate > 0
  {
    ticks / rate as real
  }

  predicate IsOnCourse(s: RiderState, origin: Triple<real>, velocity: Triple<real>, rate: uint32)
    requires rate > 0
  {
    s.velocity == velocity && s.position == Place(origin, velocity, Seconds(s.tick as real, rate))
  }

  lemma ProductsShare(a: real, b: real, c: real)
    ensures Scaled(a, b) + Scaled(a, c) == Scaled(a, b + c)
    ensures Scaled(a, b) - Scaled(a, c) == Scaled(a, b - c)
    ensures Scaled(Scaled(a, b), c) == Scaled(a, Scaled(b, c))
  {
    assert a * (b + c) == a * b + a * c;
    assert a * (b - c) == a * b - a * c;
    assert (a * b) * c == a * (b * c);
  }

  /** Blending two points of a line by the fraction of time gives the point of that time. */
  lemma BlendStaysOnLine(origin: real, v: real, from: real, to: real, at: real, alpha: real)
    requires Scaled(to - from, alpha) == at - from
    ensures Component(origin + Scaled(v, from), origin + Scaled(v, to), alpha) == origin + Scaled(v, at)
  {
    ProductsShare(v, to, from);
    assert (origin + Scaled(v, to)) - (origin + Scaled(v, from)) == Scaled(v, to - from);
    ProductsShare(v, to - from, alpha);
    ProductsShare(v, from, at - from);
    assert from + (at - from) == at;
  }

  lemma TowardsStaysOnCourse(
      origin: Triple<real>, velocity: Triple<real>, from: real, to: real, at: real, alpha: real)
    requires Scaled(to - from, alpha) == at - from
    ensures Towards(Place(origin, velocity, from), Place(origin, velocity, to), alpha) == Place(origin, velocity, at)
  {
    BlendStaysOnLine(origin.x, velocity.x, from, to, at, alpha);
    BlendStaysOnLine(origin.y, velocity.y, from, to, at, alpha);
    BlendStaysOnLine(origin.z, velocity.z, from, to, at, alpha);
  }

  lemma StandingStill(velocity: Triple<real>, alpha: real)
    ensures Towards(velocity, velocity, alpha) == velocity
  {
  }

  lemma FractionTimesSpan(part: real, span: real)
    requires span > 0.0
    ensures Scaled(span, part / span) == part
  {
  }

  lemma SecondsShare(a: real, b: real, rate: uint32)
    requires rate > 0
    ensures Seconds(a, rate) - Seconds(b, rate) == Seconds(a - b, rate)
    ensures Seconds(a, rate) + Seconds(b, rate) == Seconds(a + b, rate)
  {
    assert a / rate as real - b / rate as real == (a - b) / rate as real;
    assert a / rate as real + b / rate as real == (a + b) / rate as real;
  }

  lemma SecondsScale(span: real, alpha: real, rate: uint32)
    requires rate > 0
    ensures Scaled(Seconds(span, rate), alpha) == Seconds(Scaled(span, alpha), rate)
  {
    var r := rate as real;
    assert (span / r) * alpha == (span * alpha) / r;
  }

  lemma AlphaIsTheFraction(before: RiderState, after: RiderState, t: real)
    requires before.tick < after.tick && before.tick as real <= t <= after.tick as real
    ensures Scaled((after.tick - before.tick) as real, Alpha(before, after, t)) == t - before.tick as real
  {
    var span, part := (after.tick - before.tick) as real, t - before.tick as real;
    FractionTimesSpan(part, span);
    FractionIsWithin(part, span);
  }

  lemma FractionIsWithin(part: real, span: real)
    requires span > 0.0 && 0.0 <= part <= span
    ensures 0.0 <= part / span <= 1.0
  {
    var u := part / span;
    assert span * u == part && span * (1.0 - u) == span - part;
    ScaleKeepsSign(span, u);
    ScaleKeepsSign(span, 1.0 - u);
  }

  lemma BetweenSnapshots(
      before: RiderState, after: RiderState, origin: Triple<real>, velocity: Triple<real>, rate: uint32, t: real)
    requires rate > 0 && before.tick < after.tick && before.tick as real <= t <= after.tick as real
    requires IsOnCourse(before, origin, velocity, rate) && IsOnCourse(after, origin, velocity, rate)
    ensures var state := Interpolated(before, after, t);
            state.velocity == velocity && state.position == Place(origin, velocity, Seconds(t, rate))
  {
    var alpha := Alpha(before, after, t);
    var from, to, at := Seconds(before.tick as real, rate), Seconds(after.tick as real, rate), Seconds(t, rate);
    AlphaIsTheFraction(before, after, t);
    SecondsShare(after.tick as real, before.tick as real, rate);
    SecondsShare(t, before.tick as real, rate);
    SecondsScale((after.tick - before.tick) as real, alpha, rate);
    assert (after.tick - before.tick) as real == after.tick as real - before.tick as real;
    TowardsStaysOnCourse(origin, velocity, from, to, at, alpha);
    StandingStill(velocity, alpha);
  }

  lemma MovingOn(origin: real, v: real, s: real, more: real)
    ensures (origin + Scaled(v, s)) + Scaled(v, more) == origin + Scaled(v, s + more)
  {
    ProductsShare(v, s, more);
  }

  lemma PastTheNewest(
      newest: RiderState, origin: Triple<real>, velocity: Triple<real>, rate: uint32, t: real)
    requires rate > 0 && IsOnCourse(newest, origin, velocity, rate)
    requires newest.tick as real < t <= newest.tick as real + 15.0
    ensures var state := Extrapolated(newest, rate, t);
            state.velocity == velocity && state.position == Place(origin, velocity, Seconds(t, rate))
  {
    var ticks := t - newest.tick as real;
    assert TicksAhead(newest, t) == ticks;
    var s, more := Seconds(newest.tick as real, rate), Seconds(ticks, rate);
    SecondsShare(newest.tick as real, ticks, rate);
    MovingOn(origin.x, velocity.x, s, more);
    MovingOn(origin.y, velocity.y, s, more);
    MovingOn(origin.z, velocity.z, s, more);
  }

  /**
   A rider that moves uniformly is drawn where it is: if every snapshot held lies on one line at one
   velocity, so does every sample from the first tick to fifteen past the newest, each at its own time.
   */
  lemma UniformMotionIsDrawnTrue(
      states: seq<RiderState>, rate: uint32, origin: Triple<real>, velocity: Triple<real>, t: real)
    requires Increasing(states) && states != [] && rate > 0
    requires forall i | 0 <= i < |states| :: IsOnCourse(states[i], origin, velocity, rate)
    requires states[0].tick as real <= t <= states[|states| - 1].tick as real + 15.0
    ensures var sample := SampleOf(states, rate, t);
            && sample.Some? && sample.value.state.velocity == velocity
            && sample.value.state.position == Place(origin, velocity, Seconds(t, rate))
  {
    if t > states[0].tick as real {
      var i := LastBefore(states, t);
      if i + 1 < |states| {
        BetweenSnapshots(states[i], states[i + 1], origin, velocity, rate, t);
      } else {
        PastTheNewest(states[i], origin, velocity, rate, t);
      }
    }
  }

  // ---------------------------------------------------------------- what is answered when

  /** There is no answer before time begins or without snapshots, and before the first snapshot it is that one. */
  lemma AnswersExactlyWhen(states: seq<RiderState>, rate: uint32, t: real)
    requires Increasing(states) && rate > 0
    ensures SampleOf(states, rate, t).Some? <==> t >= 0.0 && states != []
    ensures states != [] && 0.0 <= t < states[0].tick as real ==>
              SampleOf(states, rate, t) == Some(Sampled(states[0], false))
  {
  }

  /** Past the newest snapshot the rider keeps its velocity, its heading and its stance. */
  lemma NewestIsKept(states: seq<RiderState>, rate: uint32, t: real)
    requires Increasing(states) && states != [] && rate > 0 && states[|states| - 1].tick as real < t
    ensures var newest := states[|states| - 1];
            var sample := SampleOf(states, rate, t);
            && sample.Some? && sample.value.extrapolated
            && sample.value.state.velocity == newest.velocity
            && sample.value.state.yaw == newest.yaw && sample.value.state.stance == newest.stance
  {
    LastBeforeIsUnique(states, t, |states| - 1);
  }

  predicate IsNearest(tick: int, t: real) {
    t - 0.5 <= tick as real <= t + 0.5
  }

  /** A sample carries the tick nearest its time, or nearest the limit of extrapolation. */
  lemma SampleTickIsNearest(states: seq<RiderState>, rate: uint32, t: real)
    requires Increasing(states) && states != [] && rate > 0 && states[0].tick as real <= t
    requires states[|states| - 1].tick + 15 <= UINT64_MAX
    ensures var limit := states[|states| - 1].tick as real + 15.0;
            var sample := SampleOf(states, rate, t);
            sample.Some? && IsNearest(sample.value.state.tick, if t <= limit then t else limit)
  {
    if t > states[0].tick as real {
      var i := LastBefore(states, t);
      if i + 1 == |states| {
        var ticks := TicksAhead(states[i], t);
        assert IsNearest(Round(ticks), ticks);
      } else {
        assert states[i + 1].tick <= states[|states| - 1].tick;
      }
    }
  }

  /** Between two snapshots the heading has turned the short way by the fraction of time that has passed. */
  lemma HeadingTurnsWithTime(states: seq<RiderState>, rate: uint32, i: nat, t: real) returns (arc: real, part: real)
    requires Increasing(states) && rate > 0 && i + 1 < |states|
    requires states[i].tick as real < t <= states[i + 1].tick as real
    ensures -180.0 <= arc < 180.0 && Turns(states[i].yaw + arc, states[i + 1].yaw)
    ensures Scaled((states[i + 1].tick - states[i].tick) as real, part) == t - states[i].tick as real
    ensures var sample := SampleOf(states, rate, t);
            && sample.Some? && 0.0 <= sample.value.state.yaw < 360.0
            && Turns(states[i].yaw + Scaled(arc, part), sample.value.state.yaw)
  {
    assert states[0].tick <= states[i].tick;
    LastBeforeIsUnique(states, t, i);
    arc, part := YawArc(states[i].yaw, states[i + 1].yaw), Alpha(states[i], states[i + 1], t);
    ArcReachesTheTarget(states[i].yaw, states[i + 1].yaw);
    AlphaIsTheFraction(states[i], states[i + 1], t);
  }
}
