/** The bounded snapshot buffer a remote rider is drawn from, over real numbers. */
module SnapshotBufferModel {
  import opened Arithmetic
  import opened Protocol

  const MAX_EXTRAPOLATION_TICKS: int := 15

  /** A floating-point input that may not be a number. */
  datatype Reading = Finite(value: real) | NotFinite

  datatype Triple<+T> = Triple(x: T, y: T, z: T)

  datatype Incoming = Incoming(
    tick: uint64, position: Triple<Reading>, velocity: Triple<Reading>, yaw: Reading, stance: RiderStance)

  datatype RiderState = RiderState(
    tick: uint64, position: Triple<real>, velocity: Triple<real>, yaw: real, stance: RiderStance)

  datatype Sampled = Sampled(state: RiderState, extrapolated: bool)

  function Settled(r: Triple<Reading>): Option<Triple<real>> {
    if r.x.Finite? && r.y.Finite? && r.z.Finite? then Some(Triple(r.x.value, r.y.value, r.z.value)) else None
  }

  /** An incoming snapshot as a state, when all its numbers are finite. */
  function StateOf(s: Incoming): Option<RiderState> {
    var position, velocity := Settled(s.position), Settled(s.velocity);
    if position.Some? && velocity.Some? && s.yaw.Finite?
    then Some(RiderState(s.tick, position.value, velocity.value, s.yaw.value, s.stance))
    else None
  }

  ghost predicate Increasing(states: seq<RiderState>) {
    forall i, j | 0 <= i < j < |states| :: states[i].tick < states[j].tick
  }

  // ---------------------------------------------------------------- numbers

  /** The remainder that is never negative. */
  function Mod360(x: real): (m: real)
    ensures 0.0 <= m < 360.0
    ensures Turns(x, m)
  {
    var k := (x / 360.0).Floor;
    assert x == Turned(x - 360.0 * (k as real), k);
    x - 360.0 * (k as real)
  }

  function Turned(m: real, k: int): real { m + 360.0 * (k as real) }

  /** Two angles that differ by whole turns. */
  ghost predicate Turns(x: real, y: real) {
    exists k: int :: x == Turned(y, k)
  }

  function Round(x: real): int {
    (x + 0.5).Floor
  }

  function Clamp01(x: real): real {
    if x < 0.0 then 0.0 else if x > 1.0 then 1.0 else x
  }

  function Scaled(gap: real, alpha: real): real {
    gap * alpha
  }

  function Component(a: real, b: real, alpha: real): real {
    a + Scaled(b - a, alpha)
  }

  function Towards(a: Triple<real>, b: Triple<real>, alpha: real): Triple<real> {
    Triple(Component(a.x, b.x, alpha), Component(a.y, b.y, alpha), Component(a.z, b.z, alpha))
  }

  // ---------------------------------------------------------------- one sample

  /** How far to turn: the signed shorter way round. */
  function YawArc(before: real, after: real): real {
    Mod360(after - before + 180.0) - 180.0
  }

  function Alpha(before: RiderState, after: RiderState, t: real): real
    requires before.tick < after.tick
  {
    Clamp01((t - before.tick as real) / (after.tick - before.tick) as real)
  }

  function Interpolated(before: RiderState, after: RiderState, t: real): RiderState
    requires before.tick < after.tick
    requires 0.0 <= t <= after.tick as real
  {
    Blend(before, after, Alpha(before, after, t), Round(t), t)
  }

  function Blend(before: RiderState, after: RiderState, alpha: real, tick: uint64, t: real): RiderState {
    RiderState(
      tick,
      Towards(before.position, after.position, alpha),
      Towards(before.velocity, after.velocity, alpha),
      Mod360(before.yaw + Scaled(YawArc(before.yaw, after.yaw), alpha)),
      if t < after.tick as real then before.stance else after.stance)
  }

  function Extrapolated(latest: RiderState, rate: uint32, t: real): RiderState
    requires rate > 0 && latest.tick as real < t
  {
    Ahead(latest, rate, TicksAhead(latest, t))
  }

  function TicksAhead(latest: RiderState, t: real): (ticks: real)
    requires latest.tick as real < t
    ensures 0.0 < ticks <= MAX_EXTRAPOLATION_TICKS as real
  {
    var requested := t - latest.tick as real;
    if requested < MAX_EXTRAPOLATION_TICKS as real then requested else MAX_EXTRAPOLATION_TICKS as real
  }

  function Ahead(latest: RiderState, rate: uint32, ticks: real): RiderState
    requires rate > 0 && 0.0 <= ticks
  {
    var seconds := ticks / rate as real;
    var tick := latest.tick + Round(ticks);
    latest.(
      tick := if tick <= UINT64_MAX then tick else UINT64_MAX,
      position := Triple(latest.position.x + Scaled(latest.velocity.x, seconds),
                         latest.position.y + Scaled(latest.velocity.y, seconds),
                         latest.position.z + Scaled(latest.velocity.z, seconds)))
  }

  /** The last state strictly before `t`. */
  ghost function LastBefore(states: seq<RiderState>, t: real): (i: nat)
    requires states != [] && (states[0].tick as real) < t
    ensures i < |states| && (states[i].tick as real) < t
    ensures i + 1 < |states| ==> t <= states[i + 1].tick as real
  {
    if (states[|states| - 1].tick as real) < t then |states| - 1
    else LastBefore(states[..|states| - 1], t)
  }

  /** What a buffer holding exactly these states answers. */
  ghost function SampleOf(states: seq<RiderState>, rate: uint32, t: real): Option<Sampled>
    requires Increasing(states) && rate > 0
  {
    if t < 0.0 || states == [] then None
    else if t <= states[0].tick as real then Some(Sampled(states[0], false))
    else
      var i := LastBefore(states, t);
      if i + 1 < |states| then Some(Sampled(Interpolated(states[i], states[i + 1], t), false))
      else Some(Sampled(Extrapolated(states[i], rate, t), true))
  }

  lemma LastBeforeIsUnique(states: seq<RiderState>, t: real, i: nat)
    requires Increasing(states) && states != [] && (states[0].tick as real) < t
    requires i < |states| && (states[i].tick as real) < t
    requires i + 1 < |states| ==> t <= states[i + 1].tick as real
    ensures LastBefore(states, t) == i
  {
  }

  // ---------------------------------------------------------------- the buffer

  class SnapshotBuffer {
    const tickRate: uint32
    const capacity: nat
    var snapshots: seq<RiderState>
    /** Every snapshot ever accepted, oldest first. */
    ghost var history: seq<RiderState>

    ghost predicate Valid()
      reads this
    {
      && tickRate > 0 && capacity >= 2
      && Increasing(history)
      && snapshots == Newest(history, capacity)
    }

    constructor (tickRate: uint32, capacity: nat)
      ensures Valid() && history == []
      ensures this.tickRate == (if tickRate == 0 then 1 else tickRate)
      ensures this.capacity == (if capacity < 2 then 2 else capacity)
    {
      this.tickRate := if tickRate == 0 then 1 else tickRate;
      this.capacity := if capacity < 2 then 2 else capacity;
      snapshots, history := [], [];
    }

    method Push(snapshot: Incoming) returns (accepted: bool)
      requires Valid()
      modifies this`snapshots, this`history
      ensures Valid()
      ensures accepted == (StateOf(snapshot).Some?
                           && (old(history) != [] ==> old(history)[|old(history)| - 1].tick < snapshot.tick))
      ensures history == if accepted then old(history) + [StateOf(snapshot).value] else old(history)
    {
      var state := StateOf(snapshot);
      if state.None? {
        return false;
      }
      NewestEndsAlike(history, capacity);
      if snapshots != [] && snapshot.tick <= snapshots[|snapshots| - 1].tick {
        return false;
      }
      Append(state.value);
      return true;
    }

    method Append(state: RiderState)
      requires Valid() && (snapshots != [] ==> snapshots[|snapshots| - 1].tick < state.tick)
      modifies this`snapshots, this`history
      ensures Valid() && history == old(history) + [state]
    {
      NewestGrows(history, state, capacity);
      NewestEndsAlike(history, capacity);
      LaterKeepsIncreasing(history, state);
      history := history + [state];
      snapshots := snapshots + [state];
      DropOldest();
    }

    method DropOldest()
      modifies this`snapshots
      ensures snapshots == Newest(old(snapshots), capacity)
    {
      while |snapshots| > capacity
        invariant Newest(snapshots, capacity) == Newest(old(snapshots), capacity)
        decreases |snapshots|
      {
        snapshots := snapshots[1..];
      }
    }

    method Sample(render: Reading) returns (sampled: Option<Sampled>)
      requires Valid()
      ensures sampled == if render.NotFinite? then None else SampleOf(snapshots, tickRate, render.value)
    {
      if render.NotFinite? || render.value < 0.0 || snapshots == [] {
        return None;
      }
      var t := render.value;
      var first, latest := snapshots[0], snapshots[|snapshots| - 1];
      if t <= first.tick as real {
        return Some(Sampled(first, false));
      }
      var i := LastSnapshotBefore(t);
      if i + 1 < |snapshots| {
        return Some(Sampled(Interpolated(snapshots[i], snapshots[i + 1], t), false));
      }
      return Some(Sampled(Extrapolated(latest, tickRate, t), true));
    }

    /** Walks the pairs of neighbours to the first whose later snapshot is not before `t`. */
    method LastSnapshotBefore(t: real) returns (i: nat)
      requires Valid() && snapshots != [] && (snapshots[0].tick as real) < t
      ensures i == LastBefore(snapshots, t)
    {
      for k := 0 to |snapshots| - 1
        invariant (snapshots[k].tick as real) < t
      {
        if t <= snapshots[k + 1].tick as real {
          LastBeforeIsUnique(snapshots, t, k);
          return k;
        }
      }
      LastBeforeIsUnique(snapshots, t, |snapshots| - 1);
      return |snapshots| - 1;
    }
  }

  /** The last `capacity` elements, or all of them when there are fewer. */
  function Newest(states: seq<RiderState>, capacity: nat): seq<RiderState> {
    if |states| <= capacity then states else states[|states| - capacity..]
  }

  lemma LaterKeepsIncreasing(states: seq<RiderState>, state: RiderState)
    requires Increasing(states) && (states != [] ==> states[|states| - 1].tick < state.tick)
    ensures Increasing(states + [state])
  {
    assert forall i | 0 <= i < |states| - 1 :: states[i].tick < states[|states| - 1].tick;
  }

  lemma NewestGrows(states: seq<RiderState>, state: RiderState, capacity: nat)
    requires capacity > 0
    ensures Newest(Newest(states, capacity) + [state], capacity) == Newest(states + [state], capacity)
  {
  }

  lemma NewestEndsAlike(states: seq<RiderState>, capacity: nat)
    requires capacity > 0
    ensures Newest(states, capacity) == [] <==> states == []
    ensures states != [] ==> Newest(states, capacity)[|Newest(states, capacity)| - 1] == states[|states| - 1]
  {
  }

  // ---------------------------------------------------------------- laws

  /** Forgetting old snapshots changes no answer for a time after the oldest one kept. */
  lemma BoundedBufferAnswersLikeTheFullHistory(history: seq<RiderState>, capacity: nat, rate: uint32, t: real)
    requires Increasing(history) && history != [] && rate > 0 && capacity > 0
    requires |history| <= capacity || t > Newest(history, capacity)[0].tick as real
    ensures SampleOf(Newest(history, capacity), rate, t) == SampleOf(history, rate, t)
  {
    if |history| > capacity {
      var kept := Newest(history, capacity);
      var dropped := |history| - capacity;
      assert history[0].tick < history[dropped].tick;
      var i := LastBefore(kept, t);
      LastBeforeIsUnique(history, t, dropped + i);
    }
  }

  ghost predicate IsNewestAt(states: seq<RiderState>, i: nat, t: real) {
    && i < |states|
    && states[i].tick as real <= t
    && forall j | i < j < |states| :: t < states[j].tick as real
  }

  /** The stance shown is that of the newest snapshot at or before the time, never one from ahead. */
  lemma StanceIsTheNewestKnown(states: seq<RiderState>, rate: uint32, t: real, i: nat)
    requires Increasing(states) && rate > 0 && 0.0 <= t && IsNewestAt(states, i, t)
    ensures SampleOf(states, rate, t).Some? && SampleOf(states, rate, t).value.state.stance == states[i].stance
  {
    if t > states[0].tick as real {
      var k := LastBefore(states, t);
      if states[i].tick as real == t {
        LastBeforeIsUnique(states, t, i - 1);
      } else {
        LastBeforeIsUnique(states, t, i);
      }
    }
  }

  /** The drawn path goes through every snapshot: at its tick, a sample is that snapshot. */
  lemma SamplesGoThroughSnapshots(states: seq<RiderState>, rate: uint32, i: nat)
    requires Increasing(states) && rate > 0 && i < |states|
    ensures var sample := SampleOf(states, rate, states[i].tick as real);
            && sample.Some? && !sample.value.extrapolated
            && sample.value.state.tick == states[i].tick
            && sample.value.state.position == states[i].position
            && sample.value.state.velocity == states[i].velocity
            && sample.value.state.stance == states[i].stance
            && Turns(sample.value.state.yaw, states[i].yaw)
  {
    var t := states[i].tick as real;
    if i == 0 {
      assert states[0].yaw == Turned(states[0].yaw, 0);
    } else {
      LastBeforeIsUnique(states, t, i - 1);
      InterpolationEndsAtTheSnapshot(states[i - 1], states[i]);
    }
  }

  lemma InterpolationEndsAtTheSnapshot(before: RiderState, after: RiderState)
    requires before.tick < after.tick
    ensures var end := Interpolated(before, after, after.tick as real);
            && end.(yaw := after.yaw) == after
            && Turns(end.yaw, after.yaw)
  {
    var t := after.tick as real;
    AlphaAtTheEnd(before, after);
    RoundOfWhole(after.tick);
    BlendEndsAtTheSnapshot(before, after, after.tick, t);
  }

  lemma AlphaAtTheEnd(before: RiderState, after: RiderState)
    requires before.tick < after.tick
    ensures Alpha(before, after, after.tick as real) == 1.0
  {
    var span := (after.tick - before.tick) as real;
    assert after.tick as real - before.tick as real == span;
    WholePart(span);
  }

  lemma WholePart(x: real)
    requires x > 0.0
    ensures x / x == 1.0
  {
  }

  lemma BlendEndsAtTheSnapshot(before: RiderState, after: RiderState, tick: uint64, t: real)
    requires t >= after.tick as real && tick == after.tick
    ensures var end := Blend(before, after, 1.0, tick, t);
            && end.(yaw := after.yaw) == after
            && Turns(end.yaw, after.yaw)
  {
    var arc := YawArc(before.yaw, after.yaw);
    ArcReachesTheTarget(before.yaw, after.yaw);
    SameTurns(before.yaw + arc, Mod360(before.yaw + arc), after.yaw);
  }

  lemma RoundOfWhole(n: int)
    ensures Round(n as real) == n
  {
  }

  /** The yaw arc is the short way round, and following it to the end reaches the target. */
  lemma ArcReachesTheTarget(before: real, after: real)
    ensures -180.0 <= YawArc(before, after) < 180.0
    ensures Turns(before + YawArc(before, after), after)
  {
    var x := after - before + 180.0;
    var k: int :| x == Turned(Mod360(x), k);
    assert before + YawArc(before, after) == Turned(after, -k);
  }

  lemma SameTurns(x: real, y: real, z: real)
    requires Turns(x, y) && Turns(x, z)
    ensures Turns(y, z)
  {
    var k: int :| x == Turned(y, k);
    var l: int :| x == Turned(z, l);
    assert y == Turned(z, l - k);
  }

  /** A sample's tick never runs more than the extrapolation limit past the newest snapshot. */
  lemma SampleTickIsBounded(states: seq<RiderState>, rate: uint32, t: real)
    requires Increasing(states) && rate > 0 && states != [] && 0.0 <= t
    ensures SampleOf(states, rate, t).Some?
    ensures SampleOf(states, rate, t).value.state.tick <= states[|states| - 1].tick + MAX_EXTRAPOLATION_TICKS
    ensures SampleOf(states, rate, t).value.extrapolated <==> t > states[|states| - 1].tick as real
  {
    if t > states[0].tick as real {
      var i := LastBefore(states, t);
      if i + 1 < |states| {
        assert states[i + 1].tick <= states[|states| - 1].tick;
      }
    }
  }

  /** Extrapolation stops: from the limit on, every later time shows the same state. */
  lemma ExtrapolationStops(states: seq<RiderState>, rate: uint32, t: real, later: real)
    requires Increasing(states) && rate > 0 && states != []
    requires (states[|states| - 1].tick + MAX_EXTRAPOLATION_TICKS) as real <= t <= later
    ensures SampleOf(states, rate, t) == SampleOf(states, rate, later)
  {
    var last := |states| - 1;
    assert states[0].tick <= states[last].tick;
    LastBeforeIsUnique(states, t, last);
    LastBeforeIsUnique(states, later, last);
    var end := states[last].tick as real;
    assert end + MAX_EXTRAPOLATION_TICKS as real <= t;
    assert TicksAhead(states[last], t) == TicksAhead(states[last], later);
  }

  predicate Between(a: real, x: real, b: real) {
    a <= x <= b || b <= x <= a
  }

  predicate WithinBox(a: Triple<real>, p: Triple<real>, b: Triple<real>) {
    Between(a.x, p.x, b.x) && Between(a.y, p.y, b.y) && Between(a.z, p.z, b.z)
  }

  /** Interpolated positions and velocities lie between those of the two snapshots, component by component. */
  lemma InterpolationStaysBetween(before: RiderState, after: RiderState, t: real)
    requires before.tick < after.tick && before.tick as real <= t <= after.tick as real
    ensures var state := Interpolated(before, after, t);
            && WithinBox(before.position, state.position, after.position)
            && WithinBox(before.velocity, state.velocity, after.velocity)
  {
    var alpha := Alpha(before, after, t);
    TowardsStaysWithin(before.position, after.position, alpha);
    TowardsStaysWithin(before.velocity, after.velocity, alpha);
  }

  lemma TowardsStaysWithin(a: Triple<real>, b: Triple<real>, alpha: real)
    requires 0.0 <= alpha <= 1.0
    ensures WithinBox(a, Towards(a, b, alpha), b)
  {
    ScaledStaysWithin(b.x - a.x, alpha);
    ScaledStaysWithin(b.y - a.y, alpha);
    ScaledStaysWithin(b.z - a.z, alpha);
  }

  lemma ScaledStaysWithin(gap: real, alpha: real)
    requires 0.0 <= alpha <= 1.0
    ensures gap >= 0.0 ==> 0.0 <= Scaled(gap, alpha) <= gap
    ensures gap <= 0.0 ==> gap <= Scaled(gap, alpha) <= 0.0
  {
    if gap >= 0.0 {
      PartOf(gap, alpha);
    } else {
      PartOf(-gap, alpha);
      assert Scaled(gap, alpha) == -Scaled(-gap, alpha);
    }
  }

  lemma PartOf(gap: real, alpha: real)
    requires gap >= 0.0 && 0.0 <= alpha <= 1.0
    ensures 0.0 <= Scaled(gap, alpha) <= gap
  {
    assert Scaled(gap, alpha) + Scaled(gap, 1.0 - alpha) == gap;
    ProductIsNotNegative(gap, alpha);
    ProductIsNotNegative(gap, 1.0 - alpha);
  }
}
