/**
 What one peer believes about the match, and what each operation does to that belief.

 The class in `SessionState.dfy` updates its fields step by step and is proved against these
 functions; the laws in the files beside it are about them.
 */
module SessionSpec {
  import opened Protocol

  datatype Peer = Peer(lastSequence: uint64, lastSeenMs: uint64, connected: bool)

  type Roster = map<PlayerId, Peer>

  datatype View = View(
    lobby: LobbyId,
    local: PlayerId,
    authority: PlayerId,
    epoch: uint64,
    nextSequence: uint64,
    peers: Roster,
    preference: seq<PlayerId>,
    applied: set<Receipt>,
    checkpoint: Option<MatchCheckpoint>)

  // ---------------------------------------------------------------- liveness and election

  predicate Expired(peer: Peer, now: uint64) {
    now >= peer.lastSeenMs && now - peer.lastSeenMs >= HEARTBEAT_TIMEOUT_MS
  }

  predicate AuthoritySilent(v: View, now: uint64) {
    && v.authority != v.local
    && (v.authority in v.peers ==> Expired(v.peers[v.authority], now))
  }

  /** The players a remote claim is weighed against. The local player always counts as alive. */
  predicate Responsive(v: View, player: PlayerId, now: uint64) {
    && player in v.peers
    && (player == v.local || (v.peers[player].connected && !Expired(v.peers[player], now)))
  }

  function Survivors(v: View, now: uint64): set<PlayerId> {
    set p | p in v.peers && Responsive(v, p, now)
  }

  function Connected(peers: Roster): set<PlayerId> {
    set p | p in peers && peers[p].connected
  }

  /** The liveness sweep of a timeout: silent peers drop out, the local player never does. */
  function Sweep(v: View, now: uint64): Roster {
    map p | p in v.peers ::
      if p == v.local then v.peers[p].(connected := true)
      else if Expired(v.peers[p], now) then v.peers[p].(connected := false)
      else v.peers[p]
  }

  ghost function Least(pool: set<PlayerId>): (least: PlayerId)
    requires pool != {}
    ensures least in pool
    ensures forall p | p in pool :: least <= p
  {
    var p :| p in pool;
    if pool == {p} then p
    else
      var rest := Least(pool - {p});
      assert forall q | q in pool :: q == p || q in pool - {p};
      if p < rest then p else rest
  }

  /** First player of the match-start order found in the pool, else the pool's lowest identifier. */
  ghost function Elect(order: seq<PlayerId>, pool: set<PlayerId>): Option<PlayerId> {
    if order == [] then if pool == {} then None else Some(Least(pool))
    else if order[0] in pool then Some(order[0])
    else Elect(order[1..], pool)
  }

  ghost predicate ClaimCoherent(v: View, sender: PlayerId, authority: PlayerId, epoch: uint64, now: uint64) {
    if authority != sender then false
    else if epoch == v.epoch then
      authority == v.authority || (authority < v.authority && AuthoritySilent(v, now))
    else if v.epoch == UINT64_MAX || v.epoch + 1 != epoch || !AuthoritySilent(v, now) then false
    else Elect(v.preference, Survivors(v, now)) == Some(authority)
  }

  // ---------------------------------------------------------------- accepting an envelope

  predicate CheckpointFits(v: View, env: Envelope, hash: CheckpointHash)
    requires env.payload.MigrationSnapshot?
  {
    var c := env.payload.checkpoint;
    && env.payload.authority == env.sender
    && c.sourceEpoch + 1 == env.payload.epoch
    && (c.sourceEpoch == v.epoch || env.payload.epoch == v.epoch)
    && c.tick == env.simulationTick
    && hash(c) == env.payload.stateHash
    && c.IsBoundedAndCanonical()
    && (forall i | 0 <= i < |c.riders| :: c.riders[i].rider in v.peers)
  }

  function ReceiptOf(env: Envelope): Receipt
    requires env.payload.Result?
  {
    Receipt(env.authorityEpoch, env.payload.result.shooter, env.payload.result.tick)
  }

  /** The first gate that refuses the envelope, in the source's order. */
  ghost function Gate(v: View, env: Envelope, now: uint64, hash: CheckpointHash): AcceptOutcome {
    var p := env.payload;
    if env.lobby != v.lobby then WrongLobby
    else if env.authorityEpoch < v.epoch then StaleAuthorityEpoch
    else if env.sender !in v.peers then UnknownSender
    else if env.authorityEpoch != v.epoch && !p.IsAuthorityClaim() then InvalidPayloadRole
    else if (p.RiderSnapshot? || p.Result?) && env.sender != v.authority then InvalidPayloadRole
    else if p.Command? && (p.command.shooter != env.sender || p.command.tick != env.simulationTick)
    then InvalidPayloadSubject
    else if p.Result? && (p.result.tick != env.simulationTick || p.result.shooter !in v.peers)
    then InvalidPayloadSubject
    else if p.RiderSnapshot? && p.rider !in v.peers then InvalidPayloadSubject
    else if p.Result? && ReceiptOf(env) in v.applied then DuplicateShotResult
    else if p.MigrationSnapshot? && !CheckpointFits(v, env, hash) then InvalidCheckpoint
    else if env.sequence <= v.peers[env.sender].lastSequence then DuplicateOrReplay
    else if p.IsAuthorityClaim() && !ClaimCoherent(v, env.sender, p.authority, p.epoch, now)
    then InvalidAuthorityClaim
    else Accepted
  }

  /** What an accepted envelope changes. */
  function Apply(v: View, env: Envelope, now: uint64): View
    requires env.sender in v.peers
  {
    var p := env.payload;
    var heard := v.peers[env.sender := Peer(env.sequence, now, !p.Leave?)];
    var applied :=
      if p.Result? then v.applied + {ReceiptOf(env)}
      else if p.MigrationSnapshot? then v.applied + p.checkpoint.Receipts()
      else v.applied;
    var checkpoint := if p.MigrationSnapshot? then Some(p.checkpoint) else v.checkpoint;
    var installs := p.IsAuthorityClaim()
                    && (p.epoch > v.epoch || (p.epoch == v.epoch && p.authority < v.authority));
    v.(peers := heard,
       applied := applied,
       checkpoint := checkpoint,
       authority := if installs then p.authority else v.authority,
       epoch := if installs then p.epoch else v.epoch)
  }

  ghost function Receive(v: View, env: Envelope, now: uint64, hash: CheckpointHash): View {
    if Gate(v, env, now, hash) == Accepted then Apply(v, env, now) else v
  }

  // ---------------------------------------------------------------- the other operations

  function NewView(lobby: LobbyId, local: PlayerId, authority: PlayerId, now: uint64): View {
    var joined := Peer(0, now, true);
    View(lobby, local, authority, 1, 1, map[local := joined, authority := joined], [], {}, None)
  }

  function WithPeer(v: View, player: PlayerId, now: uint64): View {
    v.(peers := v.peers[player := Peer(0, now, true)])
  }

  predicate Distinct<T(==)>(s: seq<T>) {
    forall i, j | 0 <= i < j < |s| :: s[i] != s[j]
  }

  /** An order is installed only when it lists every player of the roster exactly once. */
  predicate CoversRoster(order: seq<PlayerId>, peers: Roster) {
    && Distinct(order)
    && (set i | 0 <= i < |order| :: order[i]) == peers.Keys
  }

  function WithPreference(v: View, order: seq<PlayerId>): View {
    if CoversRoster(order, v.peers) then v.(preference := order) else v
  }

  function Composed(v: View, tick: uint64, payload: PeerPayload): Envelope {
    Envelope(CURRENT_WIRE_VERSION, v.lobby, v.local, v.nextSequence, v.epoch, tick, payload, None)
  }

  function AfterComposing(v: View): View {
    v.(nextSequence := if v.nextSequence == UINT64_MAX then UINT64_MAX else v.nextSequence + 1)
  }

  datatype Migration = Migration(authority: PlayerId, epoch: uint64)

  /** A timeout's outcome: the migration it performs, if any, and the view it leaves. */
  ghost function Timeout(v: View, now: uint64): (View, Option<Migration>) {
    var swept := v.(peers := Sweep(v, now));
    if v.authority in swept.peers && swept.peers[v.authority].connected then (swept, None)
    else
      match Elect(v.preference, Connected(swept.peers))
      case None => (swept, None)
      case Some(successor) =>
        if v.epoch == UINT64_MAX then (swept, None)
        else (swept.(authority := successor, epoch := v.epoch + 1),
              Some(Migration(successor, v.epoch + 1)))
  }

  // ---------------------------------------------------------------- what every step keeps

  ghost predicate Invariant(v: View) {
    && v.local in v.peers
    && v.authority in v.peers
    && v.nextSequence >= 1
    && Distinct(v.preference)
    && (forall i | 0 <= i < |v.preference| :: v.preference[i] in v.peers)
    && (forall r | r in v.applied :: r.epoch <= v.epoch)
    && (v.checkpoint.Some? ==> CheckpointInstalled(v, v.checkpoint.value))
  }

  ghost predicate CheckpointInstalled(v: View, c: MatchCheckpoint) {
    && c.IsBoundedAndCanonical()
    && (forall i | 0 <= i < |c.riders| :: c.riders[i].rider in v.peers)
    && c.sourceEpoch < v.epoch
    && c.Receipts() <= v.applied
  }
}
