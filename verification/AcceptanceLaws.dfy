/**
 Acceptance spelled out: the checks an envelope must pass, in order, down to every field of a handoff.
 But for the election and the digest nothing here is shared with the gates of the session, so the two
 descriptions check each other.
 */
module AcceptanceLaws {
  import opened Protocol
  import opened SessionSpec
  import opened SessionLaws
  import opened SessionStateModel
  import opened SecureSessionModel

  datatype Check = Check(passes: bool, refusal: AcceptOutcome)

  /** The refusal of the first check that fails. */
  function FirstRefusal(checks: seq<Check>): AcceptOutcome {
    if checks == [] then Accepted
    else if !checks[0].passes then checks[0].refusal
    else FirstRefusal(checks[1..])
  }

  lemma {:induction false} FirstFailureDecides(checks: seq<Check>, k: nat)
    requires k <= |checks| && forall j | 0 <= j < k :: checks[j].passes
    requires k < |checks| ==> !checks[k].passes
    ensures FirstRefusal(checks) == if k < |checks| then checks[k].refusal else Accepted
  {
    if k > 0 {
      FirstFailureDecides(checks[1..], k - 1);
    }
  }

  // ---------------------------------------------------------------- silence and survival

  /** Two seconds without an accepted envelope. */
  predicate HeardRecently(peer: Peer, now: uint64) {
    now < peer.lastSeenMs + 2_000
  }

  predicate IsSilent(v: View, now: uint64) {
    v.authority != v.local && (v.authority in v.peers ==> !HeardRecently(v.peers[v.authority], now))
  }

  function Alive(v: View, now: uint64): set<PlayerId> {
    set p | p in v.peers && (p == v.local || (v.peers[p].connected && HeardRecently(v.peers[p], now)))
  }

  lemma SilenceIsTwoSeconds(v: View, now: uint64)
    ensures AuthoritySilent(v, now) <==> IsSilent(v, now)
    ensures Survivors(v, now) == Alive(v, now)
  {
  }

  /** A timeout migrates exactly when the authority has left or said nothing for two seconds. */
  lemma FailoverExactlyWhen(v: View, now: uint64)
    requires Invariant(v)
    ensures Timeout(v, now).1.Some? <==>
              && v.authority != v.local && v.epoch < 0xFFFF_FFFF_FFFF_FFFF
              && (!v.peers[v.authority].connected || v.peers[v.authority].lastSeenMs + 2_000 <= now)
  {
    FailoverIsTotal(v, now);
  }

  // ---------------------------------------------------------------- a sound checkpoint

  predicate HoldsWeapon(r: RiderCheckpoint, code: uint8, magazine: uint16, reserve: uint16) {
    r.weaponCode == code && r.ammoMagazine <= magazine && r.ammoReserve <= reserve
  }

  predicate IsSoundRider(r: RiderCheckpoint) {
    && (r.stance.Unknown? ==> !(1 <= r.stance.code <= 6))
    && 0 <= r.health <= 100
    && (HoldsWeapon(r, 0, 30, 120) || HoldsWeapon(r, 1, 18, 72) || HoldsWeapon(r, 2, 40, 160))
    && (r.shotIndex == 0 <==> r.lastShotTick.None?)
    && (r.lastShotTick.Some? ==> r.lastCommandTick.Some? && r.lastShotTick.value <= r.lastCommandTick.value)
  }

  /** One to sixteen distinct sound riders, and at most 1024 distinct receipts. */
  predicate IsSoundCheckpoint(c: MatchCheckpoint) {
    && 1 <= |c.riders| <= 16 && |c.resolvedShots| <= 1_024
    && (forall i | 0 <= i < |c.riders| :: IsSoundRider(c.riders[i]))
    && (forall i, j | 0 <= i < j < |c.riders| :: c.riders[i].rider != c.riders[j].rider)
    && (forall i, j | 0 <= i < j < |c.resolvedShots| :: c.resolvedShots[i] != c.resolvedShots[j])
  }

  lemma RidersAreSound(r: RiderCheckpoint)
    ensures r.IsWellFormed() <==> IsSoundRider(r)
  {
  }

  /** The bounds a checkpoint is held to are these and no others. */
  lemma CheckpointsAreSound(c: MatchCheckpoint)
    ensures c.IsBoundedAndCanonical() <==> IsSoundCheckpoint(c)
  {
    forall i | 0 <= i < |c.riders| ensures c.riders[i].IsWellFormed() <==> IsSoundRider(c.riders[i]) {
      RidersAreSound(c.riders[i]);
    }
    var ids := seq(|c.riders|, i requires 0 <= i < |c.riders| => c.riders[i].rider);
    DistinctExactlyWhenNoneLost(ids);
    assert forall i | 0 <= i < |c.riders| :: c.riders[i].rider == ids[i];
    assert (set i | 0 <= i < |ids| :: ids[i]) == set i | 0 <= i < |c.riders| :: c.riders[i].rider;
    DistinctExactlyWhenNoneLost(c.resolvedShots);
  }

  // ---------------------------------------------------------------- the checks, in order

  /** The checkpoint is the sender's own, of the epoch before the claimed one, untampered, sound and rostered. */
  predicate HandoffFits(v: View, env: Envelope, hash: CheckpointHash)
    requires env.payload.MigrationSnapshot?
  {
    var MigrationSnapshot(authority, epoch, c, stateHash) := env.payload;
    && authority == env.sender
    && epoch == c.sourceEpoch + 1
    && (v.epoch == c.sourceEpoch || v.epoch == epoch)
    && env.simulationTick == c.tick
    && stateHash == hash(c)
    && IsSoundCheckpoint(c)
    && forall i | 0 <= i < |c.riders| :: c.riders[i].rider in v.peers.Keys
  }

  /** The claimant speaks for itself: again, as a lower authority over a silent one, or as its successor. */
  ghost predicate MayClaim(v: View, sender: PlayerId, authority: PlayerId, epoch: uint64, now: uint64) {
    && sender == authority
    && (|| (epoch == v.epoch && authority == v.authority)
        || (epoch == v.epoch && authority < v.authority && IsSilent(v, now))
        || (epoch == v.epoch + 1 && IsSilent(v, now) && Elect(v.preference, Alive(v, now)) == Some(authority)))
  }

  function ClaimedEpoch(p: PeerPayload): Option<uint64> {
    match p
    case Authority(_, epoch) => Some(epoch)
    case MigrationSnapshot(_, epoch, _, _) => Some(epoch)
    case _ => None
  }

  function ClaimedAuthority(p: PeerPayload): Option<PlayerId> {
    match p
    case Authority(authority, _) => Some(authority)
    case MigrationSnapshot(authority, _, _, _) => Some(authority)
    case _ => None
  }

  ghost function SessionChecks(v: View, env: Envelope, now: uint64, hash: CheckpointHash): seq<Check> {
    var p := env.payload;
    [Check(env.lobby == v.lobby, WrongLobby),
     Check(env.authorityEpoch >= v.epoch, StaleAuthorityEpoch),
     Check(env.sender in v.peers, UnknownSender),
     Check(env.authorityEpoch == v.epoch || ClaimedEpoch(p).Some?, InvalidPayloadRole),
     Check(p.RiderSnapshot? || p.Result? ==> env.sender == v.authority, InvalidPayloadRole),
     Check(p.Command? ==> p.command.shooter == env.sender && p.command.tick == env.simulationTick,
           InvalidPayloadSubject),
     Check(p.Result? ==> p.result.tick == env.simulationTick && p.result.shooter in v.peers, InvalidPayloadSubject),
     Check(p.RiderSnapshot? ==> p.rider in v.peers, InvalidPayloadSubject),
     Check(p.Result? ==> Receipt(env.authorityEpoch, p.result.shooter, p.result.tick) !in v.applied,
           DuplicateShotResult),
     Check(p.MigrationSnapshot? ==> HandoffFits(v, env, hash), InvalidCheckpoint),
     Check(env.sender in v.peers ==> v.peers[env.sender].lastSequence < env.sequence, DuplicateOrReplay),
     Check(ClaimedEpoch(p).Some? && ClaimedAuthority(p).Some? ==>
             MayClaim(v, env.sender, ClaimedAuthority(p).value, ClaimedEpoch(p).value, now), InvalidAuthorityClaim)]
  }

  lemma ClaimsMatch(v: View, sender: PlayerId, authority: PlayerId, epoch: uint64, now: uint64)
    ensures ClaimCoherent(v, sender, authority, epoch, now) <==> MayClaim(v, sender, authority, epoch, now)
  {
    SilenceIsTwoSeconds(v, now);
  }

  lemma HandoffsMatch(v: View, env: Envelope, hash: CheckpointHash)
    requires env.payload.MigrationSnapshot?
    ensures CheckpointFits(v, env, hash) <==> HandoffFits(v, env, hash)
  {
    CheckpointsAreSound(env.payload.checkpoint);
  }

  lemma PredicatesMatch(v: View, env: Envelope, now: uint64, hash: CheckpointHash)
    ensures env.payload.MigrationSnapshot? ==> (CheckpointFits(v, env, hash) <==> HandoffFits(v, env, hash))
    ensures env.payload.IsAuthorityClaim() ==>
              && ClaimedEpoch(env.payload) == Some(env.payload.epoch)
              && ClaimedAuthority(env.payload) == Some(env.payload.authority)
              && (ClaimCoherent(v, env.sender, env.payload.authority, env.payload.epoch, now)
                  <==> MayClaim(v, env.sender, env.payload.authority, env.payload.epoch, now))
    ensures env.payload.IsAuthorityClaim() <==> ClaimedEpoch(env.payload).Some?
    ensures ClaimedEpoch(env.payload).Some? <==> ClaimedAuthority(env.payload).Some?
  {
    if env.payload.MigrationSnapshot? {
      HandoffsMatch(v, env, hash);
    }
    if env.payload.IsAuthorityClaim() {
      ClaimsMatch(v, env.sender, env.payload.authority, env.payload.epoch, now);
    }
  }

  /** The outcome is always the refusal of the first check that fails, and acceptance when none does. */
  lemma OutcomeIsTheFirstRefusal(v: View, env: Envelope, now: uint64, hash: CheckpointHash)
    ensures Gate(v, env, now, hash) == FirstRefusal(SessionChecks(v, env, now, hash))
  {
    var checks := SessionChecks(v, env, now, hash);
    PredicatesMatch(v, env, now, hash);
    var k := 0;
    while k < |checks| && checks[k].passes
      invariant k <= |checks| && forall j | 0 <= j < k :: checks[j].passes
    {
      k := k + 1;
    }
    FirstFailureDecides(checks, k);
    assert |checks| == 12;
    assert (k > 0 ==> checks[0].passes) && (k > 1 ==> checks[1].passes) && (k > 2 ==> checks[2].passes);
    assert (k > 3 ==> checks[3].passes) && (k > 4 ==> checks[4].passes) && (k > 5 ==> checks[5].passes);
    assert (k > 6 ==> checks[6].passes) && (k > 7 ==> checks[7].passes) && (k > 8 ==> checks[8].passes);
    assert (k > 9 ==> checks[9].passes) && (k > 10 ==> checks[10].passes) && (k > 11 ==> checks[11].passes);
  }

  /** A handoff in order from a player who may claim is accepted exactly when its checkpoint fits. */
  lemma HandoffAcceptedExactlyWhen(v: View, env: Envelope, now: uint64, hash: CheckpointHash)
    requires env.payload.MigrationSnapshot?
    requires env.lobby == v.lobby && env.authorityEpoch >= v.epoch
    requires env.sender in v.peers && env.sequence > v.peers[env.sender].lastSequence
    requires MayClaim(v, env.sender, env.payload.authority, env.payload.epoch, now)
    ensures Gate(v, env, now, hash) == Accepted <==> HandoffFits(v, env, hash)
  {
    PredicatesMatch(v, env, now, hash);
  }

  /** Whatever else an envelope says, a handoff whose state hash is not its checkpoint's is refused. */
  lemma TamperedHandoffIsRefused(v: View, env: Envelope, now: uint64, hash: CheckpointHash)
    requires env.payload.MigrationSnapshot? && env.payload.stateHash != hash(env.payload.checkpoint)
    ensures Gate(v, env, now, hash) != Accepted
  {
    PredicatesMatch(v, env, now, hash);
  }

  // ---------------------------------------------------------------- secure mode

  /** The checks secure mode adds in front, for a sender whose roster entry is `entry`. */
  function SecureChecks(
      manifest: Manifest, rosterHash: Bytes32, env: Envelope, source: Endpoint, nodeKey: Option<Bytes32>,
      crypto: Crypto, entry: Option<RosterEntry>): seq<Check>
  {
    if env.session.None? then [Check(false, UnsignedInSecureMode)]
    else if entry.None? then [Check(false, UnknownSender)]
    else
      var SessionBinding(networkGeneration, sessionGeneration, hash, signature) := env.session.value;
      var RosterEntry(_, publicKey, endpoint, key) := entry.value;
      [Check(endpoint.address == source.address && endpoint.port == source.port, EndpointMismatch),
       Check(key.Some? && nodeKey.Some? ==> key.value == nodeKey.value, NodeKeyMismatch),
       Check(env.lobby == manifest.lobby, WrongLobby),
       Check(networkGeneration == manifest.networkGeneration && sessionGeneration == manifest.sessionGeneration,
             WrongGeneration),
       Check(hash == rosterHash, RosterMismatch),
       Check(crypto.verify(publicKey, Digest(env, networkGeneration, sessionGeneration, hash, crypto), signature),
             BadSignature)]
  }

  /** Secure refusals come in this order, and the session is asked only when there is none. */
  lemma SecureOutcomeIsTheFirstRefusal(
      manifest: Manifest, rosterHash: Bytes32, v: View, env: Envelope, source: Endpoint, nodeKey: Option<Bytes32>,
      now: uint64, crypto: Crypto)
    ensures var checks :=
              SecureChecks(manifest, rosterHash, env, source, nodeKey, crypto, EntryOf(manifest.entries, env.sender));
            SecureOutcome(manifest, rosterHash, v, env, source, nodeKey, now, crypto)
            == if FirstRefusal(checks) != Accepted then FirstRefusal(checks)
               else FirstRefusal(SessionChecks(v, env, now, crypto.CheckpointDigest()))
  {
    OutcomeIsTheFirstRefusal(v, env, now, crypto.CheckpointDigest());
    SecureGateIsTheFirstRefusal(manifest, rosterHash, env, source, nodeKey, crypto);
  }

  lemma SecureGateIsTheFirstRefusal(
      manifest: Manifest, rosterHash: Bytes32, env: Envelope, source: Endpoint, nodeKey: Option<Bytes32>,
      crypto: Crypto)
    ensures SecureGate(manifest, rosterHash, env, source, nodeKey, crypto)
            == FirstRefusal(SecureChecks(
                 manifest, rosterHash, env, source, nodeKey, crypto, EntryOf(manifest.entries, env.sender)))
  {
    var checks :=
      SecureChecks(manifest, rosterHash, env, source, nodeKey, crypto, EntryOf(manifest.entries, env.sender));
    var k := 0;
    while k < |checks| && checks[k].passes
      invariant k <= |checks| && forall j | 0 <= j < k :: checks[j].passes
    {
      k := k + 1;
    }
    FirstFailureDecides(checks, k);
    assert (k > 0 ==> checks[0].passes) && (k > 1 ==> checks[1].passes) && (k > 2 ==> checks[2].passes);
    assert (k > 3 ==> checks[3].passes) && (k > 4 ==> checks[4].passes) && (k > 5 ==> checks[5].passes);
  }

  // ---------------------------------------------------------------- what may be sent

  predicate KnowsTheSubject(v: View, p: PeerPayload) {
    (p.Result? ==> p.result.shooter in v.peers) && (p.RiderSnapshot? ==> p.rider in v.peers)
  }

  /** A peer signs exactly what no peer of the same belief refuses for the sender's role or its subject. */
  lemma SentExactlyWhenReceivable(
      v: View, w: View, tick: uint64, payload: PeerPayload, now: uint64, hash: CheckpointHash)
    requires w.lobby == v.lobby && w.epoch == v.epoch && w.authority == v.authority
    requires v.local in w.peers && KnowsTheSubject(w, payload)
    ensures MaySend(v, tick, payload) <==>
              var outcome := Gate(w, Composed(v, tick, payload), now, hash);
              outcome != InvalidPayloadRole && outcome != InvalidPayloadSubject
  {
    PredicatesMatch(w, Composed(v, tick, payload), now, hash);
  }
}
