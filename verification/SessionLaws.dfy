/** Laws of single operations: elections, the two migration paths, and acceptance. */
module SessionLaws {
  import opened Protocol
  import opened SessionSpec

  // ---------------------------------------------------------------- elections

  ghost predicate IsWinner(order: seq<PlayerId>, pool: set<PlayerId>, winner: PlayerId) {
    && winner in pool
    && if exists i :: 0 <= i < |order| && order[i] in pool then
         exists i :: 0 <= i < |order| && order[i] == winner && forall j | 0 <= j < i :: order[j] !in pool
       else forall p | p in pool :: winner <= p
  }

  /** An election names the pool member of least rank, and fails only on an empty pool. */
  lemma {:induction false} ElectionNamesTheLeastRank(order: seq<PlayerId>, pool: set<PlayerId>, winner: PlayerId)
    ensures Elect(order, pool) == Some(winner) <==> IsWinner(order, pool, winner)
    ensures Elect(order, pool) == None <==> pool == {}
  {
    if order != [] && order[0] !in pool {
      var rest := order[1..];
      ElectionNamesTheLeastRank(rest, pool, winner);
      assert forall i | 0 <= i < |rest| :: rest[i] == order[i + 1];
      if exists i :: 0 <= i < |order| && order[i] in pool {
        var i :| 0 <= i < |order| && order[i] in pool;
        assert rest[i - 1] in pool;
        if IsWinner(order, pool, winner) {
          var w :| 0 <= w < |order| && order[w] == winner && forall j | 0 <= j < w :: order[j] !in pool;
          assert rest[w - 1] == winner;
        }
        if IsWinner(rest, pool, winner) {
          var w :| 0 <= w < |rest| && rest[w] == winner && forall j | 0 <= j < w :: rest[j] !in pool;
          assert forall j | 0 <= j < w + 1 :: order[j] !in pool by {
            forall j | 0 <= j < w + 1 ensures order[j] !in pool {
              if j > 0 { assert rest[j - 1] !in pool; }
            }
          }
          assert order[w + 1] == winner;
        }
      }
    }
  }

  /** Nested survivor sets elect the same player when the larger set's winner is in the smaller. */
  lemma ElectionAgreement(order: seq<PlayerId>, smaller: set<PlayerId>, larger: set<PlayerId>, winner: PlayerId)
    requires smaller <= larger
    requires Elect(order, larger) == Some(winner)
    requires winner in smaller
    ensures Elect(order, smaller) == Some(winner)
  {
    ElectionNamesTheLeastRank(order, larger, winner);
    ElectionNamesTheLeastRank(order, smaller, winner);
  }

  // ---------------------------------------------------------------- the two ways to migrate

  /**
   Two peers of one match that both migrate, one seeing no survivor the other does not, install the
   same authority in the same epoch exactly when the wider view's winner survives in the narrower.
   */
  lemma TimeoutsAgreeExactlyWhen(v: View, w: View, vNow: uint64, wNow: uint64)
    requires v.preference == w.preference && v.epoch == w.epoch
    requires Survivors(v, vNow) <= Survivors(w, wNow)
    requires Timeout(v, vNow).1.Some? && Timeout(w, wNow).1.Some?
    ensures Timeout(v, vNow).1 == Timeout(w, wNow).1 <==> Timeout(w, wNow).1.value.authority in Survivors(v, vNow)
  {
    SweepLeavesTheSurvivors(v, vNow);
    SweepLeavesTheSurvivors(w, wNow);
    var narrow, wide := Timeout(v, vNow).1.value.authority, Timeout(w, wNow).1.value.authority;
    ElectionNamesTheLeastRank(v.preference, Survivors(v, vNow), narrow);
    if wide in Survivors(v, vNow) {
      ElectionAgreement(v.preference, Survivors(v, vNow), Survivors(w, wNow), wide);
    }
  }

  lemma SweepLeavesTheSurvivors(v: View, now: uint64)
    ensures Connected(Sweep(v, now)) == Survivors(v, now)
    ensures Sweep(v, now).Keys == v.peers.Keys
  {
  }

  /**
   A remote claim that raises the epoch is accepted exactly when it is addressed, fresh, and names
   the migration this peer's own timeout would perform now, over an authority that is silent.
   */
  lemma AdvanceAcceptedExactlyWhen(v: View, env: Envelope, now: uint64, hash: CheckpointHash)
    requires env.payload.IsAuthorityClaim() && env.payload.epoch > v.epoch
    ensures Gate(v, env, now, hash) == Accepted <==>
              && env.lobby == v.lobby
              && env.authorityEpoch >= v.epoch
              && env.sender in v.peers
              && env.sequence > v.peers[env.sender].lastSequence
              && (env.payload.MigrationSnapshot? ==> CheckpointFits(v, env, hash))
              && env.payload.authority == env.sender
              && AuthoritySilent(v, now)
              && Timeout(v, now).1 == Some(Migration(env.sender, env.payload.epoch))
  {
    SweepLeavesTheSurvivors(v, now);
  }

  /** Both paths then leave the same authority and epoch. */
  lemma AcceptedAdvanceIsTheLocalMigration(v: View, env: Envelope, now: uint64, hash: CheckpointHash)
    requires Gate(v, env, now, hash) == Accepted
    requires env.payload.IsAuthorityClaim() && env.payload.epoch > v.epoch
    ensures Timeout(v, now).1 == Some(Migration(env.sender, v.epoch + 1))
    ensures Receive(v, env, now, hash).authority == Timeout(v, now).0.authority == env.sender
    ensures Receive(v, env, now, hash).epoch == Timeout(v, now).0.epoch == env.payload.epoch
  {
    AdvanceAcceptedExactlyWhen(v, env, now, hash);
  }

  /**
   An announced departure opens the local path at once but not the remote one: after an accepted
   Leave every timeout migrates, yet no epoch-raising claim is taken for a whole heartbeat timeout.
   */
  lemma LeaveOpensOnlyTheLocalPath(v: View, leave: Envelope, at: uint64, now: uint64, hash: CheckpointHash)
    requires Invariant(v)
    requires Gate(v, leave, at, hash) == Accepted
    requires leave.payload.Leave? && leave.sender == v.authority != v.local
    ensures Timeout(Apply(v, leave, at), now).1.Some? <==> v.epoch < UINT64_MAX
    ensures forall env: Envelope |
              env.payload.IsAuthorityClaim() && env.payload.epoch > v.epoch
              && Gate(Apply(v, leave, at), env, now, hash) == Accepted ::
              now >= at + HEARTBEAT_TIMEOUT_MS
  {
    var w := Apply(v, leave, at);
    ElectionNamesTheLeastRank(w.preference, Connected(Sweep(w, now)), w.local);
    assert w.local in Connected(Sweep(w, now));
  }

  // ---------------------------------------------------------------- what acceptance means

  predicate Addressed(v: View, env: Envelope) {
    && env.lobby == v.lobby
    && env.sender in v.peers
    && env.sequence > v.peers[env.sender].lastSequence
    && (if env.payload.IsAuthorityClaim() then env.authorityEpoch >= v.epoch else env.authorityEpoch == v.epoch)
  }

  ghost predicate Entitled(v: View, env: Envelope, now: uint64, hash: CheckpointHash) {
    match env.payload
    case RiderSnapshot(rider, _, _, _, _) => env.sender == v.authority && rider in v.peers
    case Command(command) => command.shooter == env.sender && command.tick == env.simulationTick
    case Result(result) =>
      && env.sender == v.authority
      && result.tick == env.simulationTick
      && result.shooter in v.peers
      && Receipt(v.epoch, result.shooter, result.tick) !in v.applied
    case Authority(authority, epoch) => ClaimCoherent(v, env.sender, authority, epoch, now)
    case MigrationSnapshot(authority, epoch, _, _) =>
      CheckpointFits(v, env, hash) && ClaimCoherent(v, env.sender, authority, epoch, now)
    case _ => true
  }

  /** The chain of gates lets through exactly the addressed envelopes its sender may send. */
  lemma AcceptedExactlyWhen(v: View, env: Envelope, now: uint64, hash: CheckpointHash)
    ensures Gate(v, env, now, hash) == Accepted <==> Addressed(v, env) && Entitled(v, env, now, hash)
  {
    match env.payload
    case Result(_) =>
    case _ =>
  }

  /** Whoever's claim is accepted is the authority afterwards, in the epoch it claimed. */
  lemma AcceptedClaimInstallsItsSender(v: View, env: Envelope, now: uint64, hash: CheckpointHash)
    requires Gate(v, env, now, hash) == Accepted && env.payload.IsAuthorityClaim()
    ensures Receive(v, env, now, hash).authority == env.sender
    ensures Receive(v, env, now, hash).epoch == env.payload.epoch
  {
    AcceptedExactlyWhen(v, env, now, hash);
  }

  /** An accepted envelope is never accepted again, at whatever time it is replayed. */
  lemma ReplayIsRefused(v: View, env: Envelope, now: uint64, later: uint64, hash: CheckpointHash)
    requires Gate(v, env, now, hash) == Accepted
    ensures Gate(Receive(v, env, now, hash), env, later, hash) != Accepted
  {
    AcceptedExactlyWhen(Receive(v, env, now, hash), env, later, hash);
  }

  // ---------------------------------------------------------------- authority and epoch

  /** The order every step moves along: up one epoch, or down to a lower authority in the same one. */
  predicate Moves(v: View, w: View) {
    || (w.epoch == v.epoch && w.authority == v.authority)
    || w.epoch == v.epoch + 1
    || (w.epoch == v.epoch && w.authority < v.authority)
  }

  lemma StepsMoveTheAuthority(v: View, env: Envelope, now: uint64, hash: CheckpointHash)
    ensures Moves(v, Receive(v, env, now, hash))
    ensures Moves(v, Timeout(v, now).0)
  {
    AcceptedExactlyWhen(v, env, now, hash);
  }

  /** A peer that is authority in its own view stays so, whatever it hears and however long it waits. */
  lemma SelfAuthorityIsStable(v: View, env: Envelope, now: uint64, hash: CheckpointHash)
    requires v.authority == v.local && v.local in v.peers
    ensures var w := Receive(v, env, now, hash); w.authority == v.authority && w.epoch == v.epoch
    ensures var w := Timeout(v, now).0; w.authority == v.authority && w.epoch == v.epoch
  {
    AcceptedExactlyWhen(v, env, now, hash);
  }

  /** A timeout fails to migrate only over a responsive authority or in the last epoch. */
  lemma FailoverIsTotal(v: View, now: uint64)
    requires Invariant(v)
    ensures Timeout(v, now).1 == None <==> Responsive(v, v.authority, now) || v.epoch == UINT64_MAX
    ensures forall m | Timeout(v, now).1 == Some(m) ::
              && m.authority in Survivors(v, now)
              && m.authority != v.authority
              && m.epoch == v.epoch + 1
              && Timeout(v, now).0.authority == m.authority
              && Timeout(v, now).0.epoch == m.epoch
  {
    SweepLeavesTheSurvivors(v, now);
    assert v.local in Survivors(v, now);
    ElectionNamesTheLeastRank(v.preference, Survivors(v, now), v.local);
    if Timeout(v, now).1.Some? {
      ElectionNamesTheLeastRank(v.preference, Survivors(v, now), Timeout(v, now).1.value.authority);
    }
  }

  // ---------------------------------------------------------------- the invariant

  lemma NewViewIsValid(lobby: LobbyId, local: PlayerId, authority: PlayerId, now: uint64)
    ensures Invariant(NewView(lobby, local, authority, now))
  {
  }

  lemma ReceiveKeepsInvariant(v: View, env: Envelope, now: uint64, hash: CheckpointHash)
    requires Invariant(v)
    ensures Invariant(Receive(v, env, now, hash))
  {
    AcceptedExactlyWhen(v, env, now, hash);
    if Gate(v, env, now, hash) == Accepted {
      if env.payload.IsAuthorityClaim() {
        AcceptedClaimInstallsItsSender(v, env, now, hash);
      }
      if env.payload.MigrationSnapshot? {
        assert forall r | r in env.payload.checkpoint.Receipts() :: r.epoch == env.payload.checkpoint.sourceEpoch;
      }
    }
  }

  lemma TimeoutKeepsInvariant(v: View, now: uint64)
    requires Invariant(v)
    ensures Invariant(Timeout(v, now).0)
  {
    SweepLeavesTheSurvivors(v, now);
    FailoverIsTotal(v, now);
  }

  lemma RosterOperationsKeepInvariant(v: View, player: PlayerId, order: seq<PlayerId>, now: uint64)
    requires Invariant(v)
    ensures Invariant(WithPeer(v, player, now))
    ensures Invariant(WithPreference(v, order))
    ensures Invariant(AfterComposing(v))
  {
    if CoversRoster(order, v.peers) {
      forall i | 0 <= i < |order| ensures order[i] in v.peers {
        assert order[i] in set j | 0 <= j < |order| :: order[j];
      }
    }
  }
}
