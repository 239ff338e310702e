/** The peer session as the source keeps it: one object whose fields each operation updates in place. */
module SessionStateModel {
  import opened Protocol
  import opened SessionSpec
  import opened SessionLaws

  class SessionState {
    const hash: CheckpointHash
    const lobbyId: LobbyId
    const localPlayer: PlayerId
    var authority: PlayerId
    var authorityEpoch: uint64
    var nextSequence: uint64
    var peers: Roster
    var migrationPreference: seq<PlayerId>
    var appliedShotResults: set<Receipt>
    var checkpoint: Option<MatchCheckpoint>

    ghost function Belief(): View
      reads this
    {
      View(lobbyId, localPlayer, authority, authorityEpoch, nextSequence, peers,
           migrationPreference, appliedShotResults, checkpoint)
    }

    ghost predicate Valid()
      reads this
    {
      Invariant(Belief())
    }

    constructor (hash: CheckpointHash, lobbyId: LobbyId, localPlayer: PlayerId, authority: PlayerId, now: uint64)
      ensures Valid()
      ensures Belief() == NewView(lobbyId, localPlayer, authority, now)
      ensures this.hash == hash
    {
      this.hash := hash;
      this.lobbyId := lobbyId;
      this.localPlayer := localPlayer;
      this.authority := authority;
      this.authorityEpoch := 1;
      this.nextSequence := 1;
      this.peers := map[localPlayer := Peer(0, now, true), authority := Peer(0, now, true)];
      this.migrationPreference := [];
      this.appliedShotResults := {};
      this.checkpoint := None;
    }

    method AddPeer(player: PlayerId, now: uint64)
      requires Valid()
      modifies this`peers
      ensures Valid()
      ensures Belief() == WithPeer(old(Belief()), player, now)
    {
      RosterOperationsKeepInvariant(Belief(), player, [], now);
      peers := peers[player := Peer(0, now, true)];
    }

    method ConfigureMigrationPreference(preference: seq<PlayerId>) returns (installed: bool)
      requires Valid()
      modifies this`migrationPreference
      ensures Valid()
      ensures installed == CoversRoster(preference, peers)
      ensures Belief() == WithPreference(old(Belief()), preference)
    {
      RosterOperationsKeepInvariant(Belief(), localPlayer, preference, 0);
      var ordered := set i | 0 <= i < |preference| :: preference[i];
      DistinctExactlyWhenNoneLost(preference);
      if |ordered| != |preference| || ordered != peers.Keys {
        return false;
      }
      migrationPreference := preference;
      return true;
    }

    method ComposeEnvelope(tick: uint64, payload: PeerPayload) returns (env: Envelope)
      requires Valid()
      modifies this`nextSequence
      ensures Valid()
      ensures env == Composed(old(Belief()), tick, payload)
      ensures Belief() == AfterComposing(old(Belief()))
    {
      RosterOperationsKeepInvariant(Belief(), localPlayer, [], 0);
      var sequence := nextSequence;
      nextSequence := if nextSequence == UINT64_MAX then UINT64_MAX else nextSequence + 1;
      env := Envelope(CURRENT_WIRE_VERSION, lobbyId, localPlayer, sequence, authorityEpoch, tick, payload, None);
    }

    method Accept(env: Envelope, now: uint64) returns (outcome: AcceptOutcome)
      requires Valid()
      modifies this`peers, this`appliedShotResults, this`checkpoint, this`authority, this`authorityEpoch
      ensures Valid()
      ensures outcome == Gate(old(Belief()), env, now, hash)
      ensures Belief() == Receive(old(Belief()), env, now, hash)
    {
      ReceiveKeepsInvariant(Belief(), env, now, hash);
      outcome := PassGates(env, now);
      if outcome == Accepted {
        Install(env, now);
      }
    }

    /** The gates in order; the first that closes names the outcome. */
    method PassGates(env: Envelope, now: uint64) returns (outcome: AcceptOutcome)
      requires Valid()
      ensures outcome == Gate(Belief(), env, now, hash)
    {
      if env.lobby != lobbyId {
        return WrongLobby;
      }
      if env.authorityEpoch < authorityEpoch {
        return StaleAuthorityEpoch;
      }
      if env.sender !in peers {
        return UnknownSender;
      }
      var payload := env.payload;
      var authorityClaim := payload.Authority? || payload.MigrationSnapshot?;
      if env.authorityEpoch != authorityEpoch && !authorityClaim {
        return InvalidPayloadRole;
      }
      if (payload.RiderSnapshot? || payload.Result?) && env.sender != authority {
        return InvalidPayloadRole;
      }
      if payload.Command? && (payload.command.shooter != env.sender || payload.command.tick != env.simulationTick) {
        return InvalidPayloadSubject;
      }
      if payload.Result? && (payload.result.tick != env.simulationTick || payload.result.shooter !in peers) {
        return InvalidPayloadSubject;
      }
      if payload.RiderSnapshot? && payload.rider !in peers {
        return InvalidPayloadSubject;
      }
      if payload.Result?
         && Receipt(env.authorityEpoch, payload.result.shooter, payload.result.tick) in appliedShotResults {
        return DuplicateShotResult;
      }
      if payload.MigrationSnapshot? {
        var claimed := payload.checkpoint;
        var epochWindow := claimed.sourceEpoch == authorityEpoch
                           || (claimed.sourceEpoch + 1 == authorityEpoch && payload.epoch == authorityEpoch);
        if payload.authority != env.sender
           || claimed.sourceEpoch + 1 != payload.epoch
           || !epochWindow
           || claimed.tick != env.simulationTick
           || hash(claimed) != payload.stateHash
           || !claimed.IsBoundedAndCanonical()
           || exists i | 0 <= i < |claimed.riders| :: claimed.riders[i].rider !in peers {
          return InvalidCheckpoint;
        }
      }
      if env.sequence <= peers[env.sender].lastSequence {
        return DuplicateOrReplay;
      }
      if authorityClaim {
        var coherent := AuthorityClaimIsCoherent(env.sender, payload.authority, payload.epoch, now);
        if !coherent {
          return InvalidAuthorityClaim;
        }
      }
      return Accepted;
    }

    /** What an accepted envelope changes. */
    method Install(env: Envelope, now: uint64)
      requires env.sender in peers
      modifies this`peers, this`appliedShotResults, this`checkpoint, this`authority, this`authorityEpoch
      ensures Belief() == Apply(old(Belief()), env, now)
    {
      var payload := env.payload;
      peers := peers[env.sender := Peer(env.sequence, now, !payload.Leave?)];
      if payload.Result? {
        appliedShotResults := appliedShotResults
        + {Receipt(env.authorityEpoch, payload.result.shooter, payload.result.tick)};
      }
      if payload.MigrationSnapshot? {
        appliedShotResults := appliedShotResults + payload.checkpoint.Receipts();
        checkpoint := Some(payload.checkpoint);
      }
      if payload.Authority? || payload.MigrationSnapshot? {
        if payload.epoch > authorityEpoch || (payload.epoch == authorityEpoch && payload.authority < authority) {
          authority := payload.authority;
          authorityEpoch := payload.epoch;
        }
      }
    }

    method AuthorityClaimIsCoherent(sender: PlayerId, claimed: PlayerId, epoch: uint64, now: uint64)
      returns (coherent: bool)
      requires Valid()
      ensures coherent == ClaimCoherent(Belief(), sender, claimed, epoch, now)
    {
      if claimed != sender {
        return false;
      }
      var silent := CurrentAuthorityIsSilent(now);
      if epoch == authorityEpoch {
        return claimed == authority || (claimed < authority && silent);
      }
      if authorityEpoch == UINT64_MAX || authorityEpoch + 1 != epoch || !silent {
        return false;
      }
      var successor := DeterministicSuccessor(now);
      return successor == Some(claimed);
    }

    predicate CurrentAuthorityIsSilent(now: uint64)
      reads this
      ensures CurrentAuthorityIsSilent(now) == AuthoritySilent(Belief(), now)
    {
      && authority != localPlayer
      && (authority in peers ==> Expired(peers[authority], now))
    }

    method DeterministicSuccessor(now: uint64) returns (successor: Option<PlayerId>)
      ensures successor == Elect(migrationPreference, Survivors(Belief(), now))
    {
      ghost var survivors := Survivors(Belief(), now);
      for i := 0 to |migrationPreference|
        invariant Elect(migrationPreference[i..], survivors) == Elect(migrationPreference, survivors)
      {
        var player := migrationPreference[i];
        var alive := player in peers
        && (player == localPlayer || (peers[player].connected && !Expired(peers[player], now)));
        assert alive == (player in survivors);
        if alive {
          return Some(player);
        }
      }
      var alive := set p | p in peers
                           && (p == localPlayer || (peers[p].connected && !Expired(peers[p], now)));
      assert alive == survivors;
      successor := FirstInOrder(alive);
    }

    /** Expires silent peers and installs the successor this peer's own view elects. */
    method ExpireAndMigrate(now: uint64) returns (migration: Option<Migration>)
      requires Valid()
      modifies this`peers, this`authority, this`authorityEpoch
      ensures Valid()
      ensures (Belief(), migration) == Timeout(old(Belief()), now)
    {
      TimeoutKeepsInvariant(Belief(), now);
      SweepPeers(now);
      if authority in peers && peers[authority].connected {
        return None;
      }
      var successor := FirstConnectedByPreference();
      match successor
      case None => return None;
      case Some(player) =>
        if authorityEpoch == UINT64_MAX {
          return None;
        }
        authority := player;
        authorityEpoch := authorityEpoch + 1;
        return Some(Migration(player, authorityEpoch));
    }

    method SweepPeers(now: uint64)
      modifies this`peers
      ensures peers == Sweep(old(Belief()), now)
    {
      ghost var before := Belief();
      var pending := peers.Keys;
      while pending != {}
        invariant peers.Keys == before.peers.Keys && pending <= peers.Keys
        invariant forall p | p in pending :: peers[p] == before.peers[p]
        invariant forall p | p in peers.Keys - pending :: peers[p] == Sweep(before, now)[p]
        decreases pending
      {
        var player :| player in pending;
        if player == localPlayer {
          peers := peers[player := peers[player].(connected := true)];
        } else if Expired(peers[player], now) {
          peers := peers[player := peers[player].(connected := false)];
        }
        pending := pending - {player};
      }
    }

    method FirstConnectedByPreference() returns (successor: Option<PlayerId>)
      ensures successor == Elect(migrationPreference, Connected(peers))
    {
      for i := 0 to |migrationPreference|
        invariant Elect(migrationPreference[i..], Connected(peers)) == Elect(migrationPreference, Connected(peers))
      {
        var player := migrationPreference[i];
        if player in peers && peers[player].connected {
          return Some(player);
        }
      }
      var connected := set p | p in peers && peers[p].connected;
      successor := FirstInOrder(connected);
    }
  }

  lemma {:induction false} DistinctExactlyWhenNoneLost<T>(s: seq<T>)
    ensures |set i | 0 <= i < |s| :: s[i]| <= |s|
    ensures |set i | 0 <= i < |s| :: s[i]| == |s| <==> Distinct(s)
  {
    if s != [] {
      var last, init := s[|s| - 1], s[..|s| - 1];
      DistinctExactlyWhenNoneLost(init);
      var all := set i | 0 <= i < |s| :: s[i];
      var some := set i | 0 <= i < |init| :: init[i];
      assert all == some + {last};
      assert last in some <==> exists i :: 0 <= i < |init| && init[i] == last;
    }
  }

  /** The first key an ordered map would yield: the least of the pool. */
  method FirstInOrder(pool: set<PlayerId>) returns (first: Option<PlayerId>)
    ensures first == Elect([], pool)
  {
    if pool == {} {
      return None;
    }
    var least :| least in pool;
    var pending := pool - {least};
    while pending != {}
      invariant least in pool && pending <= pool
      invariant forall p | p in pool :: p in pending || least <= p
      decreases pending
    {
      var player :| player in pending;
      if player < least {
        least := player;
      }
      pending := pending - {player};
    }
    ElectionNamesTheLeastRank([], pool, least);
    return Some(least);
  }
}
