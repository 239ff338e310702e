/** Safety of whole runs: any sequence of envelopes, timeouts and local calls, from any valid view. */
module SessionRuns {
  import opened Protocol
  import opened SessionSpec
  import opened SessionLaws

  datatype Event =
    | Received(env: Envelope, at: uint64)
    | TimedOut(at: uint64)
    | PeerAdded(player: PlayerId, at: uint64)
    | PreferenceOffered(order: seq<PlayerId>)
    | EnvelopeComposed

  ghost function Next(v: View, event: Event, hash: CheckpointHash): View {
    match event
    case Received(env, at) => Receive(v, env, at, hash)
    case TimedOut(at) => Timeout(v, at).0
    case PeerAdded(player, at) => WithPeer(v, player, at)
    case PreferenceOffered(order) => WithPreference(v, order)
    case EnvelopeComposed => AfterComposing(v)
  }

  /** A run of one peer. The envelopes are arbitrary, so the network may lose, repeat and reorder. */
  ghost predicate IsRun(states: seq<View>, events: seq<Event>, hash: CheckpointHash) {
    && |states| == |events| + 1
    && Invariant(states[0])
    && forall i | 0 <= i < |events| :: states[i + 1] == Next(states[i], events[i], hash)
  }

  ghost predicate AcceptsAt(states: seq<View>, events: seq<Event>, i: nat, hash: CheckpointHash)
    requires IsRun(states, events, hash)
  {
    i < |events| && events[i].Received? && Gate(states[i], events[i].env, events[i].at, hash) == Accepted
  }

  // ---------------------------------------------------------------- one step

  lemma StepKeepsInvariant(v: View, event: Event, hash: CheckpointHash)
    requires Invariant(v)
    ensures Invariant(Next(v, event, hash))
    ensures Moves(v, Next(v, event, hash))
  {
    match event
    case Received(env, at) =>
      ReceiveKeepsInvariant(v, env, at, hash);
      StepsMoveTheAuthority(v, env, at, hash);
    case TimedOut(at) =>
      TimeoutKeepsInvariant(v, at);
      FailoverIsTotal(v, at);
    case PeerAdded(player, at) => RosterOperationsKeepInvariant(v, player, [], at);
    case PreferenceOffered(order) => RosterOperationsKeepInvariant(v, v.local, order, 0);
    case EnvelopeComposed => RosterOperationsKeepInvariant(v, v.local, [], 0);
  }

  /** What no step takes back: identity, roster, receipts, and the age of the installed checkpoint. */
  ghost predicate Keeps(v: View, w: View) {
    && w.lobby == v.lobby && w.local == v.local
    && v.peers.Keys <= w.peers.Keys
    && v.applied <= w.applied
    && v.epoch <= w.epoch
    && (w.epoch == v.epoch ==> w.authority <= v.authority)
    && (v.checkpoint.Some? ==>
          w.checkpoint.Some? && v.checkpoint.value.sourceEpoch <= w.checkpoint.value.sourceEpoch)
  }

  lemma StepKeeps(v: View, event: Event, hash: CheckpointHash)
    requires Invariant(v)
    ensures Keeps(v, Next(v, event, hash))
  {
    StepKeepsInvariant(v, event, hash);
    if event.Received? {
      AcceptedExactlyWhen(v, event.env, event.at, hash);
    }
  }

  // ---------------------------------------------------------------- whole runs

  lemma {:induction false} RunKeepsInvariant(states: seq<View>, events: seq<Event>, i: nat, hash: CheckpointHash)
    requires IsRun(states, events, hash) && i < |states|
    ensures Invariant(states[i])
  {
    if i > 0 {
      RunKeepsInvariant(states, events, i - 1, hash);
      StepKeepsInvariant(states[i - 1], events[i - 1], hash);
    }
  }

  /** Epochs never fall, an epoch's authority only falls, and nothing recorded is forgotten. */
  lemma {:induction false} RunOnlyAdvances(states: seq<View>, events: seq<Event>, i: nat, j: nat, hash: CheckpointHash)
    requires IsRun(states, events, hash) && i <= j < |states|
    ensures Keeps(states[i], states[j])
    ensures states[j].epoch - states[i].epoch <= j - i
  {
    if i < j {
      RunOnlyAdvances(states, events, i, j - 1, hash);
      RunKeepsInvariant(states, events, j - 1, hash);
      StepKeeps(states[j - 1], events[j - 1], hash);
      StepKeepsInvariant(states[j - 1], events[j - 1], hash);
    }
  }

  /** No authority comes back within an epoch. */
  lemma NoAuthorityReturns(states: seq<View>, events: seq<Event>, i: nat, j: nat, k: nat, hash: CheckpointHash)
    requires IsRun(states, events, hash) && i <= j <= k < |states|
    requires states[i].epoch == states[k].epoch && states[i].authority == states[k].authority
    ensures states[j].epoch == states[i].epoch && states[j].authority == states[i].authority
  {
    RunOnlyAdvances(states, events, i, j, hash);
    RunOnlyAdvances(states, events, j, k, hash);
  }

  /** How often the authority changes while `epoch` lasts. */
  ghost function Changes(states: seq<View>, epoch: uint64): nat {
    if |states| < 2 then 0
    else
      var v, w := states[|states| - 2], states[|states| - 1];
      Changes(states[..|states| - 1], epoch) + Change(v, w, epoch)
  }

  function Above(v: View): set<PlayerId> {
    set p | p in v.peers && p > v.authority
  }

  function Change(v: View, w: View, epoch: uint64): nat {
    if v.epoch == epoch == w.epoch && v.authority != w.authority then 1 else 0
  }

  /** A view that has seen `changes` in the epoch can still pay for them. */
  predicate Charged(v: View, epoch: uint64, changes: nat) {
    if v.epoch < epoch then changes == 0
    else if v.epoch == epoch then changes <= |Above(v)|
    else changes < |v.peers|
  }

  lemma FewerAbove(v: View)
    requires v.authority in v.peers
    ensures |Above(v)| < |v.peers|
  {
    Smaller(Above(v), v.peers.Keys - {v.authority});
    assert |v.peers.Keys| == |v.peers|;
  }

  lemma RosterOnlyGrows(v: View, w: View)
    requires v.peers.Keys <= w.peers.Keys
    ensures |v.peers| <= |w.peers|
  {
    Smaller(v.peers.Keys, w.peers.Keys);
    assert |v.peers.Keys| == |v.peers| && |w.peers.Keys| == |w.peers|;
  }

  lemma StepIsCharged(v: View, w: View, epoch: uint64, changes: nat)
    requires Invariant(v) && Keeps(v, w) && Charged(v, epoch, changes)
    ensures Charged(w, epoch, changes + Change(v, w, epoch))
  {
    FewerAbove(v);
    RosterOnlyGrows(v, w);
    if v.epoch == epoch == w.epoch {
      Smaller(if v.authority == w.authority then Above(v) else Above(v) + {v.authority}, Above(w));
    }
  }

  lemma {:induction false} ChangesAreCharged(states: seq<View>, events: seq<Event>, epoch: uint64, hash: CheckpointHash)
    requires IsRun(states, events, hash)
    ensures Charged(states[|states| - 1], epoch, Changes(states, epoch))
  {
    var n := |events|;
    if n > 0 {
      ChangesAreCharged(states[..n], events[..n - 1], epoch, hash);
      RunKeepsInvariant(states, events, n - 1, hash);
      StepKeeps(states[n - 1], events[n - 1], hash);
      StepIsCharged(states[n - 1], states[n], epoch, Changes(states[..n], epoch));
    }
  }

  lemma {:induction false} Smaller<T>(s: set<T>, t: set<T>)
    requires s <= t
    ensures |s| <= |t|
  {
    if s != {} {
      var x :| x in s;
      Smaller(s - {x}, t - {x});
    }
  }

  /** An epoch with n players on the roster sees at most n - 1 changes of authority. */
  lemma AuthorityChangesAreBounded(states: seq<View>, events: seq<Event>, epoch: uint64, hash: CheckpointHash)
    requires IsRun(states, events, hash)
    ensures Changes(states, epoch) + 1 <= |states[|states| - 1].peers|
  {
    ChangesAreCharged(states, events, epoch, hash);
    var last := states[|states| - 1];
    RunKeepsInvariant(states, events, |states| - 1, hash);
    FewerAbove(last);
  }

  // ---------------------------------------------------------------- exactly once

  predicate Readds(event: Event, player: PlayerId) {
    event.PeerAdded? && event.player == player
  }

  lemma {:induction false} SequenceNeverFalls(
      states: seq<View>, events: seq<Event>, i: nat, j: nat, player: PlayerId, hash: CheckpointHash)
    requires IsRun(states, events, hash) && i <= j < |states|
    requires player in states[i].peers
    requires forall k | i <= k < j :: !Readds(events[k], player)
    ensures player in states[j].peers
    ensures states[i].peers[player].lastSequence <= states[j].peers[player].lastSequence
  {
    if i < j {
      SequenceNeverFalls(states, events, i, j - 1, player, hash);
      if events[j - 1].Received? {
        AcceptedExactlyWhen(states[j - 1], events[j - 1].env, events[j - 1].at, hash);
      }
    }
  }

  /** A sender's accepted sequence numbers strictly increase, unless the sender is added again. */
  lemma AcceptedSequencesIncrease(
      states: seq<View>, events: seq<Event>, i: nat, j: nat, hash: CheckpointHash)
    requires IsRun(states, events, hash) && i < j
    requires AcceptsAt(states, events, i, hash) && AcceptsAt(states, events, j, hash)
    requires events[i].env.sender == events[j].env.sender
    requires forall k | i <= k < j :: !Readds(events[k], events[i].env.sender)
    ensures events[i].env.sequence < events[j].env.sequence
  {
    AcceptedExactlyWhen(states[i], events[i].env, events[i].at, hash);
    SequenceNeverFalls(states, events, i + 1, j, events[i].env.sender, hash);
    AcceptedExactlyWhen(states[j], events[j].env, events[j].at, hash);
  }

  /** No resolved shot is accepted twice, across any number of migrations and re-additions. */
  lemma ShotResultsAreAcceptedOnce(
      states: seq<View>, events: seq<Event>, i: nat, j: nat, hash: CheckpointHash)
    requires IsRun(states, events, hash) && i < j
    requires AcceptsAt(states, events, i, hash) && AcceptsAt(states, events, j, hash)
    requires events[i].env.payload.Result? && events[j].env.payload.Result?
    ensures ReceiptOf(events[i].env) != ReceiptOf(events[j].env)
  {
    AcceptedExactlyWhen(states[j], events[j].env, events[j].at, hash);
    RunOnlyAdvances(states, events, i + 1, j, hash);
  }

  /**
   Adding a known player again forgets its sequence numbers: every envelope accepted before is then
   accepted once more, except a shot result already applied and a claim sent from before its epoch.
   */
  lemma AddingAgainReopensReplay(
      v: View, env: Envelope, now: uint64, added: uint64, later: uint64, hash: CheckpointHash)
    requires Gate(v, env, now, hash) == Accepted
    ensures Gate(WithPeer(Receive(v, env, now, hash), env.sender, added), env, later, hash)
            == if env.payload.Result? then DuplicateShotResult
               else if env.payload.IsAuthorityClaim() && env.authorityEpoch < env.payload.epoch
               then StaleAuthorityEpoch
               else Accepted
  {
    AcceptedExactlyWhen(v, env, now, hash);
    if env.payload.IsAuthorityClaim() {
      AcceptedClaimInstallsItsSender(v, env, now, hash);
    }
  }

  /**
   What a re-addition lets through at any later moment of a run: no shot result, and of the rest what
   belongs to the current epoch, with state and claims only from the player who is still authority.
   */
  lemma ReplayAfterReadditionAcceptedExactlyWhen(
      states: seq<View>, events: seq<Event>, i: nat, j: nat, added: uint64, later: uint64, hash: CheckpointHash)
    requires IsRun(states, events, hash) && i < j < |states| && AcceptsAt(states, events, i, hash)
    ensures var env := events[i].env;
            var v := WithPeer(states[j], env.sender, added);
            Gate(v, env, later, hash) == Accepted <==>
              && !env.payload.Result?
              && (env.payload.RiderSnapshot? || env.payload.IsAuthorityClaim() ==> env.sender == v.authority)
              && if env.payload.IsAuthorityClaim() then env.payload.epoch == v.epoch <= env.authorityEpoch
                 else env.authorityEpoch == v.epoch
  {
    var env := events[i].env;
    var v := WithPeer(states[j], env.sender, added);
    AcceptedExactlyWhen(states[i], env, events[i].at, hash);
    RunOnlyAdvances(states, events, i, i + 1, hash);
    RunOnlyAdvances(states, events, i + 1, j, hash);
    if env.payload.IsAuthorityClaim() {
      AcceptedClaimInstallsItsSender(states[i], env, events[i].at, hash);
    }
    AcceptedExactlyWhen(v, env, later, hash);
  }

  // ---------------------------------------------------------------- receipts across epochs

  /** Acceptance never depends on receipts of earlier epochs: they are carried, not consulted. */
  lemma OnlyThisEpochsReceiptsMatter(v: View, env: Envelope, now: uint64, hash: CheckpointHash)
    ensures var recent := v.(applied := set r | r in v.applied && r.epoch == v.epoch);
            Gate(recent, env, now, hash) == Gate(v, env, now, hash)
  {
    var recent := v.(applied := set r | r in v.applied && r.epoch == v.epoch);
    assert forall p | p in v.peers :: Responsive(recent, p, now) == Responsive(v, p, now);
    assert Survivors(recent, now) == Survivors(v, now);
  }

  /** The same shot resolved again by another sender, in its epoch and under a number of its own. */
  predicate ResolvesAgain(again: Envelope, result: Envelope, sender: PlayerId, epoch: uint64) {
    again == result.(sender := sender, authorityEpoch := epoch, sequence := again.sequence, session := again.session)
  }

  /**
   So carried receipts guard nothing: after any accepted result and any timeout that then migrates,
   the new authority's fresh envelope with the very same shot is accepted, though its receipt is kept.
   */
  lemma CarriedReceiptsDoNotGuard(
      v: View, result: Envelope, now: uint64, lapse: uint64, again: Envelope, later: uint64, hash: CheckpointHash)
    requires Invariant(v) && result.payload.Result? && Gate(v, result, now, hash) == Accepted
    requires Timeout(Receive(v, result, now, hash), lapse).1.Some?
    requires var w := Timeout(Receive(v, result, now, hash), lapse).0;
             && ResolvesAgain(again, result, w.authority, w.epoch)
             && w.authority in w.peers && again.sequence > w.peers[w.authority].lastSequence
    ensures var w := Timeout(Receive(v, result, now, hash), lapse).0;
            ReceiptOf(result) in w.applied && Gate(w, again, later, hash) == Accepted
  {
    var heard := Receive(v, result, now, hash);
    AcceptedExactlyWhen(v, result, now, hash);
    ReceiveKeepsInvariant(v, result, now, hash);
    FailoverIsTotal(heard, lapse);
    AcceptedExactlyWhen(Timeout(heard, lapse).0, again, later, hash);
  }

  /**
   Nor does a handoff's: after any step that raises the epoch, by timeout or by an accepted claim with
   or without a checkpoint, the new authority may resolve every shot anew.
   */
  lemma NewEpochResolvesShotsAnew(v: View, event: Event, env: Envelope, later: uint64, hash: CheckpointHash)
    requires Invariant(v) && Next(v, event, hash).epoch > v.epoch && env.payload.Result?
    ensures var w := Next(v, event, hash);
            Gate(w, env, later, hash) == Accepted <==>
              && Addressed(w, env) && env.sender == w.authority
              && env.payload.result.tick == env.simulationTick && env.payload.result.shooter in w.peers
  {
    var w := Next(v, event, hash);
    AcceptedExactlyWhen(w, env, later, hash);
    if event.Received? {
      AcceptedClaimInstallsItsSender(v, event.env, event.at, hash);
      AcceptedExactlyWhen(v, event.env, event.at, hash);
    }
    assert forall r | r in w.applied :: r.epoch < w.epoch;
  }

  ghost predicate AcceptedResultBefore(
    states: seq<View>, events: seq<Event>, j: nat, receipt: Receipt, hash: CheckpointHash)
    requires IsRun(states, events, hash)
  {
    exists i: nat :: i < j && AcceptsAt(states, events, i, hash) && events[i].env.payload.Result?
                     && ReceiptOf(events[i].env) == receipt
  }

  /** Beyond what a run starts with, the receipts of the current epoch are those of results accepted in it. */
  lemma {:induction false} CurrentReceiptsComeFromResults(
      states: seq<View>, events: seq<Event>, j: nat, receipt: Receipt, hash: CheckpointHash)
    requires IsRun(states, events, hash) && j < |states|
    requires states[j].epoch <= receipt.epoch && receipt !in states[0].applied
    ensures receipt in states[j].applied <==> AcceptedResultBefore(states, events, j, receipt, hash)
  {
    if j > 0 {
      var v, event := states[j - 1], events[j - 1];
      RunOnlyAdvances(states, events, j - 1, j, hash);
      CurrentReceiptsComeFromResults(states, events, j - 1, receipt, hash);
      ReceiptArrivesOnlyByResult(v, event, receipt, hash);
      assert AcceptsAt(states, events, j - 1, hash)
        <==> event.Received? && Gate(v, event.env, event.at, hash) == Accepted;
    }
  }

  lemma ReceiptArrivesOnlyByResult(v: View, event: Event, receipt: Receipt, hash: CheckpointHash)
    requires Next(v, event, hash).epoch <= receipt.epoch
    ensures receipt in Next(v, event, hash).applied <==>
              || receipt in v.applied
              || (event.Received? && event.env.payload.Result? && ReceiptOf(event.env) == receipt
                  && Gate(v, event.env, event.at, hash) == Accepted)
  {
    if event.Received? && event.env.payload.MigrationSnapshot? && Gate(v, event.env, event.at, hash) == Accepted {
      AcceptedExactlyWhen(v, event.env, event.at, hash);
      AcceptedClaimInstallsItsSender(v, event.env, event.at, hash);
      var c := event.env.payload.checkpoint;
      assert forall r | r in c.Receipts() :: r.epoch == c.sourceEpoch;
    }
  }

  /** In a run, a well-addressed result from the authority is accepted unless this epoch has seen the shot. */
  lemma ShotAcceptedExactlyWhen(states: seq<View>, events: seq<Event>, j: nat, hash: CheckpointHash)
    requires IsRun(states, events, hash) && j < |events|
    requires events[j].Received? && events[j].env.payload.Result?
    ensures var v, env := states[j], events[j].env;
            var result := env.payload.result;
            var receipt := Receipt(v.epoch, result.shooter, result.tick);
            AcceptsAt(states, events, j, hash) <==>
              && Addressed(v, env) && env.sender == v.authority
              && result.tick == env.simulationTick && result.shooter in v.peers
              && receipt !in states[0].applied && !AcceptedResultBefore(states, events, j, receipt, hash)
  {
    var v, env := states[j], events[j].env;
    var receipt := Receipt(v.epoch, env.payload.result.shooter, env.payload.result.tick);
    AcceptedExactlyWhen(v, env, events[j].at, hash);
    RunOnlyAdvances(states, events, 0, j, hash);
    if receipt !in states[0].applied {
      CurrentReceiptsComeFromResults(states, events, j, receipt, hash);
    }
  }

  /** A shot accepted before is accepted again only in a later epoch, so at most once in each. */
  lemma ShotIsAcceptedAgainOnlyInALaterEpoch(
      states: seq<View>, events: seq<Event>, i: nat, j: nat, hash: CheckpointHash)
    requires IsRun(states, events, hash) && i < j
    requires AcceptsAt(states, events, i, hash) && AcceptsAt(states, events, j, hash)
    requires events[i].env.payload.Result? && events[j].env.payload.Result?
    requires events[i].env.payload.result.shooter == events[j].env.payload.result.shooter
    requires events[i].env.payload.result.tick == events[j].env.payload.result.tick
    ensures states[i].epoch == events[i].env.authorityEpoch < events[j].env.authorityEpoch == states[j].epoch
  {
    ShotResultsAreAcceptedOnce(states, events, i, j, hash);
    RunOnlyAdvances(states, events, i, j, hash);
    AcceptedExactlyWhen(states[i], events[i].env, events[i].at, hash);
    AcceptedExactlyWhen(states[j], events[j].env, events[j].at, hash);
  }

  // ---------------------------------------------------------------- split elections

  lemma {:induction false} SelfAuthorityIsForever(states: seq<View>, events: seq<Event>, i: nat, hash: CheckpointHash)
    requires IsRun(states, events, hash) && i < |states|
    requires states[0].authority == states[0].local
    ensures states[i].authority == states[0].local == states[i].local
    ensures states[i].epoch == states[0].epoch
  {
    if i > 0 {
      SelfAuthorityIsForever(states, events, i - 1, hash);
      RunKeepsInvariant(states, events, i - 1, hash);
      var v, event := states[i - 1], events[i - 1];
      match event {
        case Received(env, at) => SelfAuthorityIsStable(v, env, at, hash);
        case TimedOut(at) => FailoverIsTotal(v, at);
        case _ =>
      }
    }
  }

  /** Two peers that each elected themselves never agree again, whatever they exchange. */
  lemma SplitElectionNeverHeals(
      left: seq<View>, leftEvents: seq<Event>, right: seq<View>, rightEvents: seq<Event>,
      i: nat, j: nat, hash: CheckpointHash)
    requires IsRun(left, leftEvents, hash) && IsRun(right, rightEvents, hash)
    requires left[0].authority == left[0].local && right[0].authority == right[0].local
    requires left[0].local != right[0].local
    requires i < |left| && j < |right|
    ensures left[i].authority != right[j].authority
  {
    SelfAuthorityIsForever(left, leftEvents, i, hash);
    SelfAuthorityIsForever(right, rightEvents, j, hash);
  }

  lemma LoneSurvivorElectsItself(
      lobby: LobbyId, local: PlayerId, first: PlayerId, other: PlayerId, start: uint64, now: uint64)
    requires local != first && local != other && first != other && now >= start + HEARTBEAT_TIMEOUT_MS
    ensures var v := Timeout(WithPeer(NewView(lobby, local, first, start), other, start), now).0;
            Invariant(v) && v.local == v.authority == local && v.epoch == 2
  {
    var v := WithPeer(NewView(lobby, local, first, start), other, start);
    NewViewIsValid(lobby, local, first, start);
    RosterOperationsKeepInvariant(NewView(lobby, local, first, start), other, [], start);
    TimeoutKeepsInvariant(v, now);
    FailoverIsTotal(v, now);
    assert Survivors(v, now) == {local};
  }

  /** Such a pair is reached from any match start of three by a single timeout on each side. */
  lemma SplitElectionHappens(
      lobby: LobbyId, first: PlayerId, left: PlayerId, right: PlayerId, start: uint64, now: uint64)
    requires first != left && first != right && left != right && now >= start + HEARTBEAT_TIMEOUT_MS
    ensures var v := Timeout(WithPeer(NewView(lobby, left, first, start), right, start), now).0;
            var w := Timeout(WithPeer(NewView(lobby, right, first, start), left, start), now).0;
            && Invariant(v) && v.local == v.authority == left
            && Invariant(w) && w.local == w.authority == right
            && v.epoch == w.epoch == 2
  {
    LoneSurvivorElectsItself(lobby, left, first, right, start, now);
    LoneSurvivorElectsItself(lobby, right, first, left, start, now);
  }

  /** A lower claim within the epoch is adopted only by a peer whose own authority has gone silent. */
  lemma LowerClaimAdoptedExactlyWhen(v: View, env: Envelope, now: uint64, hash: CheckpointHash)
    requires env.payload.IsAuthorityClaim()
    requires env.payload.epoch == v.epoch && env.payload.authority < v.authority
    ensures Receive(v, env, now, hash).authority == env.payload.authority
            <==> && Addressed(v, env) && env.sender == env.payload.authority && AuthoritySilent(v, now)
                 && (env.payload.MigrationSnapshot? ==> CheckpointFits(v, env, hash))
  {
    AcceptedExactlyWhen(v, env, now, hash);
  }
}
