/**
 Every peer of one signed roster over a hostile network.

 The network may lose, repeat, reorder, alter and invent envelopes. Its one limit is that it cannot
 forge: a signature that verifies under an honest player's key covers a digest that player signed,
 and what was delivered does not collide with what was signed.
 */
module SecureNetwork {
  import opened Protocol
  import opened SessionSpec
  import opened SessionLaws
  import opened PayloadEncoding
  import opened SecureSessionModel

  /**
   One peer: its session, what it has sent, accepted and elected by its own timeouts, each oldest
   first, and the authority it started with.
   */
  datatype Node = Node(
    view: View, sent: seq<Envelope>, accepted: seq<Envelope>, elected: seq<Migration>, first: Migration)

  datatype World = World(manifest: Manifest, rosterHash: Bytes32, crypto: Crypto, nodes: map<PlayerId, Node>)

  datatype Action =
    | Send(player: PlayerId, tick: uint64, payload: PeerPayload)
    | Deliver(player: PlayerId, env: Envelope, source: Endpoint, nodeKey: Option<Bytes32>, at: uint64)
    | Wait(player: PlayerId, at: uint64)

  function Believed(v: View): Migration {
    Migration(v.authority, v.epoch)
  }

  function SignedDigest(w: World, env: Envelope): Bytes32 {
    Digest(env, w.manifest.networkGeneration, w.manifest.sessionGeneration, w.rosterHash, w.crypto)
  }

  /** The digest of one is the digest of the other, and that is no collision. */
  predicate SignsAlike(w: World, a: Envelope, b: Envelope) {
    && SignedDigest(w, a) == SignedDigest(w, b)
    && Distinguishes(w.crypto, SignedContent(w, a), SignedContent(w, b))
  }

  function SignedContent(w: World, env: Envelope): Bytes {
    SignedBytes(env, w.manifest.networkGeneration, w.manifest.sessionGeneration, w.rosterHash, w.crypto.json)
  }

  /**
   Honest players are the nodes of the world: a signature that verifies under such a player's key, over
   the digest of an envelope in its name, was made for a digest of something it has sent.
   */
  ghost predicate Unforged(w: World, env: Envelope) {
    var entry := EntryOf(w.manifest.entries, env.sender);
    && env.sender in w.nodes && env.session.Some? && entry.Some?
    && w.crypto.verify(entry.value.publicKey, SignedDigest(w, env), env.session.value.signature) ==>
         exists e :: e in w.nodes[env.sender].sent && SignsAlike(w, e, env)
  }

  ghost function Outcome(w: World, action: Action): AcceptOutcome
    requires action.Deliver? && action.player in w.nodes
  {
    SecureOutcome(w.manifest, w.rosterHash, w.nodes[action.player].view, action.env, action.source,
                  action.nodeKey, action.at, w.crypto)
  }

  ghost function NodeAfter(w: World, action: Action): Node
    requires action.player in w.nodes
  {
    var n := w.nodes[action.player];
    match action
    case Send(_, tick, payload) =>
      if !MaySend(n.view, tick, payload) then n
      else n.(view := AfterComposing(n.view), sent := n.sent + [Composed(n.view, tick, payload)])
    case Deliver(_, env, _, _, at) =>
      if Outcome(w, action) != Accepted then n
      else n.(view := Apply(n.view, env, at), accepted := n.accepted + [env])
    case Wait(_, at) =>
      var (view, migration) := Timeout(n.view, at);
      n.(view := view, elected := if migration.Some? then n.elected + [migration.value] else n.elected)
  }

  ghost predicate Steps(w: World, action: Action, next: World) {
    && action.player in w.nodes
    && (action.Deliver? ==> Unforged(w, action.env))
    && next == w.(nodes := w.nodes[action.player := NodeAfter(w, action)])
  }

  ghost predicate Starts(w: World) {
    && Injective(w.crypto.json)
    && forall p | p in w.nodes ::
         var n := w.nodes[p];
         && n.view.local == p && n.view.nextSequence == 1 && Invariant(n.view)
         && n.sent == [] && n.accepted == [] && n.elected == [] && n.first == Believed(n.view)
  }

  ghost predicate IsRun(worlds: seq<World>, actions: seq<Action>) {
    && |worlds| == |actions| + 1
    && Starts(worlds[0])
    && forall i | 0 <= i < |actions| :: Steps(worlds[i], actions[i], worlds[i + 1])
  }

  // ---------------------------------------------------------------- what every world keeps

  /** The sequence number of a player's k-th envelope: it counts up and then sticks. */
  function SequenceOf(k: nat): uint64 {
    if k < UINT64_MAX then k + 1 else UINT64_MAX
  }

  ghost predicate SendsInOrder(n: Node, player: PlayerId) {
    && n.view.local == player
    && n.view.nextSequence == SequenceOf(|n.sent|)
    && forall k | 0 <= k < |n.sent| :: n.sent[k].sender == player && n.sent[k].sequence == SequenceOf(k)
  }

  ghost predicate AcceptsInOrder(n: Node) {
    && (forall i | 0 <= i < |n.accepted| ::
          var s := n.accepted[i].sender;
          s in n.view.peers && n.accepted[i].sequence <= n.view.peers[s].lastSequence)
    && (forall i, j | 0 <= i < j < |n.accepted| && n.accepted[i].sender == n.accepted[j].sender ::
          n.accepted[i].sequence < n.accepted[j].sequence)
  }

  ghost predicate WasSent(w: World, env: Envelope)
    requires env.sender in w.nodes
  {
    exists k :: 0 <= k < |w.nodes[env.sender].sent| && SameMessage(env, w.nodes[env.sender].sent[k])
  }

  ghost predicate Sound(w: World) {
    && Injective(w.crypto.json)
    && (forall p | p in w.nodes ::
          InOrder(w.nodes[p], p))
    && (forall p, i | p in w.nodes && 0 <= i < |w.nodes[p].accepted| && w.nodes[p].accepted[i].sender in w.nodes ::
          WasSent(w, w.nodes[p].accepted[i]))
  }

  ghost predicate InOrder(n: Node, player: PlayerId) {
    SendsInOrder(n, player) && AcceptsInOrder(n) && Invariant(n.view)
  }

  lemma SendingStaysInOrder(n: Node, player: PlayerId, tick: uint64, payload: PeerPayload)
    requires InOrder(n, player)
    ensures InOrder(n.(view := AfterComposing(n.view), sent := n.sent + [Composed(n.view, tick, payload)]), player)
  {
    RosterOperationsKeepInvariant(n.view, n.view.local, [], 0);
  }

  lemma AcceptingStaysInOrder(n: Node, player: PlayerId, env: Envelope, now: uint64, hash: CheckpointHash)
    requires InOrder(n, player) && Gate(n.view, env, now, hash) == Accepted
    ensures env.sender in n.view.peers
            && InOrder(n.(view := Apply(n.view, env, now), accepted := n.accepted + [env]), player)
  {
    AcceptedExactlyWhen(n.view, env, now, hash);
    ReceiveKeepsInvariant(n.view, env, now, hash);
  }

  lemma WaitingStaysInOrder(n: Node, player: PlayerId, now: uint64)
    requires InOrder(n, player)
    ensures forall elected :: InOrder(n.(view := Timeout(n.view, now).0, elected := elected), player)
  {
    TimeoutKeepsInvariant(n.view, now);
  }

  lemma NodeStaysInOrder(w: World, action: Action)
    requires Sound(w) && action.player in w.nodes
    ensures InOrder(NodeAfter(w, action), action.player)
  {
    var n := w.nodes[action.player];
    match action {
      case Send(_, tick, payload) => SendingStaysInOrder(n, action.player, tick, payload);
      case Deliver(_, env, _, _, at) =>
        if Outcome(w, action) == Accepted {
          AcceptingStaysInOrder(n, action.player, env, at, w.crypto.CheckpointDigest());
        }
      case Wait(_, at) => WaitingStaysInOrder(n, action.player, at);
    }
  }

  lemma DeliveredWasSent(w: World, action: Action)
    requires Sound(w) && action.Deliver? && action.player in w.nodes && Outcome(w, action) == Accepted
    requires Unforged(w, action.env) && action.env.sender in w.nodes
    ensures WasSent(w, action.env)
  {
    AcceptedSignatureVerifies(
      w.manifest, w.rosterHash, action.env, action.source, action.nodeKey, w.crypto);
    var e :| e in w.nodes[action.env.sender].sent && SignsAlike(w, e, action.env);
    EqualDigestsMeanTheSameMessage(
      e, action.env, w.manifest.networkGeneration, w.manifest.sessionGeneration, w.rosterHash, w.crypto);
  }

  /** A step loses nothing sent or accepted, and what it adds to the accepted came from a delivery. */
  lemma StepOnlyAdds(w: World, action: Action, next: World, p: PlayerId)
    requires Steps(w, action, next) && p in w.nodes
    ensures next.nodes.Keys == w.nodes.Keys && w.nodes[p].sent <= next.nodes[p].sent
    ensures next.nodes[p].accepted == w.nodes[p].accepted
            || (p == action.player && action.Deliver? && Outcome(w, action) == Accepted
                && next.nodes[p].accepted == w.nodes[p].accepted + [action.env])
  {
  }

  lemma SentStaysSent(w: World, action: Action, next: World, env: Envelope)
    requires Steps(w, action, next) && env.sender in w.nodes && WasSent(w, env)
    ensures env.sender in next.nodes && WasSent(next, env)
  {
    StepOnlyAdds(w, action, next, env.sender);
    var k :| 0 <= k < |w.nodes[env.sender].sent| && SameMessage(env, w.nodes[env.sender].sent[k]);
    assert next.nodes[env.sender].sent[k] == w.nodes[env.sender].sent[k];
  }

  lemma AcceptedWasSent(w: World, action: Action, next: World, p: PlayerId, i: nat)
    requires Sound(w) && Steps(w, action, next) && p in w.nodes
    requires i < |next.nodes[p].accepted| && next.nodes[p].accepted[i].sender in w.nodes
    ensures WasSent(w, next.nodes[p].accepted[i])
  {
    StepOnlyAdds(w, action, next, p);
    if i < |w.nodes[p].accepted| {
      assert next.nodes[p].accepted[i] == w.nodes[p].accepted[i];
    } else {
      DeliveredWasSent(w, action);
    }
  }

  lemma StepKeepsSound(w: World, action: Action, next: World)
    requires Sound(w) && Steps(w, action, next)
    ensures Sound(next)
  {
    NodeStaysInOrder(w, action);
    forall p, i | p in next.nodes && 0 <= i < |next.nodes[p].accepted| && next.nodes[p].accepted[i].sender in next.nodes
      ensures WasSent(next, next.nodes[p].accepted[i])
    {
      AcceptedWasSent(w, action, next, p, i);
      SentStaysSent(w, action, next, next.nodes[p].accepted[i]);
    }
  }

  lemma {:induction false} RunsAreSound(worlds: seq<World>, actions: seq<Action>, i: nat)
    requires IsRun(worlds, actions) && i < |worlds|
    ensures Sound(worlds[i])
  {
    if i > 0 {
      RunsAreSound(worlds, actions, i - 1);
      StepKeepsSound(worlds[i - 1], actions[i - 1], worlds[i]);
    }
  }

  /** Everything accepted in an honest player's name is a message that player sent. */
  lemma DeliveryIsAuthentic(worlds: seq<World>, actions: seq<Action>, t: nat, player: PlayerId, i: nat)
    requires IsRun(worlds, actions) && t < |worlds| && player in worlds[t].nodes
    requires i < |worlds[t].nodes[player].accepted|
    requires worlds[t].nodes[player].accepted[i].sender in worlds[t].nodes
    ensures WasSent(worlds[t], worlds[t].nodes[player].accepted[i])
  {
    RunsAreSound(worlds, actions, t);
  }

  /**
   At most once and in order: of two messages accepted from one honest sender, the later accepted is
   the later sent. This holds even after sequence numbers have stopped growing.
   */
  lemma DeliveryIsInOrder(
      worlds: seq<World>, actions: seq<Action>, t: nat, player: PlayerId, i: nat, j: nat, k: nat, l: nat)
    requires IsRun(worlds, actions) && t < |worlds| && player in worlds[t].nodes
    requires i < j < |worlds[t].nodes[player].accepted|
    requires var first, second := worlds[t].nodes[player].accepted[i], worlds[t].nodes[player].accepted[j];
             && first.sender == second.sender && first.sender in worlds[t].nodes
             && k < |worlds[t].nodes[first.sender].sent| && l < |worlds[t].nodes[first.sender].sent|
             && SameMessage(first, worlds[t].nodes[first.sender].sent[k])
             && SameMessage(second, worlds[t].nodes[first.sender].sent[l])
    ensures k < l
  {
    RunsAreSound(worlds, actions, t);
  }

  // ---------------------------------------------------------------- where an authority comes from

  /** The envelope claims this authority in this epoch for its own sender. */
  predicate Claims(env: Envelope, m: Migration) {
    env.payload.IsAuthorityClaim() && env.sender == m.authority == env.payload.authority && env.payload.epoch == m.epoch
  }

  /** The node started with this authority, elected it on a timeout, or accepted its claim. */
  ghost predicate Explained(n: Node) {
    var m := Believed(n.view);
    m == n.first || m in n.elected || exists env :: env in n.accepted && Claims(env, m)
  }

  lemma AcceptingStaysExplained(n: Node, env: Envelope, now: uint64, hash: CheckpointHash)
    requires Explained(n) && Gate(n.view, env, now, hash) == Accepted
    ensures env.sender in n.view.peers
            && Explained(n.(view := Apply(n.view, env, now), accepted := n.accepted + [env]))
  {
    AcceptedExactlyWhen(n.view, env, now, hash);
    var after := n.(view := Apply(n.view, env, now), accepted := n.accepted + [env]);
    if env.payload.IsAuthorityClaim() {
      AcceptedClaimInstallsItsSender(n.view, env, now, hash);
      assert env in after.accepted && Claims(env, Believed(after.view));
    } else {
      assert forall e | e in n.accepted :: e in after.accepted;
    }
  }

  lemma NodeStaysExplained(w: World, action: Action)
    requires action.player in w.nodes && Explained(w.nodes[action.player])
    ensures Explained(NodeAfter(w, action))
  {
    var n := w.nodes[action.player];
    if action.Deliver? && Outcome(w, action) == Accepted {
      AcceptingStaysExplained(n, action.env, action.at, w.crypto.CheckpointDigest());
    }
  }

  lemma {:induction false} RunsAreExplained(worlds: seq<World>, actions: seq<Action>, t: nat, player: PlayerId)
    requires IsRun(worlds, actions) && t < |worlds| && player in worlds[t].nodes
    ensures Explained(worlds[t].nodes[player])
  {
    if t > 0 {
      RunsAreExplained(worlds, actions, t - 1, player);
      if actions[t - 1].player == player {
        NodeStaysExplained(worlds[t - 1], actions[t - 1]);
      }
    }
  }

  lemma SameMessagesClaimAlike(a: Envelope, b: Envelope, m: Migration)
    requires SameMessage(a, b) && Claims(a, m)
    ensures Claims(b, m)
  {
  }

  /**
   Nobody else makes an authority: if an honest peer believes in an honest player, it started with
   that authority, its own timeout elected it, or that player itself sent the claim for that epoch.
   */
  lemma AuthorityIsFirstElectedOrClaimed(worlds: seq<World>, actions: seq<Action>, t: nat, player: PlayerId)
    requires IsRun(worlds, actions) && t < |worlds| && player in worlds[t].nodes
    requires worlds[t].nodes[player].view.authority in worlds[t].nodes
    ensures var n := worlds[t].nodes[player];
            var m := Believed(n.view);
            || m == n.first || m in n.elected
            || exists env :: env in worlds[t].nodes[m.authority].sent && Claims(env, m)
  {
    RunsAreExplained(worlds, actions, t, player);
    var n := worlds[t].nodes[player];
    var m := Believed(n.view);
    if m != n.first && m !in n.elected {
      var env :| env in n.accepted && Claims(env, m);
      var i :| 0 <= i < |n.accepted| && n.accepted[i] == env;
      DeliveryIsAuthentic(worlds, actions, t, player, i);
      var sent := worlds[t].nodes[m.authority].sent;
      var k :| 0 <= k < |sent| && SameMessage(env, sent[k]);
      SameMessagesClaimAlike(env, sent[k], m);
      assert sent[k] in sent;
    }
  }
}
