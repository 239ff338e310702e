/** Signed envelopes: what a verified roster adds in front of the session's own gates. */
module SecureSessionModel {
  import opened Protocol
  import opened ByteFields
  import opened PayloadEncoding
  import opened SessionSpec
  import opened SessionLaws
  import opened SessionStateModel

  datatype Endpoint = Endpoint(address: Bytes, port: uint16)

  datatype RosterEntry = RosterEntry(
    player: PlayerId, publicKey: Bytes32, endpoint: Endpoint, nodeKey: Option<Bytes32>)

  datatype Manifest = Manifest(
    lobby: LobbyId, networkGeneration: uint64, sessionGeneration: uint64, entries: seq<RosterEntry>)

  /** SHA-256, signature verification and JSON text, all outside this model. */
  datatype Crypto = Crypto(
    sha256: Bytes -> Bytes32,
    verify: (Bytes32, Bytes32, Bytes) -> bool,
    json: CheckpointJson)
  {
    function CheckpointDigest(): CheckpointHash {
      (c: MatchCheckpoint) => sha256(json(c))
    }
  }

  function EntryOf(entries: seq<RosterEntry>, player: PlayerId): Option<RosterEntry> {
    if entries == [] then None
    else if entries[0].player == player then Some(entries[0])
    else EntryOf(entries[1..], player)
  }

  // ---------------------------------------------------------------- the signed digest

  const ENVELOPE_DOMAIN: Bytes := Ascii("SPURFIRE-ENV\0v1\0")

  /** What a signature binds beside the payload. */
  datatype Header = Header(
    version: WireVersion, lobby: LobbyId, networkGeneration: uint64, sessionGeneration: uint64,
    rosterHash: Bytes32, sender: PlayerId, authorityEpoch: uint64, sequence: uint64, tick: uint64)

  function HeaderOf(env: Envelope, networkGeneration: uint64, sessionGeneration: uint64, rosterHash: Bytes32): Header {
    Header(env.wireVersion, env.lobby, networkGeneration, sessionGeneration, rosterHash, env.sender,
           env.authorityEpoch, env.sequence, env.simulationTick)
  }

  function SessionFields(h: Header): Bytes {
    Uint16(h.version.major) + (Uint16(h.version.minor) + (Uint128(h.lobby)
    + (Uint64(h.networkGeneration) + (Uint64(h.sessionGeneration) + h.rosterHash))))
  }

  function MessageFields(h: Header): Bytes {
    Uint128(h.sender) + (Uint64(h.authorityEpoch) + (Uint64(h.sequence) + Uint64(h.tick)))
  }

  function Preimage(h: Header, payload: Bytes): Bytes {
    ENVELOPE_DOMAIN + (SessionFields(h) + (MessageFields(h) + Text(payload)))
  }

  lemma SessionFieldsPinDown(h: Header, k: Header)
    ensures |SessionFields(h)| == 68
    ensures SessionFields(h) == SessionFields(k) ==>
              && h.version == k.version && h.lobby == k.lobby
              && h.networkGeneration == k.networkGeneration
              && h.sessionGeneration == k.sessionGeneration && h.rosterHash == k.rosterHash
  {
    if SessionFields(h) == SessionFields(k) {
      SessionFieldsRoundTrip(h);
      SessionFieldsRoundTrip(k);
    }
  }

  function ParseSessionFields(bytes: Bytes): Taken<(WireVersion, LobbyId, uint64, uint64, Bytes)> {
    var (major, bytes) :- TakeUint16(bytes);
    var (minor, bytes) :- TakeUint16(bytes);
    var (lobby, bytes) :- TakeUint128(bytes);
    var (network, bytes) :- TakeUint64(bytes);
    var (session, bytes) :- TakeUint64(bytes);
    Taken((WireVersion(major, minor), lobby, network, session, bytes), [])
  }

  lemma SessionFieldsRoundTrip(h: Header)
    ensures ParseSessionFields(SessionFields(h))
            == Taken((h.version, h.lobby, h.networkGeneration, h.sessionGeneration, h.rosterHash), [])
  {
    var afterNetwork := Uint64(h.sessionGeneration) + h.rosterHash;
    var afterLobby := Uint64(h.networkGeneration) + afterNetwork;
    var afterMinor := Uint128(h.lobby) + afterLobby;
    Uint16RoundTrip(h.version.major, Uint16(h.version.minor) + afterMinor);
    Uint16RoundTrip(h.version.minor, afterMinor);
    Uint128RoundTrip(h.lobby, afterLobby);
    Uint64RoundTrip(h.networkGeneration, afterNetwork);
    Uint64RoundTrip(h.sessionGeneration, h.rosterHash);
  }

  function ParseMessageFields(bytes: Bytes): Taken<(PlayerId, uint64, uint64, uint64)> {
    var (sender, bytes) :- TakeUint128(bytes);
    var (epoch, bytes) :- TakeUint64(bytes);
    var (sequence, bytes) :- TakeUint64(bytes);
    var (tick, bytes) :- TakeUint64(bytes);
    Taken((sender, epoch, sequence, tick), bytes)
  }

  lemma MessageFieldsRoundTrip(h: Header, tail: Bytes)
    ensures ParseMessageFields(MessageFields(h) + tail)
            == Taken((h.sender, h.authorityEpoch, h.sequence, h.tick), tail)
  {
    var afterSequence := Uint64(h.tick) + tail;
    var afterEpoch := Uint64(h.sequence) + afterSequence;
    var afterSender := Uint64(h.authorityEpoch) + afterEpoch;
    assert MessageFields(h) + tail == Uint128(h.sender) + afterSender;
    Uint128RoundTrip(h.sender, afterSender);
    Uint64RoundTrip(h.authorityEpoch, afterEpoch);
    Uint64RoundTrip(h.sequence, afterSequence);
    Uint64RoundTrip(h.tick, tail);
  }

  lemma SplitsAlike(a: Bytes, b: Bytes, tailA: Bytes, tailB: Bytes)
    requires |a| == |b| && a + tailA == b + tailB
    ensures a == b && tailA == tailB
  {
    assert a == (a + tailA)[..|a|] && tailA == (a + tailA)[|a|..];
    assert b == (b + tailB)[..|b|] && tailB == (b + tailB)[|b|..];
  }

  /** The bytes under a signature determine every header field and the payload bytes. */
  lemma PreimageIsUnambiguous(h: Header, p: Bytes, k: Header, q: Bytes)
    requires Preimage(h, p) == Preimage(k, q)
    ensures h == k && p == q
  {
    SplitsAlike(ENVELOPE_DOMAIN, ENVELOPE_DOMAIN,
                SessionFields(h) + (MessageFields(h) + Text(p)), SessionFields(k) + (MessageFields(k) + Text(q)));
    SessionFieldsPinDown(h, k);
    SessionFieldsPinDown(k, h);
    SplitsAlike(SessionFields(h), SessionFields(k), MessageFields(h) + Text(p), MessageFields(k) + Text(q));
    MessageFieldsRoundTrip(h, Text(p));
    MessageFieldsRoundTrip(k, Text(q));
    assert p == Text(p)[4..] && q == Text(q)[4..];
  }

  /** The bytes a signature covers through their digest. */
  function SignedBytes(
      env: Envelope, networkGeneration: uint64, sessionGeneration: uint64, rosterHash: Bytes32,
      json: CheckpointJson): Bytes
  {
    Preimage(HeaderOf(env, networkGeneration, sessionGeneration, rosterHash), Encoded(env.payload, json))
  }

  function Digest(
      env: Envelope, networkGeneration: uint64, sessionGeneration: uint64, rosterHash: Bytes32,
      crypto: Crypto): Bytes32
  {
    crypto.sha256(SignedBytes(env, networkGeneration, sessionGeneration, rosterHash, crypto.json))
  }

  /** These two inputs are no collision of the hash function. */
  predicate Distinguishes(crypto: Crypto, a: Bytes, b: Bytes) {
    crypto.sha256(a) == crypto.sha256(b) ==> a == b
  }

  /** The same message: everything but the signature, and the stance's spelling. */
  predicate SameMessage(a: Envelope, b: Envelope) {
    && a.wireVersion == b.wireVersion && a.lobby == b.lobby && a.sender == b.sender
    && a.sequence == b.sequence && a.authorityEpoch == b.authorityEpoch
    && a.simulationTick == b.simulationTick && Canonical(a.payload) == Canonical(b.payload)
  }

  /** Under one manifest the signed bytes are the message. */
  lemma SignedBytesAreTheMessage(
      a: Envelope, b: Envelope, networkGeneration: uint64, sessionGeneration: uint64, rosterHash: Bytes32,
      json: CheckpointJson)
    requires Injective(json)
    ensures SignedBytes(a, networkGeneration, sessionGeneration, rosterHash, json)
            == SignedBytes(b, networkGeneration, sessionGeneration, rosterHash, json)
            <==> SameMessage(a, b)
  {
    if SignedBytes(a, networkGeneration, sessionGeneration, rosterHash, json)
       == SignedBytes(b, networkGeneration, sessionGeneration, rosterHash, json) {
      PreimageIsUnambiguous(
        HeaderOf(a, networkGeneration, sessionGeneration, rosterHash), Encoded(a.payload, json),
        HeaderOf(b, networkGeneration, sessionGeneration, rosterHash), Encoded(b.payload, json));
    }
    EncodingIsUnambiguous(a.payload, b.payload, json);
  }

  /** Unless they collide, two envelopes share a digest exactly when they are the same message. */
  lemma EqualDigestsMeanTheSameMessage(
      a: Envelope, b: Envelope, networkGeneration: uint64, sessionGeneration: uint64, rosterHash: Bytes32,
      crypto: Crypto)
    requires Injective(crypto.json)
    requires Distinguishes(crypto, SignedBytes(a, networkGeneration, sessionGeneration, rosterHash, crypto.json),
                           SignedBytes(b, networkGeneration, sessionGeneration, rosterHash, crypto.json))
    ensures Digest(a, networkGeneration, sessionGeneration, rosterHash, crypto)
            == Digest(b, networkGeneration, sessionGeneration, rosterHash, crypto)
            <==> SameMessage(a, b)
  {
    SignedBytesAreTheMessage(a, b, networkGeneration, sessionGeneration, rosterHash, crypto.json);
  }

  // ---------------------------------------------------------------- the secure gates

  /** The refusal of the secure layer, or Accepted when the session's own gates decide. */
  function SecureGate(
      manifest: Manifest, rosterHash: Bytes32, env: Envelope, source: Endpoint, nodeKey: Option<Bytes32>,
      crypto: Crypto): AcceptOutcome
  {
    if env.session.None? then UnsignedInSecureMode
    else
      var binding := env.session.value;
      match EntryOf(manifest.entries, env.sender)
      case None => UnknownSender
      case Some(entry) =>
        if entry.endpoint != source then EndpointMismatch
        else if entry.nodeKey.Some? && nodeKey.Some? && entry.nodeKey != nodeKey then NodeKeyMismatch
        else if env.lobby != manifest.lobby then WrongLobby
        else if binding.networkGeneration != manifest.networkGeneration
                || binding.sessionGeneration != manifest.sessionGeneration then WrongGeneration
        else if binding.rosterHash != rosterHash then RosterMismatch
        else if !crypto.verify(
                   entry.publicKey,
                   Digest(env, binding.networkGeneration, binding.sessionGeneration, binding.rosterHash, crypto),
                   binding.signature) then BadSignature
        else Accepted
  }

  /** Where and for which session the envelope came, as its sender's entry and the manifest have it. */
  predicate AgreesWith(
      entry: RosterEntry, manifest: Manifest, rosterHash: Bytes32, env: Envelope, source: Endpoint,
      nodeKey: Option<Bytes32>)
  {
    && env.session.Some?
    && entry.endpoint.address == source.address && entry.endpoint.port == source.port
    && (entry.nodeKey.None? || nodeKey.None? || entry.nodeKey.value == nodeKey.value)
    && env.lobby == manifest.lobby
    && env.session.value.networkGeneration == manifest.networkGeneration
    && env.session.value.sessionGeneration == manifest.sessionGeneration
    && env.session.value.rosterHash == rosterHash
  }

  /** The first entry of a player. */
  ghost predicate IsEntry(entries: seq<RosterEntry>, player: PlayerId, i: nat) {
    i < |entries| && entries[i].player == player && forall j | 0 <= j < i :: entries[j].player != player
  }

  lemma {:induction false} EntryIsTheFirst(entries: seq<RosterEntry>, player: PlayerId, i: nat)
    requires IsEntry(entries, player, i)
    ensures EntryOf(entries, player) == Some(entries[i])
  {
    if i > 0 {
      assert entries[0].player != player;
      EntryIsTheFirst(entries[1..], player, i - 1);
    }
  }

  lemma {:induction false} FoundEntryIsTheFirst(entries: seq<RosterEntry>, player: PlayerId) returns (i: nat)
    requires EntryOf(entries, player).Some?
    ensures IsEntry(entries, player, i)
  {
    if entries[0].player == player {
      i := 0;
    } else {
      var k := FoundEntryIsTheFirst(entries[1..], player);
      i := k + 1;
    }
  }

  /**
   An envelope passes the secure gates if and only if its sender's first roster entry agrees with where
   and for which session it came, and the signature verifies under that entry's key.
   */
  lemma SecureGateAcceptsExactlyWhen(
      manifest: Manifest, rosterHash: Bytes32, env: Envelope, source: Endpoint, nodeKey: Option<Bytes32>,
      crypto: Crypto)
    ensures SecureGate(manifest, rosterHash, env, source, nodeKey, crypto) == Accepted <==>
              exists i: nat ::
                && IsEntry(manifest.entries, env.sender, i)
                && AgreesWith(manifest.entries[i], manifest, rosterHash, env, source, nodeKey)
                && crypto.verify(
                     manifest.entries[i].publicKey,
                     Digest(env, manifest.networkGeneration, manifest.sessionGeneration, rosterHash, crypto),
                     env.session.value.signature)
  {
    if EntryOf(manifest.entries, env.sender).Some? {
      var i := FoundEntryIsTheFirst(manifest.entries, env.sender);
    }
    forall i: nat | IsEntry(manifest.entries, env.sender, i)
      ensures EntryOf(manifest.entries, env.sender) == Some(manifest.entries[i])
    {
      EntryIsTheFirst(manifest.entries, env.sender, i);
    }
  }

  lemma AcceptedSignatureVerifies(
      manifest: Manifest, rosterHash: Bytes32, env: Envelope, source: Endpoint, nodeKey: Option<Bytes32>,
      crypto: Crypto)
    requires SecureGate(manifest, rosterHash, env, source, nodeKey, crypto) == Accepted
    ensures var entry := EntryOf(manifest.entries, env.sender);
            && env.session.Some? && entry.Some?
            && crypto.verify(
                 entry.value.publicKey,
                 Digest(env, manifest.networkGeneration, manifest.sessionGeneration, rosterHash, crypto),
                 env.session.value.signature)
  {
    SecureGateAcceptsExactlyWhen(manifest, rosterHash, env, source, nodeKey, crypto);
    var i: nat :| IsEntry(manifest.entries, env.sender, i)
      && AgreesWith(manifest.entries[i], manifest, rosterHash, env, source, nodeKey)
      && crypto.verify(
           manifest.entries[i].publicKey,
           Digest(env, manifest.networkGeneration, manifest.sessionGeneration, rosterHash, crypto),
           env.session.value.signature);
    EntryIsTheFirst(manifest.entries, env.sender, i);
  }

  ghost function SecureOutcome(
      manifest: Manifest, rosterHash: Bytes32, v: View, env: Envelope, source: Endpoint, nodeKey: Option<Bytes32>,
      now: uint64, crypto: Crypto) : AcceptOutcome
  {
    var outcome := SecureGate(manifest, rosterHash, env, source, nodeKey, crypto);
    if outcome != Accepted then outcome else Gate(v, env, now, crypto.CheckpointDigest())
  }

  /** The source's rule for what a peer may send as the player it is. */
  predicate MaySend(v: View, tick: uint64, payload: PeerPayload) {
    && (payload.RiderSnapshot? || payload.Result? ==> v.local == v.authority)
    && (payload.Command? ==> payload.command.shooter == v.local && payload.command.tick == tick)
    && (payload.Result? ==> payload.result.tick == tick)
  }

  /** What a peer signs: the composed envelope bound to the manifest. */
  function Signed(
      manifest: Manifest, rosterHash: Bytes32, env: Envelope, sign: Bytes32 -> Bytes, crypto: Crypto): Envelope
  {
    var digest := Digest(env, manifest.networkGeneration, manifest.sessionGeneration, rosterHash, crypto);
    var binding := SessionBinding(manifest.networkGeneration, manifest.sessionGeneration, rosterHash, sign(digest));
    env.(session := Some(binding))
  }

  /** What a rostered player signs passes the secure gates of every peer holding the same manifest. */
  lemma SignedEnvelopesPass(
      manifest: Manifest, rosterHash: Bytes32, env: Envelope, sign: Bytes32 -> Bytes, entry: RosterEntry,
      nodeKey: Option<Bytes32>, crypto: Crypto)
    requires EntryOf(manifest.entries, env.sender) == Some(entry) && env.lobby == manifest.lobby
    requires forall digest: Bytes32 :: crypto.verify(entry.publicKey, digest, sign(digest))
    ensures var signed := Signed(manifest, rosterHash, env, sign, crypto);
            SecureGate(manifest, rosterHash, signed, entry.endpoint, nodeKey, crypto)
            == if entry.nodeKey.Some? && nodeKey.Some? && entry.nodeKey != nodeKey then NodeKeyMismatch else Accepted
  {
    var signed := Signed(manifest, rosterHash, env, sign, crypto);
    assert SignedBytes(signed, manifest.networkGeneration, manifest.sessionGeneration, rosterHash, crypto.json)
        == SignedBytes(env, manifest.networkGeneration, manifest.sessionGeneration, rosterHash, crypto.json);
  }

  class SecureSession {
    const manifest: Manifest
    const rosterHash: Bytes32
    const crypto: Crypto
    const state: SessionState

    ghost predicate Valid()
      reads state
    {
      state.Valid() && state.hash == crypto.CheckpointDigest()
    }

    constructor (manifest: Manifest, rosterHash: Bytes32, crypto: Crypto, state: SessionState)
      requires state.Valid() && state.hash == crypto.CheckpointDigest()
      ensures Valid()
      ensures this.manifest == manifest && this.rosterHash == rosterHash && this.crypto == crypto && this.state == state
    {
      this.manifest := manifest;
      this.rosterHash := rosterHash;
      this.crypto := crypto;
      this.state := state;
    }

    /** Composes and signs; a payload this peer may not send uses up no sequence number, a wrong key does. */
    method ComposeSigned(tick: uint64, payload: PeerPayload, sign: Bytes32 -> Bytes, publicKey: Bytes32)
      returns (signed: Option<Envelope>)
      requires Valid()
      modifies state
      ensures Valid()
      ensures var view := old(state.Belief());
              var entry := EntryOf(manifest.entries, view.local);
              && (signed.Some? <==> MaySend(view, tick, payload) && entry.Some? && entry.value.publicKey == publicKey)
              && (signed.Some? ==> signed.value
                                   == Signed(manifest, rosterHash, Composed(view, tick, payload), sign, crypto))
              && state.Belief() == if MaySend(view, tick, payload) then AfterComposing(view) else view
    {
      if (payload.RiderSnapshot? || payload.Result?) && state.localPlayer != state.authority {
        return None;
      }
      if (payload.Command? && (payload.command.shooter != state.localPlayer || payload.command.tick != tick))
         || (payload.Result? && payload.result.tick != tick) {
        return None;
      }
      var env := state.ComposeEnvelope(tick, payload);
      var entry := EntryOf(manifest.entries, env.sender);
      if entry.None? || entry.value.publicKey != publicKey {
        return None;
      }
      return Some(Signed(manifest, rosterHash, env, sign, crypto));
    }

    /** Every secure refusal comes before the session can change. */
    method AcceptWithSource(env: Envelope, source: Endpoint, nodeKey: Option<Bytes32>, now: uint64)
      returns (outcome: AcceptOutcome)
      requires Valid()
      modifies state
      ensures Valid()
      ensures outcome == SecureOutcome(manifest, rosterHash, old(state.Belief()), env, source, nodeKey, now, crypto)
      ensures state.Belief()
              == if outcome == Accepted then Apply(old(state.Belief()), env, now) else old(state.Belief())
    {
      if env.session.None? {
        return UnsignedInSecureMode;
      }
      var binding := env.session.value;
      var found := EntryOf(manifest.entries, env.sender);
      if found.None? {
        return UnknownSender;
      }
      var entry := found.value;
      if entry.endpoint.address != source.address || entry.endpoint.port != source.port {
        return EndpointMismatch;
      }
      if entry.nodeKey.Some? && nodeKey.Some? {
        if entry.nodeKey.value != nodeKey.value {
          return NodeKeyMismatch;
        }
      }
      if env.lobby != manifest.lobby {
        return WrongLobby;
      }
      if binding.networkGeneration != manifest.networkGeneration
         || binding.sessionGeneration != manifest.sessionGeneration {
        return WrongGeneration;
      }
      if binding.rosterHash != rosterHash {
        return RosterMismatch;
      }
      var digest := Digest(env, binding.networkGeneration, binding.sessionGeneration, binding.rosterHash, crypto);
      if !crypto.verify(entry.publicKey, digest, binding.signature) {
        return BadSignature;
      }
      AcceptedExactlyWhen(state.Belief(), env, now, crypto.CheckpointDigest());
      outcome := state.Accept(env, now);
    }
  }
}
