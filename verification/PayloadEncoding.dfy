/** The signature input of a payload: its hand-written byte layout, and a parser that inverts it. */
module PayloadEncoding {
  import opened Protocol
  import opened ByteFields

  /** The checkpoint's JSON text. Only its injectivity matters here. */
  type CheckpointJson = MatchCheckpoint -> Bytes

  // ---------------------------------------------------------------- names

  function Ascii(text: string): (bytes: Bytes)
    ensures |bytes| == |text|
  {
    seq(|text|, i requires 0 <= i < |text| => (text[i] as int) % 0x100)
  }

  function ZoneName(zone: HitZone): Bytes {
    match zone
    case Body => Ascii("body")
    case Head => Ascii("head")
  }

  function OutcomeName(outcome: ShotOutcome): Bytes {
    match outcome
    case Hit => Ascii("hit")
    case Miss => Ascii("miss")
    case Reject => Ascii("reject")
  }

  function ReasonName(reason: ShotRejectionReason): Bytes {
    match reason
    case UnknownShooter => Ascii("unknown_shooter")
    case RiderSnapshotMismatch => Ascii("rider_snapshot")
    case TickReplay => Ascii("tick_replay")
    case TickStale => Ascii("tick_stale")
    case TickFuture => Ascii("tick_future")
    case Weapon => Ascii("weapon")
    case SpreadSeed => Ascii("spread_seed")
    case Rate => Ascii("rate")
    case Empty => Ascii("empty")
    case Reloading => Ascii("reloading")
    case InvalidDirection => Ascii("invalid_direction")
    case OriginLeash => Ascii("origin_leash")
    case Holstered => Ascii("holstered")
    case Dismounted => Ascii("dismounted")
    case Airborne => Ascii("airborne")
    case Stumble => Ascii("stumble")
  }

  function ParseZone(name: Bytes): (zone: Option<HitZone>)
    ensures forall z :: zone == Some(z) <==> name == ZoneName(z)
  {
    assert ZoneName(Body)[0] != ZoneName(Head)[0];
    if name == ZoneName(Body) then Some(Body)
    else if name == ZoneName(Head) then Some(Head)
    else None
  }

  function ParseOutcome(name: Bytes): (outcome: Option<ShotOutcome>)
    ensures forall o :: outcome == Some(o) <==> name == OutcomeName(o)
  {
    if name == OutcomeName(Hit) then Some(Hit)
    else if name == OutcomeName(Miss) then Some(Miss)
    else if name == OutcomeName(Reject) then Some(Reject)
    else None
  }

  /** The only reason whose name could be these bytes, told by length and one letter. */
  function ReasonCandidate(name: Bytes): ShotRejectionReason {
    match |name|
    case 15 => UnknownShooter
    case 14 => RiderSnapshotMismatch
    case 11 =>
      if name[5] == 'r' as int then TickReplay else if name[5] == 'f' as int then TickFuture else SpreadSeed
    case 10 => if name[0] == 't' as int then TickStale else Dismounted
    case 6 => Weapon
    case 4 => Rate
    case 5 => Empty
    case 9 => if name[0] == 'r' as int then Reloading else Holstered
    case 17 => InvalidDirection
    case 12 => OriginLeash
    case 8 => Airborne
    case _ => Stumble
  }

  lemma CandidateOfName(reason: ShotRejectionReason)
    ensures ReasonCandidate(ReasonName(reason)) == reason
  {
    match reason
    case TickReplay => assert ReasonName(reason)[5] == 'r' as int;
    case TickFuture => assert ReasonName(reason)[5] == 'f' as int;
    case SpreadSeed => assert ReasonName(reason)[5] == 'd' as int;
    case TickStale => assert ReasonName(reason)[0] == 't' as int;
    case Dismounted => assert ReasonName(reason)[0] == 'd' as int;
    case Reloading => assert ReasonName(reason)[0] == 'r' as int;
    case Holstered => assert ReasonName(reason)[0] == 'h' as int;
    case _ =>
  }

  function ParseReason(name: Bytes): Option<ShotRejectionReason> {
    var candidate := ReasonCandidate(name);
    if name == ReasonName(candidate) then Some(candidate) else None
  }

  lemma ReasonNameRoundTrip(reason: ShotRejectionReason)
    ensures ParseReason(ReasonName(reason)) == Some(reason)
  {
    CandidateOfName(reason);
  }

  // ---------------------------------------------------------------- composite fields

  function Text(bytes: Bytes): Bytes {
    Uint32(if |bytes| <= UINT32_MAX then |bytes| else UINT32_MAX) + bytes
  }

  function TakeText(bytes: Bytes): Taken<Bytes> {
    var (length, rest) :- TakeUint32(bytes);
    TakeBytes(length, rest)
  }

  lemma TextRoundTrip(text: Bytes, tail: Bytes)
    requires |text| <= UINT32_MAX
    ensures TakeText(Text(text) + tail) == Taken(text, tail)
  {
    assert Text(text) + tail == Uint32(|text|) + (text + tail);
    Uint32RoundTrip(|text|, text + tail);
    TakeWhatWasPut(text, tail);
  }

  function Optional<T>(put: T -> Bytes, o: Option<T>): Bytes {
    match o
    case None => [0]
    case Some(value) => [1] + put(value)
  }

  function TakeOptional<T>(take: Bytes -> Taken<T>, bytes: Bytes): Taken<Option<T>> {
    var (present, rest) :- TakeBool(bytes);
    if !present then Taken(None, rest)
    else
      var (value, rest) :- take(rest);
      Taken(Some(value), rest)
  }

  lemma OptionalRoundTrip<T>(put: T -> Bytes, take: Bytes -> Taken<T>, o: Option<T>, tail: Bytes)
    requires o.Some? ==> take(put(o.value) + tail) == Taken(o.value, tail)
    ensures TakeOptional(take, Optional(put, o) + tail) == Taken(o, tail)
  {
    BoolRoundTrip(o.Some?, if o.Some? then put(o.value) + tail else tail);
    if o.Some? {
      assert Optional(put, o) + tail == Bool(true) + (put(o.value) + tail);
    }
  }

  function Triple(v: Vec3): Bytes {
    Int32(v.x) + (Int32(v.y) + Int32(v.z))
  }

  function TakeTriple(bytes: Bytes): Taken<Vec3> {
    var (x, bytes) :- TakeInt32(bytes);
    var (y, bytes) :- TakeInt32(bytes);
    var (z, bytes) :- TakeInt32(bytes);
    Taken(Vec3(x, y, z), bytes)
  }

  lemma TripleRoundTrip(v: Vec3, tail: Bytes)
    ensures TakeTriple(Triple(v) + tail) == Taken(v, tail)
  {
    assert Triple(v) + tail == Int32(v.x) + (Int32(v.y) + (Int32(v.z) + tail));
    Int32RoundTrip(v.x, Int32(v.y) + (Int32(v.z) + tail));
    Int32RoundTrip(v.y, Int32(v.z) + tail);
    Int32RoundTrip(v.z, tail);
  }

  function WeaponField(weapon: WeaponId): Bytes { Uint8(weapon.AsByte()) }

  function TakeWeapon(bytes: Bytes): Taken<WeaponId> {
    var (code, rest) :- TakeUint8(bytes);
    match WeaponId.FromByte(code)
    case None => Malformed
    case Some(weapon) => Taken(weapon, rest)
  }

  function Zone(zone: HitZone): Bytes { Text(ZoneName(zone)) }

  function TakeZone(bytes: Bytes): Taken<HitZone> {
    var (name, rest) :- TakeText(bytes);
    match ParseZone(name)
    case None => Malformed
    case Some(zone) => Taken(zone, rest)
  }

  function Reason(reason: ShotRejectionReason): Bytes { Text(ReasonName(reason)) }

  function TakeReason(bytes: Bytes): Taken<ShotRejectionReason> {
    var (name, rest) :- TakeText(bytes);
    match ParseReason(name)
    case None => Malformed
    case Some(reason) => Taken(reason, rest)
  }

  function TakeOutcome(bytes: Bytes): Taken<ShotOutcome> {
    var (name, rest) :- TakeText(bytes);
    match ParseOutcome(name)
    case None => Malformed
    case Some(outcome) => Taken(outcome, rest)
  }

  lemma ZoneRoundTrip(zone: HitZone, tail: Bytes)
    ensures TakeZone(Zone(zone) + tail) == Taken(zone, tail)
  {
    TextRoundTrip(ZoneName(zone), tail);
  }

  lemma ReasonRoundTrip(reason: ShotRejectionReason, tail: Bytes)
    ensures TakeReason(Reason(reason) + tail) == Taken(reason, tail)
  {
    TextRoundTrip(ReasonName(reason), tail);
    ReasonNameRoundTrip(reason);
  }

  lemma OutcomeRoundTrip(outcome: ShotOutcome, tail: Bytes)
    ensures TakeOutcome(Text(OutcomeName(outcome)) + tail) == Taken(outcome, tail)
  {
    TextRoundTrip(OutcomeName(outcome), tail);
  }

  lemma WeaponRoundTrip(weapon: WeaponId, tail: Bytes)
    ensures TakeWeapon(WeaponField(weapon) + tail) == Taken(weapon, tail)
  {
    Uint8RoundTrip(weapon.AsByte(), tail);
  }

  function Target(target: ClaimedTarget): Bytes {
    Uint64(target.targetId)
    + (Optional(Zone, target.hitZone) + (Optional(Uint16, target.damage) + Optional(Uint32, target.distanceMm)))
  }

  function TakeTarget(bytes: Bytes): Taken<ClaimedTarget> {
    var (targetId, bytes) :- TakeUint64(bytes);
    var (hitZone, bytes) :- TakeOptional(TakeZone, bytes);
    var (damage, bytes) :- TakeOptional(TakeUint16, bytes);
    var (distanceMm, bytes) :- TakeOptional(TakeUint32, bytes);
    Taken(ClaimedTarget(targetId, hitZone, damage, distanceMm), bytes)
  }

  lemma OptionalUint16RoundTrip(o: Option<uint16>, tail: Bytes)
    ensures TakeOptional(TakeUint16, Optional(Uint16, o) + tail) == Taken(o, tail)
  {
    if o.Some? { Uint16RoundTrip(o.value, tail); }
    OptionalRoundTrip(Uint16, TakeUint16, o, tail);
  }

  lemma OptionalUint32RoundTrip(o: Option<uint32>, tail: Bytes)
    ensures TakeOptional(TakeUint32, Optional(Uint32, o) + tail) == Taken(o, tail)
  {
    if o.Some? { Uint32RoundTrip(o.value, tail); }
    OptionalRoundTrip(Uint32, TakeUint32, o, tail);
  }

  lemma OptionalUint64RoundTrip(o: Option<uint64>, tail: Bytes)
    ensures TakeOptional(TakeUint64, Optional(Uint64, o) + tail) == Taken(o, tail)
  {
    if o.Some? { Uint64RoundTrip(o.value, tail); }
    OptionalRoundTrip(Uint64, TakeUint64, o, tail);
  }

  lemma OptionalZoneRoundTrip(zone: Option<HitZone>, tail: Bytes)
    ensures TakeOptional(TakeZone, Optional(Zone, zone) + tail) == Taken(zone, tail)
  {
    if zone.Some? { ZoneRoundTrip(zone.value, tail); }
    OptionalRoundTrip(Zone, TakeZone, zone, tail);
  }

  lemma OptionalReasonRoundTrip(reason: Option<ShotRejectionReason>, tail: Bytes)
    ensures TakeOptional(TakeReason, Optional(Reason, reason) + tail) == Taken(reason, tail)
  {
    if reason.Some? { ReasonRoundTrip(reason.value, tail); }
    OptionalRoundTrip(Reason, TakeReason, reason, tail);
  }

  lemma OptionalTripleRoundTrip(direction: Option<Vec3>, tail: Bytes)
    ensures TakeOptional(TakeTriple, Optional(Triple, direction) + tail) == Taken(direction, tail)
  {
    if direction.Some? { TripleRoundTrip(direction.value, tail); }
    OptionalRoundTrip(Triple, TakeTriple, direction, tail);
  }

  lemma TailAfterTwo(a: Bytes, b: Bytes, tail: Bytes)
    ensures (a + b) + tail == a + (b + tail)
  {
  }

  lemma TailAfterFour(a: Bytes, b: Bytes, c: Bytes, d: Bytes, tail: Bytes)
    ensures (a + (b + (c + d))) + tail == a + (b + (c + (d + tail)))
  {
  }

  lemma TargetRoundTrip(target: ClaimedTarget, tail: Bytes)
    ensures TakeTarget(Target(target) + tail) == Taken(target, tail)
  {
    var afterDamage := Optional(Uint32, target.distanceMm) + tail;
    var afterZone := Optional(Uint16, target.damage) + afterDamage;
    var afterId := Optional(Zone, target.hitZone) + afterZone;
    TailAfterFour(Uint64(target.targetId), Optional(Zone, target.hitZone), Optional(Uint16, target.damage),
                  Optional(Uint32, target.distanceMm), tail);
    Uint64RoundTrip(target.targetId, afterId);
    OptionalZoneRoundTrip(target.hitZone, afterZone);
    OptionalUint16RoundTrip(target.damage, afterDamage);
    OptionalUint32RoundTrip(target.distanceMm, tail);
  }

  lemma OptionalTargetRoundTrip(target: Option<ClaimedTarget>, tail: Bytes)
    ensures TakeOptional(TakeTarget, Optional(Target, target) + tail) == Taken(target, tail)
  {
    if target.Some? { TargetRoundTrip(target.value, tail); }
    OptionalRoundTrip(Target, TakeTarget, target, tail);
  }

  // ---------------------------------------------------------------- whole payloads

  function CommandFields(c: ShotCommand): Bytes {
    Uint64(c.tick) + (Uint128(c.shooter) + (WeaponField(c.weapon) + (Triple(c.origin)
    + (Triple(c.direction) + (Uint64(c.spreadSeed) + Optional(Target, c.claimedTarget))))))
  }

  function ParseCommand(bytes: Bytes): Taken<ShotCommand> {
    var (tick, bytes) :- TakeUint64(bytes);
    var (shooter, bytes) :- TakeUint128(bytes);
    var (weapon, bytes) :- TakeWeapon(bytes);
    var (origin, bytes) :- TakeTriple(bytes);
    var (direction, bytes) :- TakeTriple(bytes);
    var (spreadSeed, bytes) :- TakeUint64(bytes);
    var (claimedTarget, bytes) :- TakeOptional(TakeTarget, bytes);
    Taken(ShotCommand(tick, shooter, weapon, origin, direction, spreadSeed, claimedTarget), bytes)
  }

  lemma CommandRoundTrip(c: ShotCommand)
    ensures ParseCommand(CommandFields(c)) == Taken(c, [])
  {
    var afterSeed := Optional(Target, c.claimedTarget);
    var afterDirection := Uint64(c.spreadSeed) + afterSeed;
    var afterOrigin := Triple(c.direction) + afterDirection;
    var afterWeapon := Triple(c.origin) + afterOrigin;
    var afterShooter := WeaponField(c.weapon) + afterWeapon;
    Uint64RoundTrip(c.tick, Uint128(c.shooter) + afterShooter);
    Uint128RoundTrip(c.shooter, afterShooter);
    WeaponRoundTrip(c.weapon, afterWeapon);
    TripleRoundTrip(c.origin, afterOrigin);
    TripleRoundTrip(c.direction, afterDirection);
    Uint64RoundTrip(c.spreadSeed, afterSeed);
    OptionalTargetRoundTrip(c.claimedTarget, []);
    assert afterSeed == afterSeed + [];
  }

  // A result's layout in runs of fields: the shot, why it was refused, where it went, and what it hit.
  datatype Shot = Shot(tick: uint64, shooter: PlayerId, weapon: WeaponId, outcome: ShotOutcome)
  datatype Aim = Aim(direction: Option<Vec3>, targetId: Option<uint64>)
  datatype Impact = Impact(hitZone: Option<HitZone>, damage: uint16, distanceMm: Option<uint32>, eliminated: bool)

  function ShotFields(r: ShotResult): Bytes {
    Uint64(r.tick) + (Uint128(r.shooter) + (WeaponField(r.weapon) + Text(OutcomeName(r.outcome))))
  }

  function AimFields(r: ShotResult): Bytes {
    Optional(Triple, r.resolvedDirection) + Optional(Uint64, r.targetId)
  }

  function ImpactFields(r: ShotResult): Bytes {
    Optional(Zone, r.hitZone) + (Uint16(r.damage) + (Optional(Uint32, r.distanceMm) + Bool(r.eliminated)))
  }

  function ResultFields(r: ShotResult): Bytes {
    ShotFields(r) + (Optional(Reason, r.rejection) + (AimFields(r) + ImpactFields(r)))
  }

  function ParseShot(bytes: Bytes): Taken<Shot> {
    var (tick, bytes) :- TakeUint64(bytes);
    var (shooter, bytes) :- TakeUint128(bytes);
    var (weapon, bytes) :- TakeWeapon(bytes);
    var (outcome, bytes) :- TakeOutcome(bytes);
    Taken(Shot(tick, shooter, weapon, outcome), bytes)
  }

  function ParseAim(bytes: Bytes): Taken<Aim> {
    var (direction, bytes) :- TakeOptional(TakeTriple, bytes);
    var (targetId, bytes) :- TakeOptional(TakeUint64, bytes);
    Taken(Aim(direction, targetId), bytes)
  }

  function ParseImpact(bytes: Bytes): Taken<Impact> {
    var (hitZone, bytes) :- TakeOptional(TakeZone, bytes);
    var (damage, bytes) :- TakeUint16(bytes);
    var (distanceMm, bytes) :- TakeOptional(TakeUint32, bytes);
    var (eliminated, bytes) :- TakeBool(bytes);
    Taken(Impact(hitZone, damage, distanceMm, eliminated), bytes)
  }

  function ParseResult(bytes: Bytes): Taken<ShotResult> {
    var (shot, bytes) :- ParseShot(bytes);
    var (rejection, bytes) :- TakeOptional(TakeReason, bytes);
    var (aim, bytes) :- ParseAim(bytes);
    var (impact, bytes) :- ParseImpact(bytes);
    Taken(ShotResult(shot.tick, shot.shooter, shot.weapon, shot.outcome,
                     rejection, aim.direction, aim.targetId,
                     impact.hitZone, impact.damage, impact.distanceMm, impact.eliminated), bytes)
  }

  lemma ShotRoundTrip(r: ShotResult, tail: Bytes)
    ensures ParseShot(ShotFields(r) + tail) == Taken(Shot(r.tick, r.shooter, r.weapon, r.outcome), tail)
  {
    var afterWeapon := Text(OutcomeName(r.outcome)) + tail;
    var afterShooter := WeaponField(r.weapon) + afterWeapon;
    TailAfterFour(Uint64(r.tick), Uint128(r.shooter), WeaponField(r.weapon), Text(OutcomeName(r.outcome)), tail);
    Uint64RoundTrip(r.tick, Uint128(r.shooter) + afterShooter);
    Uint128RoundTrip(r.shooter, afterShooter);
    WeaponRoundTrip(r.weapon, afterWeapon);
    OutcomeRoundTrip(r.outcome, tail);
  }

  lemma AimRoundTrip(direction: Option<Vec3>, targetId: Option<uint64>, tail: Bytes)
    ensures ParseAim(Optional(Triple, direction) + (Optional(Uint64, targetId) + tail))
            == Taken(Aim(direction, targetId), tail)
  {
    OptionalTripleRoundTrip(direction, Optional(Uint64, targetId) + tail);
    OptionalUint64RoundTrip(targetId, tail);
  }

  lemma AimFieldsRoundTrip(r: ShotResult, tail: Bytes)
    ensures ParseAim(AimFields(r) + tail) == Taken(Aim(r.resolvedDirection, r.targetId), tail)
  {
    AimRoundTrip(r.resolvedDirection, r.targetId, tail);
    TailAfterTwo(Optional(Triple, r.resolvedDirection), Optional(Uint64, r.targetId), tail);
  }

  lemma ImpactRoundTrip(r: ShotResult)
    ensures ParseImpact(ImpactFields(r)) == Taken(Impact(r.hitZone, r.damage, r.distanceMm, r.eliminated), [])
  {
    var afterDistance := Bool(r.eliminated);
    var afterDamage := Optional(Uint32, r.distanceMm) + afterDistance;
    var afterZone := Uint16(r.damage) + afterDamage;
    OptionalZoneRoundTrip(r.hitZone, afterZone);
    Uint16RoundTrip(r.damage, afterDamage);
    OptionalUint32RoundTrip(r.distanceMm, afterDistance);
    BoolRoundTrip(r.eliminated, []);
    assert afterDistance == afterDistance + [];
  }

  lemma ResultRoundTrip(r: ShotResult)
    ensures ParseResult(ResultFields(r)) == Taken(r, [])
  {
    var afterReason := AimFields(r) + ImpactFields(r);
    ShotRoundTrip(r, Optional(Reason, r.rejection) + afterReason);
    OptionalReasonRoundTrip(r.rejection, afterReason);
    AimFieldsRoundTrip(r, ImpactFields(r));
    ImpactRoundTrip(r);
  }

  function SnapshotFields(p: PeerPayload): Bytes
    requires p.RiderSnapshot?
  {
    Uint128(p.rider) + (Triple(p.positionMm) + (Triple(p.velocityMmps)
    + (Int32(p.yawMillidegrees) + Uint8(p.stance.AsByte()))))
  }

  function ParseSnapshot(bytes: Bytes): Taken<PeerPayload> {
    var (rider, bytes) :- TakeUint128(bytes);
    var (position, bytes) :- TakeTriple(bytes);
    var (velocity, bytes) :- TakeTriple(bytes);
    var (yaw, bytes) :- TakeInt32(bytes);
    var (stance, bytes) :- TakeUint8(bytes);
    Taken(RiderSnapshot(rider, position, velocity, yaw, RiderStance.FromByte(stance)), bytes)
  }

  lemma SnapshotRoundTrip(p: PeerPayload)
    requires p.RiderSnapshot?
    ensures ParseSnapshot(SnapshotFields(p))
            == Taken(p.(stance := RiderStance.FromByte(p.stance.AsByte())), [])
  {
    var afterYaw := Uint8(p.stance.AsByte());
    var afterVelocity := Int32(p.yawMillidegrees) + afterYaw;
    var afterPosition := Triple(p.velocityMmps) + afterVelocity;
    Uint128RoundTrip(p.rider, Triple(p.positionMm) + afterPosition);
    TripleRoundTrip(p.positionMm, afterPosition);
    TripleRoundTrip(p.velocityMmps, afterVelocity);
    Int32RoundTrip(p.yawMillidegrees, afterYaw);
    Uint8RoundTrip(p.stance.AsByte(), []);
    assert afterYaw == afterYaw + [];
  }

  /** What the bytes of a payload pin down. A checkpoint appears as its JSON text. */
  datatype Content =
    | Plain(payload: PeerPayload)
    | Handoff(authority: PlayerId, epoch: uint64, sourceEpoch: uint64, tick: uint64, stateHash: Bytes32, json: Bytes)

  function ContentOf(p: PeerPayload, json: CheckpointJson): Content {
    match p
    case MigrationSnapshot(authority, epoch, c, stateHash) =>
      Handoff(authority, epoch, c.sourceEpoch, c.tick, stateHash, json(c))
    case RiderSnapshot(_, _, _, _, stance) => Plain(p.(stance := RiderStance.FromByte(stance.AsByte())))
    case _ => Plain(p)
  }

  function HandoffFields(p: PeerPayload, json: CheckpointJson): Bytes
    requires p.MigrationSnapshot?
  {
    Uint128(p.authority) + (Uint64(p.epoch) + (Uint64(p.checkpoint.sourceEpoch)
    + (Uint64(p.checkpoint.tick) + (p.stateHash + json(p.checkpoint)))))
  }

  function ParseHandoff(bytes: Bytes): Taken<Content> {
    var (authority, bytes) :- TakeUint128(bytes);
    var (epoch, bytes) :- TakeUint64(bytes);
    var (sourceEpoch, bytes) :- TakeUint64(bytes);
    var (tick, bytes) :- TakeUint64(bytes);
    var (stateHash, bytes) :- TakeBytes(32, bytes);
    Taken(Handoff(authority, epoch, sourceEpoch, tick, stateHash, bytes), [])
  }

  lemma HandoffRoundTrip(p: PeerPayload, json: CheckpointJson)
    requires p.MigrationSnapshot?
    ensures ParseHandoff(HandoffFields(p, json)) == Taken(ContentOf(p, json), [])
  {
    var c := p.checkpoint;
    var afterTick := p.stateHash + json(c);
    var afterSource := Uint64(c.tick) + afterTick;
    var afterEpoch := Uint64(c.sourceEpoch) + afterSource;
    Uint128RoundTrip(p.authority, Uint64(p.epoch) + afterEpoch);
    Uint64RoundTrip(p.epoch, afterEpoch);
    Uint64RoundTrip(c.sourceEpoch, afterSource);
    Uint64RoundTrip(c.tick, afterTick);
    TakeWhatWasPut(p.stateHash, json(c));
  }

  function ProbeFields(nonce: uint64, reply: bool): Bytes {
    Uint64(nonce) + Bool(reply)
  }

  function ParseProbe(bytes: Bytes): Taken<PeerPayload> {
    var (nonce, bytes) :- TakeUint64(bytes);
    var (reply, bytes) :- TakeBool(bytes);
    Taken(Probe(nonce, reply), bytes)
  }

  function InputFields(throttle: int16, steer: int16, buttons: uint16): Bytes {
    Int16(throttle) + (Int16(steer) + Uint16(buttons))
  }

  function ParseInput(bytes: Bytes): Taken<PeerPayload> {
    var (throttle, bytes) :- TakeInt16(bytes);
    var (steer, bytes) :- TakeInt16(bytes);
    var (buttons, bytes) :- TakeUint16(bytes);
    Taken(RiderInput(throttle, steer, buttons), bytes)
  }

  function AuthorityFields(authority: PlayerId, epoch: uint64): Bytes {
    Uint128(authority) + Uint64(epoch)
  }

  function ParseAuthority(bytes: Bytes): Taken<PeerPayload> {
    var (authority, bytes) :- TakeUint128(bytes);
    var (epoch, bytes) :- TakeUint64(bytes);
    Taken(Authority(authority, epoch), bytes)
  }

  function Tag(p: PeerPayload): uint8 {
    match p
    case Hello(_) => 0
    case Heartbeat => 1
    case Probe(_, _) => 2
    case RiderInput(_, _, _) => 3
    case RiderSnapshot(_, _, _, _, _) => 4
    case Command(_) => 5
    case Result(_) => 6
    case Authority(_, _) => 7
    case MigrationSnapshot(_, _, _, _) => 8
    case Leave => 9
  }

  function Fields(p: PeerPayload, json: CheckpointJson): Bytes {
    match p
    case Hello(hostname) => Text(hostname)
    case Heartbeat => []
    case Probe(nonce, reply) => ProbeFields(nonce, reply)
    case RiderInput(throttle, steer, buttons) => InputFields(throttle, steer, buttons)
    case RiderSnapshot(_, _, _, _, _) => SnapshotFields(p)
    case Command(command) => CommandFields(command)
    case Result(result) => ResultFields(result)
    case Authority(authority, epoch) => AuthorityFields(authority, epoch)
    case MigrationSnapshot(_, _, _, _) => HandoffFields(p, json)
    case Leave => []
  }

  function Encoded(p: PeerPayload, json: CheckpointJson): Bytes {
    [Tag(p)] + Fields(p, json)
  }

  function AsPlain(taken: Taken<PeerPayload>): Taken<Content> {
    var (payload, rest) :- taken;
    Taken(Plain(payload), rest)
  }

  function AsCommand(taken: Taken<ShotCommand>): Taken<Content> {
    var (command, rest) :- taken;
    Taken(Plain(Command(command)), rest)
  }

  function AsResult(taken: Taken<ShotResult>): Taken<Content> {
    var (result, rest) :- taken;
    Taken(Plain(Result(result)), rest)
  }

  /** The length saturates, but nothing follows the host name, so the rest of the input is the name. */
  function ReadHello(bytes: Bytes): Taken<Content> {
    var (_, hostname) :- TakeUint32(bytes);
    Taken(Plain(Hello(hostname)), [])
  }

  function ReadHeartbeat(bytes: Bytes): Taken<Content> { Taken(Plain(Heartbeat), bytes) }

  function ReadProbe(bytes: Bytes): Taken<Content> { AsPlain(ParseProbe(bytes)) }

  function ReadInput(bytes: Bytes): Taken<Content> { AsPlain(ParseInput(bytes)) }

  function ReadSnapshot(bytes: Bytes): Taken<Content> { AsPlain(ParseSnapshot(bytes)) }

  function ReadCommand(bytes: Bytes): Taken<Content> { AsCommand(ParseCommand(bytes)) }

  function ReadResult(bytes: Bytes): Taken<Content> { AsResult(ParseResult(bytes)) }

  function ReadAuthority(bytes: Bytes): Taken<Content> { AsPlain(ParseAuthority(bytes)) }

  function ReadLeave(bytes: Bytes): Taken<Content> { Taken(Plain(Leave), bytes) }

  /** The readers of the ten layouts, by tag. */
  const LAYOUTS: seq<Bytes -> Taken<Content>> :=
    [ReadHello, ReadHeartbeat, ReadProbe, ReadInput, ReadSnapshot, ReadCommand, ReadResult, ReadAuthority,
     ParseHandoff, ReadLeave]

  function ParseFields(tag: uint8, bytes: Bytes): Taken<Content> {
    if tag < |LAYOUTS| then LAYOUTS[tag](bytes) else Malformed
  }

  function Parse(bytes: Bytes): Taken<Content> {
    var (tag, bytes) :- TakeUint8(bytes);
    ParseFields(tag, bytes)
  }

  /** One parser inverts all ten layouts, consuming every byte. */
  lemma ParseInvertsEncoding(p: PeerPayload, json: CheckpointJson)
    ensures Parse(Encoded(p, json)) == Taken(ContentOf(p, json), [])
  {
    Uint8RoundTrip(Tag(p), Fields(p, json));
    FieldsRoundTrip(p, json);
  }

  lemma HelloRoundTrip(hostname: Bytes)
    ensures ParseFields(0, Text(hostname)) == Taken(Plain(Hello(hostname)), [])
  {
    Uint32RoundTrip(if |hostname| <= UINT32_MAX then |hostname| else UINT32_MAX, hostname);
  }

  lemma ProbeRoundTrip(nonce: uint64, reply: bool)
    ensures ParseFields(2, ProbeFields(nonce, reply)) == Taken(Plain(Probe(nonce, reply)), [])
  {
    Uint64RoundTrip(nonce, Bool(reply));
    BoolRoundTrip(reply, []);
    assert Bool(reply) == Bool(reply) + [];
  }

  lemma InputRoundTrip(throttle: int16, steer: int16, buttons: uint16)
    ensures ParseFields(3, InputFields(throttle, steer, buttons))
            == Taken(Plain(RiderInput(throttle, steer, buttons)), [])
  {
    Int16RoundTrip(throttle, Int16(steer) + Uint16(buttons));
    Int16RoundTrip(steer, Uint16(buttons));
    Uint16RoundTrip(buttons, []);
    assert Uint16(buttons) == Uint16(buttons) + [];
  }

  lemma AuthorityRoundTrip(authority: PlayerId, epoch: uint64)
    ensures ParseFields(7, AuthorityFields(authority, epoch)) == Taken(Plain(Authority(authority, epoch)), [])
  {
    Uint128RoundTrip(authority, Uint64(epoch));
    Uint64RoundTrip(epoch, []);
    assert Uint64(epoch) == Uint64(epoch) + [];
  }

  lemma SnapshotReader(bytes: Bytes)
    ensures ParseFields(4, bytes) == AsPlain(ParseSnapshot(bytes))
  {
  }

  lemma HandoffReader(bytes: Bytes)
    ensures ParseFields(8, bytes) == ParseHandoff(bytes)
  {
  }

  lemma CommandReader(bytes: Bytes)
    ensures ParseFields(5, bytes) == AsCommand(ParseCommand(bytes))
  {
  }

  lemma ResultReader(bytes: Bytes)
    ensures ParseFields(6, bytes) == AsResult(ParseResult(bytes))
  {
  }

  lemma RiderRoundTrip(p: PeerPayload, json: CheckpointJson)
    requires p.RiderSnapshot?
    ensures ParseFields(4, SnapshotFields(p)) == Taken(ContentOf(p, json), [])
  {
    SnapshotRoundTrip(p);
    SnapshotReader(SnapshotFields(p));
  }

  lemma MigrationRoundTrip(p: PeerPayload, json: CheckpointJson)
    requires p.MigrationSnapshot?
    ensures ParseFields(8, HandoffFields(p, json)) == Taken(ContentOf(p, json), [])
  {
    HandoffRoundTrip(p, json);
    HandoffReader(HandoffFields(p, json));
  }

  lemma ShotCommandRoundTrip(command: ShotCommand)
    ensures ParseFields(5, CommandFields(command)) == Taken(Plain(Command(command)), [])
  {
    CommandRoundTrip(command);
    CommandReader(CommandFields(command));
  }

  lemma ShotResultRoundTrip(result: ShotResult)
    ensures ParseFields(6, ResultFields(result)) == Taken(Plain(Result(result)), [])
  {
    ResultRoundTrip(result);
    ResultReader(ResultFields(result));
  }

  lemma FieldsRoundTrip(p: PeerPayload, json: CheckpointJson)
    ensures ParseFields(Tag(p), Fields(p, json)) == Taken(ContentOf(p, json), [])
  {
    match p {
      case Hello(hostname) => HelloRoundTrip(hostname);
      case Probe(nonce, reply) => ProbeRoundTrip(nonce, reply);
      case RiderInput(throttle, steer, buttons) => InputRoundTrip(throttle, steer, buttons);
      case RiderSnapshot(_, _, _, _, _) => RiderRoundTrip(p, json);
      case Command(command) => ShotCommandRoundTrip(command);
      case Result(result) => ShotResultRoundTrip(result);
      case Authority(authority, epoch) => AuthorityRoundTrip(authority, epoch);
      case MigrationSnapshot(_, _, _, _) => MigrationRoundTrip(p, json);
      case _ =>
    }
  }

  // ---------------------------------------------------------------- the signature input is unambiguous

  ghost predicate Injective(json: CheckpointJson) {
    forall c: MatchCheckpoint, d: MatchCheckpoint :: json(c) == json(d) ==> c == d
  }

  /** The payload with its stance in canonical form, the only thing the bytes do not pin down. */
  function Canonical(p: PeerPayload): PeerPayload {
    if p.RiderSnapshot? then p.(stance := RiderStance.FromByte(p.stance.AsByte())) else p
  }

  /** A stance is its own canonical form exactly when the protocol calls it canonical. */
  lemma CanonicalStances(stance: RiderStance)
    ensures RiderStance.FromByte(stance.AsByte()) == stance <==> stance.IsCanonical()
    ensures RiderStance.FromByte(stance.AsByte()).AsByte() == stance.AsByte()
  {
  }

  lemma ContentPinsDownThePayload(p: PeerPayload, q: PeerPayload, json: CheckpointJson)
    requires Injective(json)
    ensures ContentOf(p, json) == ContentOf(q, json) <==> Canonical(p) == Canonical(q)
  {
  }

  lemma CanonicalFormEncodesAlike(p: PeerPayload, json: CheckpointJson)
    ensures Encoded(Canonical(p), json) == Encoded(p, json)
  {
    if p.RiderSnapshot? { CanonicalStances(p.stance); }
  }

  /** Equal bytes mean equal payloads up to the stance's spelling, whatever the payloads' sizes. */
  lemma EncodingIsUnambiguous(p: PeerPayload, q: PeerPayload, json: CheckpointJson)
    requires Injective(json)
    ensures Encoded(p, json) == Encoded(q, json) <==> Canonical(p) == Canonical(q)
  {
    if Encoded(p, json) == Encoded(q, json) {
      ParseInvertsEncoding(p, json);
      ParseInvertsEncoding(q, json);
      ContentPinsDownThePayload(p, q, json);
    }
    CanonicalFormEncodesAlike(p, json);
    CanonicalFormEncodesAlike(q, json);
  }

  // ---------------------------------------------------------------- the appending writer

  /** Writes the payload field by field into one growing buffer. */
  method CanonicalPayloadBytes(p: PeerPayload, json: CheckpointJson) returns (out: Bytes)
    ensures out == Encoded(p, json)
  {
    match p {
      case Hello(hostname) => out := PushText([0], hostname);
      case Heartbeat => out := [1];
      case Probe(nonce, reply) =>
        out := [2] + Uint64(nonce);
        out := out + Bool(reply);
        assert out == [2] + ProbeFields(nonce, reply);
      case RiderInput(throttle, steer, buttons) =>
        out := [3] + Int16(throttle);
        out := out + Int16(steer);
        out := out + Uint16(buttons);
        assert out == [3] + InputFields(throttle, steer, buttons);
      case RiderSnapshot(_, _, _, _, _) => out := PushSnapshot([4], p);
      case Command(command) => out := PushCommand([5], command);
      case Result(result) => out := PushResult([6], result);
      case Authority(authority, epoch) =>
        out := [7] + Uint128(authority);
        out := out + Uint64(epoch);
        assert out == [7] + AuthorityFields(authority, epoch);
      case MigrationSnapshot(_, _, _, _) => out := PushHandoff([8], p, json);
      case Leave => out := [9];
    }
  }

  method PushText(out: Bytes, text: Bytes) returns (grown: Bytes)
    ensures grown == out + Text(text)
  {
    grown := out + Uint32(if |text| <= UINT32_MAX then |text| else UINT32_MAX);
    grown := grown + text;
  }

  method PushSnapshot(out: Bytes, p: PeerPayload) returns (grown: Bytes)
    requires p.RiderSnapshot?
    ensures grown == out + SnapshotFields(p)
  {
    grown := out + Uint128(p.rider);
    grown := grown + Triple(p.positionMm);
    grown := grown + Triple(p.velocityMmps);
    grown := grown + Int32(p.yawMillidegrees);
    grown := grown + Uint8(p.stance.AsByte());
  }

  method PushCommand(out: Bytes, c: ShotCommand) returns (grown: Bytes)
    ensures grown == out + CommandFields(c)
  {
    grown := out + Uint64(c.tick);
    grown := grown + Uint128(c.shooter);
    grown := grown + WeaponField(c.weapon);
    grown := grown + Triple(c.origin);
    grown := grown + Triple(c.direction);
    grown := grown + Uint64(c.spreadSeed);
    grown := grown + Optional(Target, c.claimedTarget);
  }

  lemma Regrouped(a: Bytes, b: Bytes, c: Bytes, d: Bytes, e: Bytes)
    ensures (((a + b) + c) + d) + e == a + (b + (c + (d + e)))
  {
  }

  method PushResult(out: Bytes, r: ShotResult) returns (grown: Bytes)
    ensures grown == out + ResultFields(r)
  {
    grown := PushShot(out, r);
    grown := grown + Optional(Reason, r.rejection);
    grown := PushAim(grown, r);
    grown := PushImpact(grown, r);
    Regrouped(out, ShotFields(r), Optional(Reason, r.rejection), AimFields(r), ImpactFields(r));
  }

  method PushShot(out: Bytes, r: ShotResult) returns (grown: Bytes)
    ensures grown == out + ShotFields(r)
  {
    grown := out + Uint64(r.tick);
    grown := grown + Uint128(r.shooter);
    grown := grown + WeaponField(r.weapon);
    grown := PushText(grown, OutcomeName(r.outcome));
  }

  method PushAim(out: Bytes, r: ShotResult) returns (grown: Bytes)
    ensures grown == out + AimFields(r)
  {
    grown := out + Optional(Triple, r.resolvedDirection);
    grown := grown + Optional(Uint64, r.targetId);
  }

  method PushImpact(out: Bytes, r: ShotResult) returns (grown: Bytes)
    ensures grown == out + ImpactFields(r)
  {
    grown := out + Optional(Zone, r.hitZone);
    grown := grown + Uint16(r.damage);
    grown := grown + Optional(Uint32, r.distanceMm);
    grown := grown + Bool(r.eliminated);
  }

  method PushHandoff(out: Bytes, p: PeerPayload, json: CheckpointJson) returns (grown: Bytes)
    requires p.MigrationSnapshot?
    ensures grown == out + HandoffFields(p, json)
  {
    grown := out + Uint128(p.authority);
    grown := grown + Uint64(p.epoch);
    grown := grown + Uint64(p.checkpoint.sourceEpoch);
    grown := grown + Uint64(p.checkpoint.tick);
    grown := grown + p.stateHash;
    grown := grown + json(p.checkpoint);
  }
}
