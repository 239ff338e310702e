/** The bytes under a signature, laid out field by field: which numbers stand where, and how wide they are. */
module WireLayout {
  import opened Protocol
  import opened ByteFields
  import opened PayloadEncoding
  import opened SecureSessionModel

  // ---------------------------------------------------------------- one field

  function Power(k: nat): (n: nat)
    ensures n > 0
  {
    if k == 0 then 1 else 256 * Power(k - 1)
  }

  /** The byte that counts in units of 256 to the power `k`; two's complement for negative numbers. */
  function ByteOf(value: int, k: nat): uint8 {
    value / Power(k) % 256
  }

  /** A number in so many bytes, the most significant first. */
  function Word(width: nat, value: int): (bytes: Bytes)
    ensures |bytes| == width
  {
    seq(width, i requires 0 <= i < width => ByteOf(value, width - 1 - i))
  }

  lemma AtLeastOnce(divisor: nat, times: int)
    requires times > 0
    ensures divisor * times >= divisor
  {
  }

  lemma Distributes(divisor: nat, a: int, b: int)
    ensures divisor * (a - b) == divisor * a - divisor * b
  {
  }

  lemma QuotientIsUnique(value: int, divisor: nat, quotient: int, remainder: nat)
    requires remainder < divisor && value == divisor * quotient + remainder
    ensures value / divisor == quotient
  {
    var q := value / divisor;
    assert value == divisor * q + value % divisor;
    Distributes(divisor, quotient, q);
    Distributes(divisor, q, quotient);
    if q < quotient {
      AtLeastOnce(divisor, quotient - q);
    } else if q > quotient {
      AtLeastOnce(divisor, q - quotient);
    }
  }

  lemma DividedTwice(value: int, divisor: nat)
    requires divisor > 0
    ensures value / 256 / divisor == value / (256 * divisor)
  {
    var a, b := value / 256, value % 256;
    var q, r := a / divisor, a % divisor;
    assert a == divisor * q + r;
    assert value == 256 * divisor * q + (256 * r + b);
    QuotientIsUnique(value, 256 * divisor, q, 256 * r + b);
  }

  lemma NextByte(value: int, k: nat)
    ensures ByteOf(value, k + 1) == ByteOf(value / 256, k)
  {
    DividedTwice(value, Power(k));
  }

  lemma WordGrows(width: nat, value: int)
    ensures Word(width + 1, value) == Word(width, value / 256) + [value % 256]
  {
    var long, short := Word(width + 1, value), Word(width, value / 256) + [value % 256];
    forall i | 0 <= i < width ensures long[i] == short[i] {
      NextByte(value, width - 1 - i);
    }
    assert ByteOf(value, 0) == value % 256;
  }

  lemma {:induction false} BigEndianIsAWord(width: nat, value: nat)
    ensures BigEndian(width, value) == Word(width, value)
  {
    if width > 0 {
      BigEndianIsAWord(width - 1, value / 256);
      WordGrows(width - 1, value);
    }
  }

  lemma {:induction false} WordWrapsAround(width: nat, value: int)
    ensures Word(width, value + Power(width)) == Word(width, value)
  {
    if width > 0 {
      var half := Power(width - 1);
      assert (value + 256 * half) / 256 == value / 256 + half && (value + 256 * half) % 256 == value % 256;
      WordWrapsAround(width - 1, value / 256);
      WordGrows(width - 1, value);
      WordGrows(width - 1, value + 256 * half);
    }
  }

  /** Every fixed-width field is a word. */
  lemma FieldsAreWords()
    ensures forall x: uint8 :: Uint8(x) == Word(1, x)
    ensures forall x: uint16 :: Uint16(x) == Word(2, x)
    ensures forall x: uint32 :: Uint32(x) == Word(4, x)
    ensures forall x: uint64 :: Uint64(x) == Word(8, x)
    ensures forall x: uint128 :: Uint128(x) == Word(16, x)
  {
    forall x: uint8 ensures Uint8(x) == Word(1, x) {
      assert ByteOf(x, 0) == x;
    }
    forall x: uint16 ensures Uint16(x) == Word(2, x) { BigEndianIsAWord(2, x); }
    forall x: uint32 ensures Uint32(x) == Word(4, x) { BigEndianIsAWord(4, x); }
    forall x: uint64 ensures Uint64(x) == Word(8, x) { BigEndianIsAWord(8, x); }
    forall x: uint128 ensures Uint128(x) == Word(16, x) { BigEndianIsAWord(16, x); }
  }

  lemma SignedFieldsAreWords()
    ensures forall x: int16 :: Int16(x) == Word(2, x)
    ensures forall x: int32 :: Int32(x) == Word(4, x)
  {
    assert Power(2) == 0x1_0000 && Power(3) == 0x100_0000 && Power(4) == 0x1_0000_0000;
    forall x: int16 ensures Int16(x) == Word(2, x) {
      BigEndianIsAWord(2, if x < 0 then x + 0x1_0000 else x);
      WordWrapsAround(2, x);
    }
    forall x: int32 ensures Int32(x) == Word(4, x) {
      BigEndianIsAWord(4, if x < 0 then x + 0x1_0000_0000 else x);
      WordWrapsAround(4, x);
    }
  }

  // ---------------------------------------------------------------- composite fields

  function Flag(x: bool): Bytes { if x then [1] else [0] }

  function Vector(v: Vec3): Bytes {
    Word(4, v.x) + (Word(4, v.y) + Word(4, v.z))
  }

  /** Text after its length. */
  function Named(text: string): Bytes {
    Word(4, |text|) + seq(|text|, i requires 0 <= i < |text| => text[i] as int % 256)
  }

  function Maybe<T>(lay: T -> Bytes, o: Option<T>): Bytes {
    if o == None then [0] else [1] + lay(o.value)
  }

  function WeaponNumber(weapon: WeaponId): uint8 {
    if weapon == Dustwalker then 0 else if weapon == Longspur then 1 else 2
  }

  function StanceNumber(stance: RiderStance): uint8 {
    match stance
    case Unknown(code) => code
    case Mounted => 1
    case MountedAirborne => 2
    case SaddleDiveAirborne => 3
    case LandingProne => 4
    case LandingRecovery => 5
    case OnFootStanding => 6
  }

  function ZoneWord(zone: HitZone): Bytes { if zone == Head then Named("head") else Named("body") }

  function OutcomeWord(outcome: ShotOutcome): Bytes {
    if outcome == Hit then Named("hit") else if outcome == Miss then Named("miss") else Named("reject")
  }

  function ReasonWord(reason: ShotRejectionReason): Bytes {
    match reason
    case UnknownShooter => Named("unknown_shooter")
    case RiderSnapshotMismatch => Named("rider_snapshot")
    case TickReplay => Named("tick_replay")
    case TickStale => Named("tick_stale")
    case TickFuture => Named("tick_future")
    case Weapon => Named("weapon")
    case SpreadSeed => Named("spread_seed")
    case Rate => Named("rate")
    case Empty => Named("empty")
    case Reloading => Named("reloading")
    case InvalidDirection => Named("invalid_direction")
    case OriginLeash => Named("origin_leash")
    case Holstered => Named("holstered")
    case Dismounted => Named("dismounted")
    case Airborne => Named("airborne")
    case Stumble => Named("stumble")
  }

  function TargetRow(t: ClaimedTarget): Bytes {
    Word(8, t.targetId)
    + (Maybe(ZoneWord, t.hitZone)
       + (Maybe((n: uint16) => Word(2, n), t.damage) + Maybe((n: uint32) => Word(4, n), t.distanceMm)))
  }

  lemma TextIsNamed(text: string)
    requires |text| <= UINT32_MAX
    ensures Text(Ascii(text)) == Named(text)
  {
    FieldsAreWords();
  }

  lemma ZoneIsNamed(zone: HitZone)
    ensures Zone(zone) == ZoneWord(zone)
  {
    TextIsNamed("head");
    TextIsNamed("body");
  }

  lemma OutcomeIsNamed(outcome: ShotOutcome)
    ensures Text(OutcomeName(outcome)) == OutcomeWord(outcome)
  {
    TextIsNamed("hit");
    TextIsNamed("miss");
    TextIsNamed("reject");
  }

  lemma ReasonIsNamed(reason: ShotRejectionReason)
    ensures Reason(reason) == ReasonWord(reason)
  {
    match reason
    case UnknownShooter => TextIsNamed("unknown_shooter");
    case RiderSnapshotMismatch => TextIsNamed("rider_snapshot");
    case TickReplay => TextIsNamed("tick_replay");
    case TickStale => TextIsNamed("tick_stale");
    case TickFuture => TextIsNamed("tick_future");
    case Weapon => TextIsNamed("weapon");
    case SpreadSeed => TextIsNamed("spread_seed");
    case Rate => TextIsNamed("rate");
    case Empty => TextIsNamed("empty");
    case Reloading => TextIsNamed("reloading");
    case InvalidDirection => TextIsNamed("invalid_direction");
    case OriginLeash => TextIsNamed("origin_leash");
    case Holstered => TextIsNamed("holstered");
    case Dismounted => TextIsNamed("dismounted");
    case Airborne => TextIsNamed("airborne");
    case Stumble => TextIsNamed("stumble");
  }

  lemma VectorIsTriple(v: Vec3)
    ensures Triple(v) == Vector(v)
  {
    SignedFieldsAreWords();
  }

  lemma TargetIsRow(t: ClaimedTarget)
    ensures Target(t) == TargetRow(t)
  {
    FieldsAreWords();
    if t.hitZone.Some? { ZoneIsNamed(t.hitZone.value); }
  }

  // ---------------------------------------------------------------- payloads

  function CommandRow(c: ShotCommand): Bytes {
    Word(8, c.tick) + (Word(16, c.shooter) + ([WeaponNumber(c.weapon)] + (Vector(c.origin)
    + (Vector(c.direction) + (Word(8, c.spreadSeed) + Maybe(TargetRow, c.claimedTarget))))))
  }

  function ShotRow(r: ShotResult): Bytes {
    Word(8, r.tick) + (Word(16, r.shooter) + ([WeaponNumber(r.weapon)] + OutcomeWord(r.outcome)))
  }

  function AimRow(r: ShotResult): Bytes {
    Maybe(Vector, r.resolvedDirection) + Maybe((n: uint64) => Word(8, n), r.targetId)
  }

  function ImpactRow(r: ShotResult): Bytes {
    Maybe(ZoneWord, r.hitZone)
    + (Word(2, r.damage) + (Maybe((n: uint32) => Word(4, n), r.distanceMm) + Flag(r.eliminated)))
  }

  function ResultRow(r: ShotResult): Bytes {
    ShotRow(r) + (Maybe(ReasonWord, r.rejection) + (AimRow(r) + ImpactRow(r)))
  }

  /** Each payload's bytes: its number, and its fields in order. */
  function Row(p: PeerPayload, json: CheckpointJson): Bytes {
    match p
    case Hello(hostname) => [0] + (Word(4, if |hostname| < 0x1_0000_0000 then |hostname| else 0xFFFF_FFFF) + hostname)
    case Heartbeat => [1]
    case Probe(nonce, reply) => [2] + (Word(8, nonce) + Flag(reply))
    case RiderInput(throttle, steer, buttons) => [3] + (Word(2, throttle) + (Word(2, steer) + Word(2, buttons)))
    case RiderSnapshot(rider, position, velocity, yaw, stance) =>
      [4] + (Word(16, rider) + (Vector(position) + (Vector(velocity) + (Word(4, yaw) + [StanceNumber(stance)]))))
    case Command(command) => [5] + CommandRow(command)
    case Result(result) => [6] + ResultRow(result)
    case Authority(authority, epoch) => [7] + (Word(16, authority) + Word(8, epoch))
    case MigrationSnapshot(authority, epoch, c, stateHash) =>
      [8] + (Word(16, authority) + (Word(8, epoch) + (Word(8, c.sourceEpoch)
      + (Word(8, c.tick) + (stateHash + json(c))))))
    case Leave => [9]
  }

  lemma CommandIsRow(c: ShotCommand)
    ensures CommandFields(c) == CommandRow(c)
  {
    FieldsAreWords();
    VectorIsTriple(c.origin);
    VectorIsTriple(c.direction);
    if c.claimedTarget.Some? { TargetIsRow(c.claimedTarget.value); }
  }

  lemma ShotIsRow(r: ShotResult)
    ensures ShotFields(r) == ShotRow(r)
  {
    FieldsAreWords();
    OutcomeIsNamed(r.outcome);
  }

  lemma AimIsRow(r: ShotResult)
    ensures AimFields(r) == AimRow(r)
  {
    FieldsAreWords();
    if r.resolvedDirection.Some? { VectorIsTriple(r.resolvedDirection.value); }
  }

  lemma ImpactIsRow(r: ShotResult)
    ensures ImpactFields(r) == ImpactRow(r)
  {
    FieldsAreWords();
    if r.hitZone.Some? { ZoneIsNamed(r.hitZone.value); }
  }

  lemma RejectionIsRow(rejection: Option<ShotRejectionReason>)
    ensures Optional(Reason, rejection) == Maybe(ReasonWord, rejection)
  {
    if rejection.Some? { ReasonIsNamed(rejection.value); }
  }

  lemma ResultIsRow(r: ShotResult)
    ensures ResultFields(r) == ResultRow(r)
  {
    ShotIsRow(r);
    RejectionIsRow(r.rejection);
    AimIsRow(r);
    ImpactIsRow(r);
  }

  lemma SnapshotIsRow(p: PeerPayload)
    requires p.RiderSnapshot?
    ensures SnapshotFields(p)
            == Word(16, p.rider) + (Vector(p.positionMm) + (Vector(p.velocityMmps)
               + (Word(4, p.yawMillidegrees) + [StanceNumber(p.stance)])))
  {
    FieldsAreWords();
    SignedFieldsAreWords();
    VectorIsTriple(p.positionMm);
    VectorIsTriple(p.velocityMmps);
  }

  /** The signed bytes of every payload are its row. */
  lemma PayloadIsLaidOut(p: PeerPayload, json: CheckpointJson)
    ensures Encoded(p, json) == Row(p, json)
  {
    FieldsAreWords();
    match p {
      case RiderInput(_, _, _) => SignedFieldsAreWords();
      case RiderSnapshot(_, _, _, _, _) => SnapshotIsRow(p);
      case Command(command) => CommandIsRow(command);
      case Result(result) => ResultIsRow(result);
      case _ =>
    }
  }

  /** What a signature covers: the domain, the session, the message and the payload after its length. */
  lemma PreimageIsLaidOut(h: Header, payload: Bytes)
    ensures Preimage(h, payload)
            == seq(16, i requires 0 <= i < 16 => "SPURFIRE-ENV\0v1\0"[i] as int % 256)
               + ((Word(2, h.version.major) + (Word(2, h.version.minor) + (Word(16, h.lobby)
               + (Word(8, h.networkGeneration) + (Word(8, h.sessionGeneration) + h.rosterHash)))))
               + ((Word(16, h.sender) + (Word(8, h.authorityEpoch) + (Word(8, h.sequence) + Word(8, h.tick))))
               + (Word(4, if |payload| < 0x1_0000_0000 then |payload| else 0xFFFF_FFFF) + payload)))
  {
    FieldsAreWords();
    assert |"SPURFIRE-ENV\0v1\0"| == 16;
  }
}
