/** Wire-level values shared by the peer session and by its signature encoding. */
module Protocol {

  // The source's fixed-width integers.
  type uint8 = x: int | 0 <= x < 0x100
  type uint16 = x: int | 0 <= x < 0x1_0000
  type uint32 = x: int | 0 <= x < 0x1_0000_0000
  type uint64 = x: int | 0 <= x < 0x1_0000_0000_0000_0000
  type uint128 = x: int | 0 <= x < 0x1_0000_0000_0000_0000_0000_0000_0000_0000
  type int16 = x: int | -0x8000 <= x < 0x8000
  type int32 = x: int | -0x8000_0000 <= x < 0x8000_0000

  const UINT32_MAX: uint32 := 0xFFFF_FFFF
  const UINT64_MAX: uint64 := 0xFFFF_FFFF_FFFF_FFFF

  const HEARTBEAT_TIMEOUT_MS: uint64 := 2_000
  const MAX_CHECKPOINT_RIDERS: nat := 16
  const MAX_CHECKPOINT_RIDER_HEALTH: uint16 := 100

  datatype Option<+T> = None | Some(value: T)

  /** A UUID as its big-endian value: the source orders identifiers by their bytes. */
  type PlayerId = uint128
  type LobbyId = uint128

  type Bytes = seq<uint8>

  /** SHA-256 digests and public keys. */
  type Bytes32 = s: Bytes | |s| == 32 witness seq(32, i => 0)

  datatype Vec3 = Vec3(x: int32, y: int32, z: int32)

  datatype RiderStance =
    | Unknown(code: uint8)
    | Mounted
    | MountedAirborne
    | SaddleDiveAirborne
    | LandingProne
    | LandingRecovery
    | OnFootStanding
  {
    function AsByte(): uint8 {
      match this
      case Unknown(value) => value
      case Mounted => 1
      case MountedAirborne => 2
      case SaddleDiveAirborne => 3
      case LandingProne => 4
      case LandingRecovery => 5
      case OnFootStanding => 6
    }

    static function FromByte(value: uint8): RiderStance {
      match value
      case 1 => Mounted
      case 2 => MountedAirborne
      case 3 => SaddleDiveAirborne
      case 4 => LandingProne
      case 5 => LandingRecovery
      case 6 => OnFootStanding
      case other => Unknown(other)
    }

    predicate IsCanonical() {
      Unknown? ==> code < 1 || code > 6
    }
  }

  datatype WeaponId = Dustwalker | Longspur | Rattler {
    function AsByte(): uint8 {
      match this
      case Dustwalker => 0
      case Longspur => 1
      case Rattler => 2
    }

    static function FromByte(value: uint8): Option<WeaponId> {
      match value
      case 0 => Some(Dustwalker)
      case 1 => Some(Longspur)
      case 2 => Some(Rattler)
      case _ => None
    }

    function MagazineCapacity(): uint16 {
      match this
      case Dustwalker => 30
      case Longspur => 18
      case Rattler => 40
    }

    function ReserveCapacity(): uint16 {
      match this
      case Dustwalker => 120
      case Longspur => 72
      case Rattler => 160
    }
  }

  datatype HitZone = Body | Head

  datatype ShotOutcome = Hit | Miss | Reject

  datatype ShotRejectionReason =
    | UnknownShooter | RiderSnapshotMismatch | TickReplay | TickStale | TickFuture | Weapon
    | SpreadSeed | Rate | Empty | Reloading | InvalidDirection | OriginLeash | Holstered
    | Dismounted | Airborne | Stumble

  datatype ClaimedTarget = ClaimedTarget(
    targetId: uint64, hitZone: Option<HitZone>, damage: Option<uint16>, distanceMm: Option<uint32>)

  datatype ShotCommand = ShotCommand(
    tick: uint64, shooter: PlayerId, weapon: WeaponId, origin: Vec3, direction: Vec3,
    spreadSeed: uint64, claimedTarget: Option<ClaimedTarget>)

  datatype ShotResult = ShotResult(
    tick: uint64, shooter: PlayerId, weapon: WeaponId, outcome: ShotOutcome,
    rejection: Option<ShotRejectionReason>, resolvedDirection: Option<Vec3>,
    targetId: Option<uint64>, hitZone: Option<HitZone>, damage: uint16,
    distanceMm: Option<uint32>, eliminated: bool)

  datatype RiderCheckpoint = RiderCheckpoint(
    rider: PlayerId, positionMm: Vec3, velocityMmps: Vec3, yawMillidegrees: int32,
    stance: RiderStance, health: uint16, weaponCode: uint8, ammoMagazine: uint16,
    ammoReserve: uint16, lastInputTick: uint64, lastShotTick: Option<uint64>,
    lastCommandTick: Option<uint64>, shotIndex: uint64)
  {
    /** The per-rider half of the checkpoint bounds. */
    predicate IsWellFormed() {
      var weapon := WeaponId.FromByte(weaponCode);
      && stance.IsCanonical()
      && health <= MAX_CHECKPOINT_RIDER_HEALTH
      && weapon.Some?
      && ammoMagazine <= weapon.value.MagazineCapacity()
      && ammoReserve <= weapon.value.ReserveCapacity()
      && (lastShotTick.Some? <==> shotIndex > 0)
      && (lastShotTick.Some? ==> lastCommandTick.Some?)
      && (lastCommandTick.Some? && lastShotTick.Some? ==> lastShotTick.value <= lastCommandTick.value)
    }
  }

  datatype ShotKey = ShotKey(shooter: PlayerId, tick: uint64)

  datatype MatchCheckpoint = MatchCheckpoint(
    sourceEpoch: uint64, tick: uint64, riders: seq<RiderCheckpoint>, resolvedShots: seq<ShotKey>)
  {
    predicate IsBoundedAndCanonical() {
      && 0 < |riders| <= MAX_CHECKPOINT_RIDERS
      && |resolvedShots| <= MAX_CHECKPOINT_RIDERS * 64
      && (forall i | 0 <= i < |riders| :: riders[i].IsWellFormed())
      && |set i | 0 <= i < |riders| :: riders[i].rider| == |riders|
      && |set i | 0 <= i < |resolvedShots| :: resolvedShots[i]| == |resolvedShots|
    }

    /** The receipts of this checkpoint, stamped with the epoch they were resolved in. */
    function Receipts(): set<Receipt> {
      set i | 0 <= i < |resolvedShots| ::
        Receipt(sourceEpoch, resolvedShots[i].shooter, resolvedShots[i].tick)
    }
  }

  /** One resolved shot as every peer remembers it. */
  datatype Receipt = Receipt(epoch: uint64, shooter: PlayerId, tick: uint64)

  datatype PeerPayload =
    | Hello(hostname: Bytes)
    | Heartbeat
    | Probe(nonce: uint64, reply: bool)
    | RiderInput(throttleMilli: int16, steerMilli: int16, buttons: uint16)
    | RiderSnapshot(rider: PlayerId, positionMm: Vec3, velocityMmps: Vec3, yawMillidegrees: int32,
                    stance: RiderStance)
    | Command(command: ShotCommand)
    | Result(result: ShotResult)
    | Authority(authority: PlayerId, epoch: uint64)
    | MigrationSnapshot(authority: PlayerId, epoch: uint64, checkpoint: MatchCheckpoint, stateHash: Bytes32)
    | Leave
  {
    predicate IsAuthorityClaim() {
      Authority? || MigrationSnapshot?
    }
  }

  datatype WireVersion = WireVersion(major: uint16, minor: uint16)

  const CURRENT_WIRE_VERSION := WireVersion(1, 2)

  /** SHA-256 over the checkpoint's JSON; both are outside this model. */
  type CheckpointHash = MatchCheckpoint -> Bytes32

  /** The signed identity part of an envelope; absent only outside secure mode. */
  datatype SessionBinding = SessionBinding(
    networkGeneration: uint64, sessionGeneration: uint64, rosterHash: Bytes32, signature: Bytes)

  datatype Envelope = Envelope(
    wireVersion: WireVersion, lobby: LobbyId, sender: PlayerId, sequence: uint64,
    authorityEpoch: uint64, simulationTick: uint64, payload: PeerPayload,
    session: Option<SessionBinding>)

  datatype AcceptOutcome =
    | Accepted
    | DuplicateOrReplay
    | WrongLobby
    | StaleAuthorityEpoch
    | UnknownSender
    | UnsignedInSecureMode
    | EndpointMismatch
    | NodeKeyMismatch
    | WrongGeneration
    | RosterMismatch
    | BadSignature
    | InvalidAuthorityClaim
    | InvalidPayloadRole
    | InvalidPayloadSubject
    | InvalidCheckpoint
    | DuplicateShotResult
}
