# Spurfire, modelled and proved in Dafny

Spurfire is a peer-to-peer horseback shooter. One peer at a time is the authority of a match; when it
falls silent the others elect a successor on their own. This project models the parts of the program
whose correctness spans many functions or many steps, and proves what they promise for every input, every
run and every interleaving.

`dafny verify dfyconfig.toml` checks the whole project.

| file | what it models |
|---|---|
| `Protocol.dfy` | identifiers, payloads, checkpoints, envelopes |
| `SessionSpec.dfy`, `SessionState.dfy` | the peer session as functions on a view, and as the class the program has |
| `SessionLaws.dfy`, `SessionRuns.dfy` | what one step of the session keeps, and what whole runs keep |
| `AcceptanceLaws.dfy` | every check of plain and secure acceptance, spelled out with its refusal and in order |
| `ByteFields.dfy`, `PayloadEncoding.dfy`, `WireLayout.dfy` | the signature input of a payload, a parser that inverts it, and where each number stands in it |
| `SecureSession.dfy`, `SecureNetwork.dfy` | signed envelopes, and every peer of a roster over a hostile network |
| `SnapshotBuffer.dfy`, `SnapshotMotion.dfy` | the bounded buffer remote riders are drawn from, and what a moving rider looks like through it |
| `Arithmetic.dfy`, `Locomotion.dfy`, `JumpTraces.dfy`, `GroundTraces.dfy`, `Flight.dfy`, `FallCuts.dfy` | the horse's vertical motion and terrain response, its jump timers and its ground contact over runs, its flight, and when a fall depends on its ticks |
| `Ordering.dfy`, `Policy.dfy`, `Inventory.dfy` | policy normal form and complete provider listings |
| `Uuid.dfy`, `Utf8.dfy`, `LobbySecrets.dfy`, `JoinCodes.dfy` | identifier text, well-formed UTF-8, cutting a secret out of a body, join codes |
| `WorkerQueue.dfy` | the network worker and its command queue |
| `Folds.dfy`, `Statistics.dfy`, `Playtest.dfy`, `PlaytestOrder.dfy`, `PlaytestReport.dfy` | the playtest aggregator, and why the order of its records does not matter |
| `PlaytestTables.dfy`, `PlaytestFigures.dfy`, `PlaytestScores.dfy` | what every table and every figure of the report says about the records |

Where the program updates something in place the model does too: a class with the same fields, or a method
with the same loop, proved against a function on values. The laws are lemmas about those functions.

## Where the code and its documentation part

The model follows the code. These are results, each with its lemma.

- Same-epoch claims are documented to make split elections converge on the lowest player. They do not when
  each side elected itself: neither ever yields (`SplitElectionNeverHeals`), and one timeout on each side of
  a match start reaches that state (`SplitElectionHappens`). A lower claim is adopted exactly by a peer whose
  own authority is silent and is not itself (`LowerClaimAdoptedExactlyWhen`).
- An announced departure opens only the local path to a new epoch. No epoch-raising claim is accepted for a
  whole heartbeat timeout after a `Leave` (`LeaveOpensOnlyTheLocalPath`).
- Two migrating peers agree exactly when the wider view's winner also survives in the narrower view
  (`TimeoutsAgreeExactlyWhen`).
- Adding a known player again forgets its sequence numbers. At any later moment of a run, of all it had
  accepted before exactly this is accepted once more: no shot result, and of the rest what belongs to the
  current epoch, with snapshots and claims only while it is still the authority
  (`ReplayAfterReadditionAcceptedExactlyWhen`).
- Checkpoints are documented to carry combat receipts against replay. They do not prevent it: after any
  accepted shot result and any timeout that then migrates, the new authority's envelope with the very same
  shot is accepted although its receipt is kept (`CarriedReceiptsDoNotGuard`), and so it is after a handoff
  that carried the receipt (`NewEpochResolvesShotsAnew`). Acceptance consults only receipts of the current
  epoch (`OnlyThisEpochsReceiptsMatter`). Exactly: a result in order is accepted unless its own epoch has
  already resolved the shot (`ShotAcceptedExactlyWhen`), so a shot comes again only in a later epoch, and
  there at most once (`ShotIsAcceptedAgainOnlyInALaterEpoch`).
- Sequence numbers saturate at the largest 64-bit value. Delivery is at most once and in order even then
  (`DeliveryIsInOrder`).
- The signature input is unambiguous for strings of any length, although the length prefix saturates. The
  only collision left is a stance spelled in a non-canonical way (`EncodingIsUnambiguous`).
- A fall over a given time is the same however the time is cut into ticks if and only if the terminal speed
  holds from the start or is not passed by the end. This is so for every longest tick the kernel may accept
  (`FallIgnoresCutsExactlyWhen`). At default tuning a Courser falling at 29 m/s ends 5 cm lower after two
  ticks of 0.1 s than after one of 0.2 s (`KernelTicksEndApart`).

## Model

| member | source | states |
|---|---|---|
| SessionStateModel.SessionState.constructor | crates/spurfire-net/src/lib.rs:443-468 | a new session satisfies the reachable-state invariant and holds the local player and the first authority |
| SessionStateModel.SessionState.AddPeer | crates/spurfire-net/src/lib.rs:489-498 | only the named peer's row changes, and the invariant is kept |
| SessionStateModel.SessionState.ConfigureMigrationPreference | crates/spurfire-net/src/lib.rs:502-512 | an order is installed exactly when it is a permutation of the roster; otherwise nothing changes |
| SessionStateModel.SessionState.ComposeEnvelope | crates/spurfire-net/src/lib.rs:523-536 | the envelope carries this peer's identity, epoch and next sequence number, which then advances and saturates |
| SessionStateModel.SessionState.Accept | crates/spurfire-net/src/lib.rs:538-675 | the outcome is the first gate that closes; every refusal leaves the whole state unchanged; acceptance keeps the invariant |
| SessionStateModel.SessionState.PassGates | crates/spurfire-net/src/lib.rs:538-638 | the gates in order, against the specification of the gate chain |
| SessionStateModel.SessionState.Install | crates/spurfire-net/src/lib.rs:639-674 | the sender's row, receipts, checkpoint and authority after acceptance, and nothing else |
| SessionStateModel.SessionState.AuthorityClaimIsCoherent | crates/spurfire-net/src/lib.rs:691-711 | the remote claim rule, computed by the same search the source makes |
| SessionStateModel.SessionState.DeterministicSuccessor | crates/spurfire-net/src/lib.rs:713-726 | the search over the preference and then the ordered roster finds the elected survivor |
| SessionStateModel.SessionState.ExpireAndMigrate | crates/spurfire-net/src/lib.rs:737-766 | the sweep, the search and the installed migration, keeping the invariant |
| SessionStateModel.DistinctExactlyWhenNoneLost | crates/spurfire-net/src/lib.rs:503-506 | comparing a list's length with its set's size detects exactly the repeated players |
| SessionLaws.ElectionNamesTheLeastRank | crates/spurfire-net/src/lib.rs:713-726 | the elected player is the survivor of least rank, or the least survivor when none is ranked; none is elected only when nobody survives |
| SessionLaws.ElectionAgreement | crates/spurfire-net/src/lib.rs:752-761 | if one survivor set contains another and the wider one's winner is in the narrower, both elect it |
| SessionLaws.TimeoutsAgreeExactlyWhen | crates/spurfire-net/src/lib.rs:737-766 | two migrating peers with one preference and epoch install the same authority and epoch exactly when the wider winner survives in the narrower view |
| SessionLaws.SweepLeavesTheSurvivors | crates/spurfire-net/src/lib.rs:713-744 | expiry leaves connected exactly the players the remote rule counts as alive, and forgets nobody |
| SessionLaws.AdvanceAcceptedExactlyWhen | crates/spurfire-net/src/lib.rs:601-638 | an epoch-raising claim is accepted exactly when it is addressed, fresh, over a silent authority, and names the migration the receiver's own timeout would run now |
| SessionLaws.AcceptedAdvanceIsTheLocalMigration | crates/spurfire-net/src/lib.rs:662-711 | an accepted claim that raises the epoch leaves the authority and epoch the local timeout would have left |
| SessionLaws.LeaveOpensOnlyTheLocalPath | crates/spurfire-net/src/lib.rs:643-651 | after the authority's Leave a timeout migrates at once, but no epoch-raising claim is accepted for a heartbeat timeout |
| SessionLaws.AcceptedExactlyWhen | crates/spurfire-net/src/lib.rs:538-675 | acceptance restated without order: addressed to this session, newer than anything from its sender, and entitled to its payload |
| SessionLaws.AcceptedClaimInstallsItsSender | crates/spurfire-net/src/lib.rs:662-673 | after any accepted claim the sender is the authority in the claimed epoch |
| SessionLaws.ReplayIsRefused | crates/spurfire-net/src/lib.rs:625-627 | an accepted envelope is never accepted a second time, whenever it is replayed |
| SessionLaws.StepsMoveTheAuthority | crates/spurfire-net/src/lib.rs:662-673 | a step changes the authority only by raising the epoch by one or by lowering the authority within it |
| SessionLaws.SelfAuthorityIsStable | crates/spurfire-net/src/lib.rs:728-734 | a peer that is authority in its own view stays so under every message and timeout |
| SessionLaws.FailoverIsTotal | crates/spurfire-net/src/lib.rs:737-766 | a timeout migrates unless the authority is responsive or the epoch is the last, and installs a different survivor one epoch up |
| SessionLaws.ReceiveKeepsInvariant | crates/spurfire-net/src/lib.rs:601-673 | the reachable-state invariant survives every envelope: roster membership, receipt epochs, checkpoint bounds and its receipts |
| SessionLaws.TimeoutKeepsInvariant | crates/spurfire-net/src/lib.rs:737-766 | the invariant survives every timeout |
| AcceptanceLaws.OutcomeIsTheFirstRefusal | crates/spurfire-net/src/lib.rs:538-675 | the outcome of any envelope is the refusal of the first of twelve spelled-out checks that fails, and acceptance when none does |
| AcceptanceLaws.HandoffAcceptedExactlyWhen | crates/spurfire-net/src/lib.rs:601-624 | a handoff in order from a player who may claim is accepted if and only if it is the sender's own, of the epoch before, of its own tick, matches its state hash, and holds a sound checkpoint of rostered riders |
| AcceptanceLaws.CheckpointsAreSound | crates/spurfire-net/src/lib.rs:94-126 | a checkpoint is bounded and canonical if and only if it has 1 to 16 distinct riders, each with health up to 100, ammunition of its weapon and coherent shots, and at most 1024 distinct receipts |
| AcceptanceLaws.TamperedHandoffIsRefused | crates/spurfire-net/src/lib.rs:615 | no handoff whose state hash is not its checkpoint's is ever accepted |
| AcceptanceLaws.FailoverExactlyWhen | crates/spurfire-net/src/lib.rs:737-766 | a timeout migrates if and only if the authority has left or been silent for 2000 ms, somebody survives and an epoch is left |
| SessionRuns.RunKeepsInvariant | crates/spurfire-net/src/lib.rs:441-767 | every state of every run satisfies the invariant |
| SessionRuns.RunOnlyAdvances | crates/spurfire-net/src/lib.rs:662-673 | over any run the epoch never falls and grows by at most one a step, an epoch's authority only falls, and no receipt is lost |
| SessionRuns.NoAuthorityReturns | crates/spurfire-net/src/lib.rs:662-673 | a player that lost authority does not regain it within the epoch |
| SessionRuns.AuthorityChangesAreBounded | crates/spurfire-net/src/lib.rs:691-711 | an epoch with n players on the roster sees at most n - 1 changes of authority |
| SessionRuns.AcceptedSequencesIncrease | crates/spurfire-net/src/lib.rs:625-645 | without a re-addition, sequence numbers accepted from one sender strictly increase over any run |
| SessionRuns.ShotResultsAreAcceptedOnce | crates/spurfire-net/src/lib.rs:589-661 | no shot result is accepted twice in any run, across migrations and re-additions |
| SessionRuns.AddingAgainReopensReplay | crates/spurfire-net/src/lib.rs:489-498 | the envelope accepted just before a re-addition is accepted again, but for a shot result and a claim sent from before its epoch |
| SessionRuns.ReplayAfterReadditionAcceptedExactlyWhen | crates/spurfire-net/src/lib.rs:489-498 | at any later moment of any run, exactly which earlier envelopes of a re-added player are accepted again |
| SessionRuns.CarriedReceiptsDoNotGuard | crates/spurfire-net/src/lib.rs:589-661 | for every view, accepted result and migrating timeout, the same shot from the new authority is accepted although its receipt is kept |
| SessionRuns.NewEpochResolvesShotsAnew | crates/spurfire-net/src/lib.rs:601-673 | after any step that raises the epoch, handoff or timeout, a result is accepted if and only if it is in order and from the authority, whatever receipts are held |
| SessionRuns.CurrentReceiptsComeFromResults | crates/spurfire-net/src/lib.rs:646-661 | over any run the receipts of the current epoch are exactly those it started with and those of results accepted in it |
| SessionRuns.ShotAcceptedExactlyWhen | crates/spurfire-net/src/lib.rs:589-661 | in any run a result is accepted if and only if it is in order, from the authority, and its epoch has not resolved the shot |
| SessionRuns.ShotIsAcceptedAgainOnlyInALaterEpoch | crates/spurfire-net/src/lib.rs:589-661 | two acceptances of one shooter's shot at one tick lie in different epochs, the later in the later |
| SessionRuns.OnlyThisEpochsReceiptsMatter | crates/spurfire-net/src/lib.rs:589-600 | no outcome depends on receipts of earlier epochs |
| SessionRuns.SelfAuthorityIsForever | crates/spurfire-net/src/lib.rs:728-766 | over any run a self-elected peer keeps its authority and epoch |
| SessionRuns.SplitElectionNeverHeals | crates/spurfire-net/src/lib.rs:677-711 | two peers that each elected themselves never agree again, whatever is delivered |
| SessionRuns.SplitElectionHappens | crates/spurfire-net/src/lib.rs:737-766 | for any three players, one timeout on each side of their match start produces such a pair |
| SessionRuns.LowerClaimAdoptedExactlyWhen | crates/spurfire-net/src/lib.rs:701-704 | a lower same-epoch claim, with or without a checkpoint, is adopted exactly when addressed, self-nominated, fitting, and over a silent authority that is not the receiver |
| PayloadEncoding.CanonicalPayloadBytes | crates/spurfire-net/src/lib.rs:948-1070 | the appending writer produces the specified layout for all ten payloads |
| PayloadEncoding.ParseInvertsEncoding | crates/spurfire-net/src/lib.rs:948-1070 | one parser recovers the content of any encoded payload and consumes every byte |
| PayloadEncoding.EncodingIsUnambiguous | crates/spurfire-net/src/lib.rs:946-1070 | equal bytes if and only if equal payloads up to the stance's spelling, for strings of any length |
| PayloadEncoding.CanonicalStances | crates/spurfire-protocol/src/stance.rs:49-90 | the stances the bytes pin down are exactly the ones the protocol calls canonical |
| WireLayout.PayloadIsLaidOut | crates/spurfire-net/src/lib.rs:948-1070 | for all ten payloads, which words, names and flags stand where, words in big-endian two's complement |
| WireLayout.PreimageIsLaidOut | crates/spurfire-protocol/src/session.rs:311-342 | the order and width of the domain, header fields, payload length and payload under a signature |
| SecureSessionModel.PreimageIsUnambiguous | crates/spurfire-protocol/src/session.rs:311-342 | the hashed envelope bytes determine every header field and the payload bytes |
| SecureSessionModel.SignedBytesAreTheMessage | crates/spurfire-net/src/lib.rs:926-944 | under one manifest two envelopes are signed over equal bytes if and only if they are the same message |
| SecureSessionModel.EqualDigestsMeanTheSameMessage | crates/spurfire-protocol/src/session.rs:311-342 | unless those bytes collide, equal digests if and only if the same message |
| SecureSessionModel.SignedEnvelopesPass | crates/spurfire-net/src/lib.rs:837-865 | what a rostered player signs passes every secure gate of a peer holding the same manifest, but for a changed node key |
| SecureSessionModel.SecureGateAcceptsExactlyWhen | crates/spurfire-net/src/lib.rs:872-923 | the secure gate opens if and only if the binding is there, the sender is on the roster, and endpoint, node key, lobby, both generations, roster hash and signature all agree with its entry |
| AcceptanceLaws.SecureOutcomeIsTheFirstRefusal | crates/spurfire-net/src/lib.rs:872-923 | a secure outcome is the refusal of the first secure check that fails, and else that of the session's first |
| AcceptanceLaws.SentExactlyWhenReceivable | crates/spurfire-net/src/lib.rs:808-835 | a peer signs exactly the payloads that no peer of the same belief refuses for the sender's role or the subject |
| SecureSessionModel.SecureSession.ComposeSigned | crates/spurfire-net/src/lib.rs:808-835 | exactly which payloads are signed, with which envelope, and that only a permitted payload uses up a sequence number |
| SecureSessionModel.SecureSession.AcceptWithSource | crates/spurfire-net/src/lib.rs:872-923 | the secure gates in order before the session's own; any refusal leaves the session unchanged |
| SecureNetwork.StepKeepsSound | crates/spurfire-net/src/lib.rs:872-923 | every send, delivery and timeout keeps all peers' logs authentic and in order |
| SecureNetwork.DeliveryIsAuthentic | crates/spurfire-net/src/lib.rs:872-944 | over a network that loses, repeats, reorders and invents, whatever is accepted in an honest player's name that player sent; assumed is only that what verifies under an honest key was signed by it |
| SecureNetwork.DeliveryIsInOrder | crates/spurfire-net/src/lib.rs:523-536 | of two messages accepted from one honest sender the later accepted is the later sent, even after sequence numbers saturate |
| SecureNetwork.AuthorityIsFirstElectedOrClaimed | crates/spurfire-net/src/lib.rs:662-766 | an honest peer that believes in an honest player started with it, elected it by its own timeout, or that player itself sent the claim for that epoch |
| SnapshotBufferModel.SnapshotBuffer.Push | crates/spurfire-net/src/replication.rs:53-72 | a snapshot is accepted exactly when finite and newer than all before; the buffer then holds the newest of the full history |
| SnapshotBufferModel.SnapshotBuffer.Sample | crates/spurfire-net/src/replication.rs:80-124 | the answer is the specification's over the held snapshots |
| SnapshotBufferModel.SnapshotBuffer.LastSnapshotBefore | crates/spurfire-net/src/replication.rs:93-108 | the walk over neighbouring pairs finds the last snapshot before the time |
| SnapshotBufferModel.BoundedBufferAnswersLikeTheFullHistory | crates/spurfire-net/src/replication.rs:53-124 | past the oldest held tick the bounded buffer answers exactly like every snapshot ever accepted |
| SnapshotBufferModel.StanceIsTheNewestKnown | crates/spurfire-net/src/replication.rs:150-177 | the stance shown is that of the newest snapshot at or before the time |
| SnapshotBufferModel.SamplesGoThroughSnapshots | crates/spurfire-net/src/replication.rs:93-108 | at a held snapshot's tick the sample is that snapshot, its yaw up to whole turns |
| SnapshotBufferModel.ArcReachesTheTarget | crates/spurfire-net/src/replication.rs:165-170 | yaw turns by at most half a turn and ends congruent to the target |
| SnapshotBufferModel.SampleTickIsBounded | crates/spurfire-net/src/replication.rs:110-123 | no sample lies more than 15 ticks past the newest snapshot, and the flag is set exactly past it |
| SnapshotBufferModel.ExtrapolationStops | crates/spurfire-net/src/replication.rs:110-123 | beyond the limit every later time gets the same answer |
| SnapshotBufferModel.InterpolationStaysBetween | crates/spurfire-net/src/replication.rs:157-164 | every interpolated position and velocity component lies between those of its two snapshots |
| SnapshotMotion.UniformMotionIsDrawnTrue | crates/spurfire-net/src/replication.rs:80-164 | a rider whose snapshots lie on one line of uniform motion is drawn on that line, at its own time, from the first snapshot to 15 ticks past the newest |
| SnapshotMotion.HeadingTurnsWithTime | crates/spurfire-net/src/replication.rs:150-177 | between two snapshots the heading has turned the short way by the fraction of time passed |
| SnapshotMotion.NewestIsKept | crates/spurfire-net/src/replication.rs:110-123 | past the newest snapshot velocity, heading and stance are the newest's |
| SnapshotMotion.AnswersExactlyWhen | crates/spurfire-net/src/replication.rs:80-92 | there is no answer exactly without snapshots or before time zero, and before the first snapshot the answer is the first |
| SnapshotMotion.SampleTickIsNearest | crates/spurfire-net/src/replication.rs:93-123 | the tick of a sample is the whole number nearest its time, or nearest the limit |
| Locomotion.HorseKernel.Reset | crates/spurfire-gdext/src/locomotion.rs:764-772 | the vertical state and the terrain multiplier return to the fresh ones |
| Locomotion.HorseKernel.ResolveMotion | crates/spurfire-gdext/src/locomotion.rs:743-761 | engine motion replaces height, speed and ground, and starts landing recovery only on a landing |
| Locomotion.HorseKernel.Step | crates/spurfire-gdext/src/locomotion.rs:775-846 | a bad delta changes nothing; otherwise the vertical state, the terrain multiplier and the reported jump and reset are those of the step functions |
| Locomotion.HorseKernel.IntegrateVertical | crates/spurfire-gdext/src/locomotion.rs:1010-1058 | timers, jump and fall of one tick against the step function |
| Locomotion.HorseKernel.RecoverTerrain | crates/spurfire-gdext/src/locomotion.rs:1270-1295 | rough ground slows at once, better ground is recovered exponentially, a charge ignores both |
| JumpTraces.CoyoteTimerIsAWindow | crates/spurfire-gdext/src/locomotion.rs:1016-1038 | over any run the coyote timer is what is left of its window since the last ground or reset, or nothing after a jump |
| JumpTraces.JumpBufferIsAWindow | crates/spurfire-gdext/src/locomotion.rs:1025-1043 | over any run the jump buffer is what is left of its window since the last press no jump has used |
| JumpTraces.JumpsExactlyWhen | crates/spurfire-gdext/src/locomotion.rs:1010-1041 | a tick jumps if and only if ground and an unused press are both recent enough and it does not reset |
| JumpTraces.JumpsAreSeparated | crates/spurfire-gdext/src/locomotion.rs:1029-1041 | every jump has a press of its own, and ground or a reset lies between any two |
| GroundTraces.GroundedTickStands | crates/spurfire-gdext/src/locomotion.rs:1010-1058 | in any run a tick on ground without jump or reset keeps the height, ends grounded with no air time, and keeps a speed only if it was rising |
| GroundTraces.AirborneTickGoesOn | crates/spurfire-gdext/src/locomotion.rs:1029-1057 | any other tick without a reset ends in the air, its air time going on from the last ground |
| GroundTraces.SteepTickNeverRises | crates/spurfire-gdext/src/locomotion.rs:775-846 | a tick on a steep slope never ends rising |
| GroundTraces.ResetsExactlyWhen | crates/spurfire-gdext/src/locomotion.rs:764-800 | a tick resets if and only if it is asked to or starts below the kill plane, and then everything is fresh at the spawn |
| GroundTraces.CorrectionIsTaken | crates/spurfire-gdext/src/locomotion.rs:743-761 | the engine's correction replaces height, speed and ground and leaves the jump timers |
| GroundTraces.AirTimeIsTimeSinceGround | crates/spurfire-gdext/src/locomotion.rs:1044-1057 | over any run air time is the time since the last ground, reset or spawn |
| GroundTraces.LandingRecoveryIsAWindow | crates/spurfire-gdext/src/locomotion.rs:743-846 | over any run landing recovery is what is left of 0.2 s since the last landing |
| GroundTraces.NoRecoveryWithoutLanding | crates/spurfire-gdext/src/locomotion.rs:743-846 | before any landing, and after a jump or reset until the next one, there is no landing recovery |
| GroundTraces.TerrainIsRecovered | crates/spurfire-gdext/src/locomotion.rs:1270-1295 | worse ground slows at once; better ground closes all but a twentieth of the gap in the horse's recovery time |
| GroundTraces.TerrainFollowsTheTick | crates/spurfire-gdext/src/locomotion.rs:775-846 | the kernel's terrain step: nothing while steep, full speed after a reset |
| Flight.FallIsBallistic | crates/spurfire-gdext/src/locomotion.rs:1049-1057 | however time is cut, falling follows the parabola exactly until the terminal speed, and is above it afterwards |
| Flight.FallDoesNotDependOnSteps | crates/spurfire-gdext/src/locomotion.rs:1049-1057 | two ways of cutting the same time end in the same place short of the terminal speed |
| FallCuts.FallIgnoresCutsExactlyWhen | crates/spurfire-gdext/src/locomotion.rs:1049-1057 | for every fall, time and longest accepted tick, all cuts of the time end alike if and only if the terminal speed holds from the start or is not passed by the end |
| FallCuts.ClampShowsTheCut | crates/spurfire-gdext/src/locomotion.rs:1049-1057 | every fall that passes the terminal speed has two cuts into accepted ticks, however short those must be, that end apart |
| FallCuts.AirborneRunIsAFall | crates/spurfire-gdext/src/locomotion.rs:1049-1057 | in any run the airborne ticks are a cut of the time that passes into accepted ticks, and the body falls through it |
| FallCuts.AirborneRunsEndAlike | crates/spurfire-gdext/src/locomotion.rs:1049-1057 | any two runs of the kernel airborne alike for the same time end alike, unless the fall passes the terminal speed |
| FallCuts.ClampedFallDependsOnSteps | crates/spurfire-gdext/src/locomotion.rs:1050-1052 | one fall at default tuning, cut into ticks the kernel accepts, that depends on the cut |
| FallCuts.KernelTicksEndApart | crates/spurfire-gdext/src/locomotion.rs:1049-1057 | the kernel at default tuning moves one body to two different heights in the same time, in one accepted tick or in two |
| Flight.JumpFliesTheParabola | crates/spurfire-gdext/src/locomotion.rs:1029-1057 | in any run of the kernel a jump flies one parabola, whatever ticks its airtime is cut into |
| Flight.DefaultJumpMeetsItsDesign | crates/spurfire-gdext/src/archetype.rs:122-132 | at default tuning every archetype's jump peaks at its apex halfway through its airtime, returns at its end, and never reaches the terminal speed |
| Flight.DefaultJumpInRun | crates/spurfire-gdext/src/locomotion.rs:1029-1057 | in any run at default tuning a jump is at its apex after half its airtime and back where it left after all of it |
| GroundTraces.DesignRows | crates/spurfire-gdext/src/archetype.rs:141-242 | apex, airtime and terrain recovery of the three horses and the default windows, as numbers |
| GroundTraces.JumpReachesItsApex | crates/spurfire-gdext/src/archetype.rs:122-132 | each horse's jump speed is spent after half its airtime, and the height gained by then is its apex |
| Flight.RampDoesNotDependOnSteps | crates/spurfire-gdext/src/locomotion.rs:1384-1391 | ramping at a fixed rate to a fixed target depends only on the total time |
| Flight.RecoveryDoesNotDependOnSteps | crates/spurfire-gdext/src/locomotion.rs:1286-1295 | terrain recovery over any time depends only on its total |
| Policy.NormalizeMapValues | crates/spurfire-control/src/lib.rs:423-428 | every list of the map takes its normal form |
| Policy.FromWire | crates/spurfire-control/src/lib.rs:387-404 | sorting and deduplicating section by section yields the normal form |
| Policy.SemanticallyMatches | crates/spurfire-control/src/lib.rs:418-420 | two policies match if and only if they are equal as maps to sets and as sets of grants of sets |
| Policy.NormalFormIsTheMeaning | crates/spurfire-control/src/lib.rs:387-428 | two policies share a normal form if and only if they mean the same |
| Policy.NormalizingKeepsTheMeaning | crates/spurfire-control/src/lib.rs:387-404 | normalizing keeps the meaning and is idempotent |
| Policy.ReadbackMatchesExactlyWhen | crates/spurfire-control/src/lib.rs:370-420 | a readback matches the generated policy if and only if it allows the one same-tag UDP grant and nothing else |
| Policy.GeneratedExactlyWhen | crates/spurfire-control/src/lib.rs:430-442 | a policy is generated if and only if the tag is the lobby prefix and 1 to 109 letters, digits or hyphens |
| Ordering.NormalIsCanonical | crates/spurfire-control/src/lib.rs:423-428 | sort and dedup of two lists agree if and only if the lists have the same elements |
| Inventory.CollectCompleteInventory | crates/spurfire-control/src/lib.rs:527-568 | succeeds if and only if the pages form one chain of distinct valid cursors within both limits, and then returns all items in order |
| Inventory.CursorIsValidExactlyWhen | crates/spurfire-control/src/lib.rs:541-553 | a cursor is 1 to 512 bytes without control characters or white space |
| Inventory.ListOrganizationTailnets | crates/spurfire-control/src/lib.rs:919-960 | against any server, at most 32 requests; a list is returned if and only if it is complete |
| Inventory.FollowCursors | crates/spurfire-control/src/lib.rs:934-958 | the loop stops within its limit, and breaks off only when no complete inventory can follow |
| Uuid.DecodeUuidV4 | crates/spurfire-protocol/src/id.rs:28-70 | the in-place decoder returns the bytes or the first error of the specification |
| Uuid.FormatUuid | crates/spurfire-protocol/src/id.rs:72-80 | the printer writes the specified hyphenated form |
| Uuid.PrintThenParse | crates/spurfire-protocol/src/id.rs:28-103 | parsing what was printed gives the identifier back if and only if byte 6 is 0x40 to 0x4F and byte 8 is 0x80 to 0xBF, and else the error that names the first of the two to fail |
| Uuid.ParseThenPrint | crates/spurfire-protocol/src/id.rs:28-80 | printing what was parsed gives the text back in lower case |
| Uuid.PrintedText | crates/spurfire-protocol/src/id.rs:72-80 | where the two lower-case digits of each byte stand, the higher first, and the four hyphens |
| Uuid.ParsesExactlyWhen | crates/spurfire-protocol/src/id.rs:28-70 | a text parses if and only if its length, hyphens, digits, version digit and variant digit are right |
| Uuid.FirstFaultDecides | crates/spurfire-protocol/src/id.rs:28-70 | length before hyphens before digits before version before variant |
| LobbySecrets.ExtractSecret | crates/spurfire-gdext/src/lobby_client.rs:878-925 | on success exactly the value's bytes are returned and become spaces; on any error the buffer is untouched |
| LobbySecrets.CutIsTheQuotedValue | crates/spurfire-gdext/src/lobby_client.rs:886-924 | what is cut is the whole quoted value of the key's one occurrence, and a secret |
| LobbySecrets.QuotedValueIsCut | crates/spurfire-gdext/src/lobby_client.rs:886-924 | every body of that shape is accepted |
| LobbySecrets.SecondExtractionFails | crates/spurfire-gdext/src/lobby_client.rs:878-925 | after a cut, extracting the same key again always fails |
| LobbySecrets.RefusalsExactlyWhen | crates/spurfire-gdext/src/lobby_client.rs:886-924 | the body is called malformed if and only if its key occurs once and no colon follows or the open value never ends; every other refusal blames the secret |
| JoinCodes.ParseJoinCode | crates/spurfire-gdext/src/lobby_client.rs:956-980 | the trimming loops and the split return the specified parts or the first error |
| JoinCodes.TrimCode | crates/spurfire-gdext/src/lobby_client.rs:959-964 | removing bytes from both ends leaves the text without its outer white space |
| JoinCodes.AssembleInvitation | crates/spurfire-gdext/src/lobby_client.rs:982-996 | a code is assembled exactly for a valid identifier |
| JoinCodes.AssembleThenParse | crates/spurfire-gdext/src/lobby_client.rs:956-996 | for any hex case, any invitation with colons and any surrounding white space, parsing gives the lower-case identifier and the same invitation |
| JoinCodes.ParsesExactlyAssembledCodes | crates/spurfire-gdext/src/lobby_client.rs:956-980 | the parser accepts assembled codes between white space and nothing else |
| JoinCodes.FaultyPartDecides | crates/spurfire-gdext/src/lobby_client.rs:956-980 | of a code that splits, whether its identifier is no text, no version-4 identifier, or its invitation no secret decides the error |
| JoinCodes.UnsplitIsRefused | crates/spurfire-gdext/src/lobby_client.rs:956-980 | a code without the prefix or without a colon after it is refused as a secret |
| Utf8.WellFormedExactlyWhen | crates/spurfire-gdext/src/lobby_client.rs:973 | the bytes taken for text are exactly the encodings of scalar values |
| WorkerQueue.Worker.EnrollWithCancellation | crates/spurfire-gdext/src/peer_session.rs:271-307 | finishing enrollment, in success or failure as the connection ended, means everything sent so far is deferred in order without a stop; otherwise a stop or the end of the senders was seen |
| WorkerQueue.Worker.HandleCommand | crates/spurfire-gdext/src/peer_session.rs:230-254 | a stop is handled by exiting, anything else is carried out once, and reports a route or a failed send |
| WorkerQueue.Worker.WaitForDatagram | crates/spurfire-gdext/src/peer_session.rs:385-399 | the worker waits only once every command sent has been handled, and reports each packet once |
| WorkerQueue.Worker.ServeNetwork | crates/spurfire-gdext/src/peer_session.rs:369-401 | the loop ends only on a stop, gone senders or a broken socket, with nothing sent before that lost or repeated |
| WorkerQueue.Worker.RunConnected | crates/spurfire-gdext/src/peer_session.rs:357-405 | from the reported connection on, the deferred commands come first and everything up to the first stop follows in order; the events are exactly the connection, one report per deed, a failed close and the end |
| WorkerQueue.Worker.RunWorker | crates/spurfire-gdext/src/peer_session.rs:309-407 | under every interleaving the commands handled are the first ones sent, in order, up to the first stop; once enrollment ends it is cancelled if and only if a stop had been sent or the senders were gone, and then nothing is handled and no connection reported; for each exit the whole list of events |
| WorkerQueue.PrefixWithoutStop | crates/spurfire-gdext/src/peer_session.rs:363-384 | a stop-free prefix that a stop follows is everything before the first stop |
| Playtest.AddCounters | scripts/aggregate-playtest.py:262-290 | the counters are added name by name, or refused when one is not a count |
| Playtest.ReadPlayers | scripts/aggregate-playtest.py:336-376 | a match result is read exactly when slots are distinct, every score equals its categories and one player won |
| Playtest.Absorb | scripts/aggregate-playtest.py:165-381 | one record read by kind changes each table as the specification says, or refuses the input |
| Playtest.Collect | scripts/aggregate-playtest.py:139-381 | the loop over the records is the fold of the specification |
| PlaytestOrder.RecordsCommute | scripts/aggregate-playtest.py:165-381 | any two records may be read in either order: both orders are refused, or both give the same tables |
| PlaytestOrder.PermutationsCollectAlike | scripts/aggregate-playtest.py:139-381 | any permutation of the records is refused alike or gives the same tables |
| PlaytestReport.ReportDoesNotDependOnOrder | scripts/aggregate-playtest.py:139-715 | any permutation of the records is refused alike or yields the very same report |
| PlaytestReport.CollectsExactlyWhen | scripts/aggregate-playtest.py:165-381 | the records are read if and only if each is valid and no two contradict each other |
| PlaytestScores.RecordIsValidExactlyWhen | scripts/aggregate-playtest.py:165-381 | which records are valid, field by field: whole numbers with their minima, scores that equal their eight categories, one winner |
| PlaytestFigures.ReportRefusedExactlyWhen | scripts/aggregate-playtest.py:381-425 | a report is refused if and only if a record is invalid or contradicts another, a dive is malformed, or, strictly, something does not match up |
| PlaytestTables.SessionsTellTheRecords | scripts/aggregate-playtest.py:165-200 | builds, starts, ends and actors of the session table are those of the records |
| PlaytestFigures.SessionFiguresAreTold | scripts/aggregate-playtest.py:392-417 | each session's build, duration, censoring and actors, and the player time, read off the records |
| PlaytestFigures.DiveFiguresAreTold | scripts/aggregate-playtest.py:418-438 | every dive figure: counts and sums over terminal records, rates that times the whole give the part, and the uplift over the gallop rate |
| PlaytestFigures.IntegrityIsTold | scripts/aggregate-playtest.py:383-415 | the integrity section and its warnings name exactly the dives and sessions that do not match up |
| PlaytestScores.RenderFiguresAreTold | scripts/aggregate-playtest.py:520-536 | for each sampled rate the sample count, repeats and four percentiles, each over its own measure of the samples at that rate |
| PlaytestScores.RidingFiguresAreTold | scripts/aggregate-playtest.py:438-465 | bolts, remount median, charges per actor and the delay from an actor's first interval to its first charge |
| PlaytestScores.CountersAreTold | scripts/aggregate-playtest.py:262-330 | each counter is the sum of what the intervals say under its name |
| PlaytestScores.BountyFiguresAreTold | scripts/aggregate-playtest.py:480-521 | winners' scores, scores on target, categories, objective points, gaps and survey answers, over the players as recorded |
| PlaytestScores.NotificationsAreTold | scripts/aggregate-playtest.py:538-567 | notification and reload counts, and coverage by the first three sessions in order of start and identifier |
| PlaytestReport.DiveCountsBalance | scripts/aggregate-playtest.py:383-390 | accepted dives less those without an end equal ended dives less those without a start, and both count the records |
| Statistics.PercentileIsNearestRank | scripts/aggregate-playtest.py:102-107 | the percentile is a member that at least that part of the values do not exceed, while fewer than that part, or none, lie strictly below it |
| Statistics.MedianIsTheMiddle | scripts/aggregate-playtest.py:559-670 | the median is the mean of the two members that split the values |
| Statistics.LargestIsGreatest | scripts/aggregate-playtest.py:694-701 | the largest value is a member that no member exceeds |
| Statistics.PermutationsSharePercentile | scripts/aggregate-playtest.py:102-107 | a percentile depends only on the multiset |

## Left out

- Player and lobby identifiers are 128-bit numbers in the session; that they are version-4 identifiers matters only in `Uuid`. Their numeric order is the byte order the source compares.
- Ordered maps and sets are Dafny maps and sets; where the source takes the first key, the model searches for the least.
- SHA-256, Ed25519 and JSON text are parameters. What is assumed of them stands in each lemma: that two given inputs do not collide, that a signature verifies, that the JSON text tells checkpoints apart.
- PayloadEncoding.EncodingIsUnambiguous: takes the JSON text to be defined for every checkpoint. The program cannot write one that holds a non-canonical stance: serializing it fails, and `canonical_payload_bytes` then panics.
- Validation and signature of the roster manifest, and which key signs it.
- `encode` and `decode` of whole datagrams, wire versions, fragmenting and the M3 session: their types are not part of this model.
- SnapshotBufferModel.SnapshotBuffer.Sample: computes over reals, so 32-bit rounding of the fraction and of positions is not captured; nor are `reconcile` and the render delay.
- Locomotion.HorseKernel.Step: models the vertical motion and the terrain multiplier; gaits, steering, horizontal speed, sidestep and telemetry never feed back into them. Whether the ground is steep and what share of the speed it allows are inputs.
- Locomotion.HorseKernel.Reset: restores the vertical state and the terrain multiplier; gait, horizontal and telemetry fields are not part of the model.
- Locomotion.HorseKernel.ResolveMotion: takes finite motion only, and leaves the horizontal speeds out.
- Locomotion.HorseKernel.RecoverTerrain: takes the terrain's target share as an input; how surface and slope yield it, and the acceleration factor, only scale the horizontal motion.
- Flight.RecoveryDoesNotDependOnSteps: takes the exponential function as a parameter with two of its laws, and holds for a fixed target.
- Tuning values are the sanitized ones, over reals: rounding, infinities and NaN are not modelled.
- Policy.SemanticallyMatches: strings compare by character, which is the byte order of ASCII names; the sections the source never normalizes are compared as opaque values.
- Inventory.ListOrganizationTailnets: the server is any function of the request's number and cursor; HTTP, tokens and decoding are outside.
- WorkerQueue.Worker.HandleCommand: whether a send fails is an input, and the route a reply names is not modelled.
- WorkerQueue.Worker.RunWorker: threads appear as a schedule of moments between polls. Retries while closing are not modelled.
- PlaytestReport.ReportDoesNotDependOnOrder: the report holds the exact values before rounding to six digits, sorted lists appear as sets and maps, and the ratios that are quotients of counters already in the report are not repeated. Reals have no negative zero: the program does accept a sample of -0.0 beside one of 0.0, sorts them as equal, and may then print either, so the rendered text of such a report can depend on record order.
- Playtest.Absorb: records arrive as typed fields; reading files, JSON, flattening, the secret scan and the wording of errors are outside.
- Secret values are not zeroed in memory by the model.
- HTTP clients, OAuth, the clipboard, Godot nodes, weapons, dives and release scripts.
