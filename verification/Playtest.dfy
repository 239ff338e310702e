/** Folding playtest records into tables. Lists keep arrival order; nothing read from them later may depend on it. */
module Playtest {
  import opened Protocol
  import opened Folds

  // ---------------------------------------------------------------- records

  /** A numeric field: `None` when it is not a finite number of the required kind. */
  type Field = Option<int>

  type Slot = (string, int)

  datatype DiveKey = DiveKey(session: string, actor: string, dive: int)

  datatype DiveRow = DiveRow(
    finalized: bool, shots: Field, hits: Field, died: Option<bool>, clamped: bool, remount: Option<Field>)

  datatype Player = Player(slot: Field, score: Field, breakdown: map<string, Field>, winner: bool)

  datatype Event =
    | Unnamed
    | SessionStarted(timestamp: Field)
    | SessionTerminal(timestamp: Field, censored: bool)
    | DiveStarted(dive: Field)
    | DiveTerminal(dive: Field, row: DiveRow)
    | CombatShot(gallop: bool, accepted: bool, hit: bool)
    | Notification(text: string)
    | ReloadRejected(reason: string)
    | RenderSample(hz: Field, frame: Option<real>, linear: Option<real>, angular: Option<real>, repeated: bool)
    | Interval(slot: Field, start: Field, counters: map<string, Field>)
    | Spend(majestic: bool, slot: Field, tick: Field)
    | Remount(ticks: Field)
    | HorseLost(points: Field)
    | BountyInterval(counters: map<string, Field>, gap: Field)
    | MatchResult(players: seq<Player>)
    | Survey(choice: Option<bool>)
    | Unlisted

  datatype Record = Record(schema: Field, session: string, build: string, actor: string, event: Event)

  const NOTIFICATIONS: seq<string> :=
    ["AIRBORNE REVERSAL", "FLYING DISMOUNT", "FULL-GALLOP HIT", "SADDLE DIVE HEADSHOT"]

  const HORSE_COUNTERS: seq<string> :=
    ["mounted_ticks", "on_foot_ticks", "roll_ticks", "spook_stun_ticks", "horse_losses", "remounts",
     "running_mount_attempts", "running_remounts", "duel_wins", "on_foot_vs_mounted_duels",
     "on_foot_vs_mounted_wins", "post_spook_deaths"]

  const SPUR_COUNTERS: seq<string> :=
    ["charge_ticks", "full_spur_ticks", "charge_starts", "instant_returns", "charged_duels", "charged_duel_wins",
     "uncharged_duels", "uncharged_duel_wins", "spur_points_jump", "spur_points_clean_landing",
     "spur_points_near_miss", "spur_points_mounted_hit", "spur_points_mounted_elimination",
     "spur_points_saddle_dive_elimination"]

  const RIDING_COUNTERS := HORSE_COUNTERS + SPUR_COUNTERS

  const BOUNTY_COUNTERS: seq<string> :=
    ["alive_ticks", "dead_ticks", "reveal_ticks", "reveal_score_gain", "normal_score_gain",
     "encounter_ticks", "objective_proximity_ticks"]

  const SCORE_CATEGORIES: seq<string> :=
    ["elimination", "assist", "horse_bolt", "saddle_dive_bonus", "mounted_long_hit", "objective",
     "most_wanted_elimination", "most_wanted_survival"]

  // ---------------------------------------------------------------- tables

  datatype SessionRow = SessionRow(build: string, start: Option<int>, end: Option<int>, censored: bool)

  datatype Bucket = Bucket(frames: seq<real>, linear: seq<real>, angular: seq<real>, repeated: nat)

  datatype Scored = Scored(score: int, categories: multiset<string>, winner: bool)

  datatype Sessions = Sessions(rows: map<string, SessionRow>, actors: map<string, set<string>>, builds: set<string>)

  datatype Dives = Dives(starts: set<DiveKey>, terminals: map<DiveKey, DiveRow>, gallopShots: nat, gallopHits: nat)

  datatype Notes = Notes(counts: multiset<string>, bySession: map<string, set<string>>, reloads: multiset<string>)

  datatype Riding = Riding(
    counters: multiset<string>, remountTicks: seq<int>, bolts: nat,
    charges: multiset<Slot>, firstTick: map<Slot, int>, firstCharge: map<Slot, int>)

  datatype Bounty = Bounty(
    counters: multiset<string>, gaps: seq<int>, results: seq<seq<Scored>>, resultSessions: set<string>,
    survey: seq<bool>)

  datatype Tables = Tables(
    sessions: Sessions, dives: Dives, notes: Notes, render: map<int, Bucket>, riding: Riding, bounty: Bounty)

  const NO_TABLES := Tables(
    Sessions(map[], map[], {}), Dives({}, map[], 0, 0), Notes(multiset{}, map[], multiset{}), map[],
    Riding(multiset{}, [], 0, multiset{}, map[], map[]), Bounty(multiset{}, [], [], {}, []))

  const NO_BUCKET := Bucket([], [], [], 0)

  // ---------------------------------------------------------------- what a valid record is

  predicate AtLeast(field: Field, minimum: int) {
    field.Some? && field.value >= minimum
  }

  predicate NonNegative(number: Option<real>) {
    number.Some? && number.value >= 0.0
  }

  /** A field's value; the number read from a field that was found valid. */
  function Number(field: Field): int {
    if field.Some? then field.value else 0
  }

  function Count(field: Field): nat {
    if AtLeast(field, 0) then field.value else 0
  }

  predicate IsCommit(build: string) {
    |build| == 40 && forall i | 0 <= i < 40 :: '0' <= build[i] <= '9' || 'a' <= build[i] <= 'f'
  }

  function Value<K, V>(m: map<K, V>, key: K, default: V): V {
    if key in m then m[key] else default
  }

  predicate CountersAreValid(names: seq<string>, counters: map<string, Field>) {
    forall i | 0 <= i < |names| :: AtLeast(Value(counters, names[i], Some(0)), 0)
  }

  /** Every name as often as its counter says. */
  function Amounts(names: seq<string>, counters: map<string, Field>): multiset<string> {
    if names == [] then multiset{}
    else
      var last := |names| - 1;
      var rest := Amounts(names[..last], counters);
      rest + multiset{}[names[last] := Count(Value(counters, names[last], Some(0)))]
  }

  predicate PlayerIsValid(player: Player) {
    && AtLeast(player.slot, 0) && AtLeast(player.score, 0)
    && CountersAreValid(SCORE_CATEGORIES, player.breakdown)
    && |Amounts(SCORE_CATEGORIES, player.breakdown)| == player.score.value
  }

  function WinnerCount(players: seq<Player>): nat {
    if players == [] then 0
    else WinnerCount(players[..|players| - 1]) + if players[|players| - 1].winner then 1 else 0
  }

  predicate PlayersAreValid(players: seq<Player>) {
    && (forall i | 0 <= i < |players| :: PlayerIsValid(players[i]))
    && (forall i, j | 0 <= i < j < |players| :: players[i].slot != players[j].slot)
  }

  predicate ResultIsValid(players: seq<Player>) {
    players != [] && PlayersAreValid(players) && WinnerCount(players) == 1
  }

  function ScoredPlayer(player: Player): Scored {
    Scored(Number(player.score), Amounts(SCORE_CATEGORIES, player.breakdown), player.winner)
  }

  function ScoredPlayers(players: seq<Player>): (scored: seq<Scored>)
    ensures |scored| == |players|
  {
    seq(|players|, i requires 0 <= i < |players| => ScoredPlayer(players[i]))
  }

  predicate EventIsValid(actor: string, event: Event) {
    match event
    case Unnamed => false
    case SessionStarted(timestamp) => AtLeast(timestamp, 0)
    case SessionTerminal(timestamp, _) => AtLeast(timestamp, 0)
    case DiveStarted(dive) => actor != "" && AtLeast(dive, 1)
    case DiveTerminal(dive, _) => actor != "" && AtLeast(dive, 1)
    case RenderSample(hz, frame, linear, angular, _) =>
      AtLeast(hz, 1) && NonNegative(frame) && NonNegative(linear) && NonNegative(angular)
    case Interval(slot, start, counters) =>
      AtLeast(slot, -1) && AtLeast(start, 0) && CountersAreValid(RIDING_COUNTERS, counters)
    case Spend(majestic, slot, tick) => majestic ==> AtLeast(slot, -1) && AtLeast(tick, 0)
    case Remount(ticks) => AtLeast(ticks, -1)
    case HorseLost(points) => points == Some(15)
    case BountyInterval(counters, gap) => CountersAreValid(BOUNTY_COUNTERS, counters) && AtLeast(gap, 0)
    case MatchResult(players) => ResultIsValid(players)
    case Survey(choice) => choice.Some?
    case _ => true
  }

  predicate HeaderIsValid(record: Record) {
    record.schema == Some(1) && record.session != "" && IsCommit(record.build)
  }

  predicate RecordIsValid(record: Record) {
    HeaderIsValid(record) && EventIsValid(record.actor, record.event)
  }

  // ---------------------------------------------------------------- one record, table by table

  function RowWithEvent(row: SessionRow, event: Event): Option<SessionRow> {
    match event
    case SessionStarted(timestamp) =>
      if row.start.Some? then None else Some(row.(start := timestamp))
    case SessionTerminal(timestamp, censored) =>
      if row.end.Some? then None else Some(row.(end := timestamp, censored := censored))
    case _ => Some(row)
  }

  function Marked(marks: map<string, set<string>>, key: string, mark: string): map<string, set<string>> {
    marks[key := Value(marks, key, {}) + {mark}]
  }

  function WithActor(actors: map<string, set<string>>, record: Record): map<string, set<string>> {
    if record.actor == "" then actors
    else Marked(actors, record.session, record.actor)
  }

  function AddSession(sessions: Sessions, record: Record): Option<Sessions> {
    var row := Value(sessions.rows, record.session, SessionRow(record.build, None, None, false));
    if row.build != record.build then None
    else
      var filled := RowWithEvent(row, record.event);
      if filled.None? then None
      else Some(Sessions(sessions.rows[record.session := filled.value], WithActor(sessions.actors, record),
                         sessions.builds + {record.build}))
  }

  function KeyOf(record: Record, dive: Field): DiveKey {
    DiveKey(record.session, record.actor, Number(dive))
  }

  function AddDive(dives: Dives, record: Record): Option<Dives> {
    match record.event
    case DiveStarted(dive) =>
      var key := KeyOf(record, dive);
      if key in dives.starts then None else Some(dives.(starts := dives.starts + {key}))
    case DiveTerminal(dive, row) =>
      var key := KeyOf(record, dive);
      if key in dives.terminals then None else Some(dives.(terminals := dives.terminals[key := row]))
    case CombatShot(true, true, hit) =>
      Some(dives.(gallopShots := dives.gallopShots + 1, gallopHits := dives.gallopHits + if hit then 1 else 0))
    case _ => Some(dives)
  }

  function ReasonOf(reason: string): string {
    if reason == "" then "unknown" else reason
  }

  function AddNote(notes: Notes, record: Record): Notes {
    match record.event
    case Notification(text) =>
      if text !in NOTIFICATIONS then notes
      else
        notes.(counts := notes.counts + multiset{text}, bySession := Marked(notes.bySession, record.session, text))
    case ReloadRejected(reason) => notes.(reloads := notes.reloads + multiset{ReasonOf(reason)})
    case _ => notes
  }

  function Measure(number: Option<real>): real {
    if number.Some? then number.value else 0.0
  }

  function WithSample(bucket: Bucket, frame: real, linear: real, angular: real, repeated: bool): Bucket {
    Bucket(bucket.frames + [frame], bucket.linear + [linear], bucket.angular + [angular],
           bucket.repeated + if repeated then 1 else 0)
  }

  function Sampled(render: map<int, Bucket>, sample: Event): map<int, Bucket>
    requires sample.RenderSample?
  {
    var RenderSample(hz, frame, linear, angular, repeated) := sample;
    var bucket := Value(render, Number(hz), NO_BUCKET);
    render[Number(hz) := WithSample(bucket, Measure(frame), Measure(linear), Measure(angular), repeated)]
  }

  function AddSample(render: map<int, Bucket>, record: Record): map<int, Bucket> {
    if record.event.RenderSample? then Sampled(render, record.event) else render
  }

  function Earliest(ticks: map<Slot, int>, slot: Slot, tick: int): map<Slot, int> {
    var known := Value(ticks, slot, tick);
    ticks[slot := if tick < known then tick else known]
  }

  function RidingCounts(event: Event): multiset<string> {
    if event.Interval? then Amounts(RIDING_COUNTERS, event.counters) else multiset{}
  }

  function RemountTimes(event: Event): seq<int> {
    if event.Remount? && Number(event.ticks) >= 0 then [Number(event.ticks)] else []
  }

  function ChargeStarts(counters: map<string, Field>): Field {
    Value(counters, "charge_starts", Some(0))
  }

  function Charges(session: string, event: Event): multiset<Slot> {
    if event.Interval? && Number(event.slot) >= 0 then
      multiset{}[(session, Number(event.slot)) := Count(ChargeStarts(event.counters))]
    else multiset{}
  }

  function WithTick(ticks: map<Slot, int>, session: string, event: Event): map<Slot, int> {
    if event.Interval? && Number(event.slot) >= 0 then
      Earliest(ticks, (session, Number(event.slot)), Number(event.start))
    else ticks
  }

  function WithSpend(ticks: map<Slot, int>, session: string, event: Event): map<Slot, int> {
    if event.Spend? && event.majestic && Number(event.slot) >= 0 then
      Earliest(ticks, (session, Number(event.slot)), Number(event.tick))
    else ticks
  }

  function AddRiding(riding: Riding, record: Record): Riding {
    var session, event := record.session, record.event;
    Riding(riding.counters + RidingCounts(event), riding.remountTicks + RemountTimes(event),
           riding.bolts + (if event.HorseLost? then 1 else 0), riding.charges + Charges(session, event),
           WithTick(riding.firstTick, session, event), WithSpend(riding.firstCharge, session, event))
  }

  function BountyCounts(event: Event): multiset<string> {
    if event.BountyInterval? then Amounts(BOUNTY_COUNTERS, event.counters) else multiset{}
  }

  function Gaps(event: Event): seq<int> {
    if event.BountyInterval? then [Number(event.gap)] else []
  }

  function Results(event: Event): seq<seq<Scored>> {
    if event.MatchResult? then [ScoredPlayers(event.players)] else []
  }

  function ResultSessions(record: Record): set<string> {
    if record.event.MatchResult? then {record.session} else {}
  }

  function Choices(event: Event): seq<bool> {
    if event.Survey? then [event.choice == Some(true)] else []
  }

  function AddBounty(bounty: Bounty, record: Record): Option<Bounty> {
    var event := record.event;
    if !(ResultSessions(record) !! bounty.resultSessions) then None
    else Some(Bounty(bounty.counters + BountyCounts(event), bounty.gaps + Gaps(event), bounty.results + Results(event),
                     bounty.resultSessions + ResultSessions(record), bounty.survey + Choices(event)))
  }

  function Joined(
    sessions: Option<Sessions>, dives: Option<Dives>, notes: Notes, render: map<int, Bucket>, riding: Riding,
    bounty: Option<Bounty>): Option<Tables>
  {
    if sessions.None? || dives.None? || bounty.None? then None
    else Some(Tables(sessions.value, dives.value, notes, render, riding, bounty.value))
  }

  function Absorbed(tables: Tables, record: Record): Option<Tables> {
    if !RecordIsValid(record) then None
    else Joined(AddSession(tables.sessions, record), AddDive(tables.dives, record), AddNote(tables.notes, record),
                AddSample(tables.render, record), AddRiding(tables.riding, record), AddBounty(tables.bounty, record))
  }

  function Then(tables: Option<Tables>, record: Record): Option<Tables> {
    if tables.None? then None else Absorbed(tables.value, record)
  }

  function Collected(records: seq<Record>): Option<Tables> {
    Fold(Then, Some(NO_TABLES), records)
  }

  // ---------------------------------------------------------------- the loop

  /** Adds the named counters to `total`, or refuses them all when one is not a count. */
  method AddCounters(total: multiset<string>, names: seq<string>, counters: map<string, Field>)
    returns (sum: Option<multiset<string>>)
    ensures sum == if CountersAreValid(names, counters) then Some(total + Amounts(names, counters)) else None
  {
    var added := multiset{};
    for i := 0 to |names|
      invariant CountersAreValid(names[..i], counters) && added == Amounts(names[..i], counters)
    {
      var amount := Value(counters, names[i], Some(0));
      if !AtLeast(amount, 0) {
        assert !CountersAreValid(names, counters);
        return None;
      }
      assert names[..i + 1][..i] == names[..i];
      added := added + multiset{}[names[i] := amount.value];
    }
    assert names[..|names|] == names;
    return Some(total + added);
  }

  predicate SlotIsNew(players: seq<Player>, player: Player) {
    forall j | 0 <= j < |players| :: players[j].slot != player.slot
  }

  lemma OneMorePlayer(players: seq<Player>, i: nat)
    requires i < |players|
    ensures PlayersAreValid(players[..i + 1])
       <==> PlayersAreValid(players[..i]) && PlayerIsValid(players[i]) && SlotIsNew(players[..i], players[i])
    ensures PlayersAreValid(players) ==> PlayersAreValid(players[..i + 1])
  {
    var fewer, more := players[..i], players[..i + 1];
    assert more == fewer + [players[i]];
    if PlayersAreValid(more) {
      assert forall j | 0 <= j < i :: fewer[j] == more[j];
      assert more[i] == players[i];
    }
  }

  lemma ScoredExtends(players: seq<Player>, i: nat)
    requires i < |players| && PlayersAreValid(players[..i + 1]) && PlayersAreValid(players[..i])
    requires PlayerIsValid(players[i])
    ensures ScoredPlayers(players[..i + 1]) == ScoredPlayers(players[..i]) + [ScoredPlayer(players[i])]
  {
  }

  /** The rows of one match; refused unless slots are distinct, scores add up and one player won. */
  method ReadPlayers(players: seq<Player>) returns (scored: Option<seq<Scored>>)
    ensures scored == if ResultIsValid(players) then Some(ScoredPlayers(players)) else None
  {
    var normalized: seq<Scored>, slots: set<Field>, winners := [], {}, 0;
    for i := 0 to |players|
      invariant PlayersAreValid(players[..i]) && normalized == ScoredPlayers(players[..i])
      invariant slots == set j | 0 <= j < i :: players[j].slot
      invariant winners == WinnerCount(players[..i])
    {
      OneMorePlayer(players, i);
      var player := players[i];
      assert player.slot in slots <==> !SlotIsNew(players[..i], player);
      if player.slot in slots {
        return None;
      }
      var one := ReadPlayer(player);
      if one.None? {
        return None;
      }
      ScoredExtends(players, i);
      assert players[..i + 1][..i] == players[..i];
      slots := slots + {player.slot};
      winners := winners + if player.winner then 1 else 0;
      normalized := normalized + [one.value];
    }
    assert players[..|players|] == players;
    if players == [] || winners != 1 {
      return None;
    }
    return Some(normalized);
  }

  method ReadPlayer(player: Player) returns (scored: Option<Scored>)
    ensures scored == if PlayerIsValid(player) then Some(ScoredPlayer(player)) else None
  {
    if !AtLeast(player.slot, 0) || !AtLeast(player.score, 0) {
      return None;
    }
    var categories := AddCounters(multiset{}, SCORE_CATEGORIES, player.breakdown);
    assert categories.Some? ==> categories.value == Amounts(SCORE_CATEGORIES, player.breakdown);
    if categories.None? || |categories.value| != player.score.value {
      return None;
    }
    return Some(Scored(player.score.value, categories.value, player.winner));
  }

  /** The row of a record's session once the record is counted; `None` when the session contradicts it. */
  method AbsorbSession(sessions: Sessions, record: Record) returns (after: Option<Sessions>)
    ensures after == AddSession(sessions, record)
  {
    var rows, actors := sessions.rows, sessions.actors;
    if record.session !in rows {
      rows := rows[record.session := SessionRow(record.build, None, None, false)];
    }
    var row := rows[record.session];
    if row.build != record.build {
      return None;
    }
    if record.actor != "" {
      if record.session !in actors {
        actors := actors[record.session := {}];
      }
      actors := actors[record.session := actors[record.session] + {record.actor}];
    }
    assert actors == WithActor(sessions.actors, record);
    match record.event {
      case SessionStarted(timestamp) =>
        if row.start.Some? {
          return None;
        }
        row := row.(start := timestamp);
      case SessionTerminal(timestamp, censored) =>
        if row.end.Some? {
          return None;
        }
        row := row.(end := timestamp, censored := censored);
      case _ =>
    }
    assert rows[record.session := row] == sessions.rows[record.session := row];
    return Some(Sessions(rows[record.session := row], actors, sessions.builds + {record.build}));
  }

  method AbsorbDive(dives: Dives, record: Record) returns (after: Option<Dives>)
    requires RecordIsValid(record)
    requires record.event.DiveStarted? || record.event.DiveTerminal? || record.event.CombatShot?
    ensures after == AddDive(dives, record)
  {
    match record.event {
      case DiveStarted(dive) =>
        var key := KeyOf(record, dive);
        if key in dives.starts {
          return None;
        }
        return Some(dives.(starts := dives.starts + {key}));
      case DiveTerminal(dive, row) =>
        var key := KeyOf(record, dive);
        if key in dives.terminals {
          return None;
        }
        return Some(dives.(terminals := dives.terminals[key := row]));
      case CombatShot(gallop, accepted, hit) =>
        var changed := dives;
        if gallop && accepted {
          changed := changed.(gallopShots := changed.gallopShots + 1);
          changed := changed.(gallopHits := changed.gallopHits + if hit then 1 else 0);
        }
        return Some(changed);
    }
  }

  method AbsorbSample(render: map<int, Bucket>, record: Record) returns (after: map<int, Bucket>)
    requires RecordIsValid(record) && record.event.RenderSample?
    ensures after == AddSample(render, record)
  {
    var hz, sample := record.event.hz.value, record.event;
    after := render;
    if hz !in after {
      after := after[hz := NO_BUCKET];
    }
    var bucket := after[hz];
    bucket := bucket.(frames := bucket.frames + [sample.frame.value]);
    bucket := bucket.(linear := bucket.linear + [sample.linear.value]);
    bucket := bucket.(angular := bucket.angular + [sample.angular.value]);
    if sample.repeated {
      bucket := bucket.(repeated := bucket.repeated + 1);
    }
    after := after[hz := bucket];
  }

  /** An interval counts for its actor before its counters are read, so any refusal leaves nothing behind. */
  method AbsorbInterval(riding: Riding, record: Record) returns (after: Option<Riding>)
    requires HeaderIsValid(record) && record.event.Interval?
    ensures after == if RecordIsValid(record) then Some(AddRiding(riding, record)) else None
  {
    var Interval(slot, start, counters) := record.event;
    if !AtLeast(slot, -1) || !AtLeast(start, 0) {
      return None;
    }
    var changed := riding;
    if slot.value >= 0 {
      var charges := ChargeStarts(counters);
      if !AtLeast(charges, 0) {
        assert RIDING_COUNTERS[14] == "charge_starts";
        return None;
      }
      var key := (record.session, slot.value);
      changed := changed.(firstTick := Earliest(changed.firstTick, key, start.value));
      changed := changed.(charges := changed.charges + multiset{}[key := charges.value]);
    }
    var total := AddCounters(changed.counters, RIDING_COUNTERS, counters);
    if total.None? {
      return None;
    }
    assert riding.charges + multiset{} == riding.charges && riding.remountTicks + [] == riding.remountTicks;
    return Some(changed.(counters := total.value));
  }

  method AbsorbBounty(bounty: Bounty, record: Record) returns (after: Option<Bounty>)
    requires HeaderIsValid(record)
    requires record.event.BountyInterval? || record.event.MatchResult? || record.event.Survey?
    ensures after == if RecordIsValid(record) then AddBounty(bounty, record) else None
  {
    assert bounty.counters + multiset{} == bounty.counters && bounty.resultSessions + {} == bounty.resultSessions;
    assert bounty.gaps + [] == bounty.gaps && bounty.results + [] == bounty.results;
    assert bounty.survey + [] == bounty.survey;
    match record.event {
      case BountyInterval(counters, gap) =>
        var total := AddCounters(bounty.counters, BOUNTY_COUNTERS, counters);
        if total.None? || !AtLeast(gap, 0) {
          return None;
        }
        return Some(bounty.(counters := total.value, gaps := bounty.gaps + [gap.value]));
      case MatchResult(players) =>
        if record.session in bounty.resultSessions {
          return None;
        }
        var scored := ReadPlayers(players);
        if scored.None? {
          return None;
        }
        return Some(bounty.(results := bounty.results + [scored.value],
                            resultSessions := bounty.resultSessions + {record.session}));
      case Survey(choice) =>
        if choice.None? {
          return None;
        }
        assert choice.value == (choice == Some(true));
        return Some(bounty.(survey := bounty.survey + [choice.value]));
    }
  }

  lemma OtherEventsLeaveRidingAndBounty(riding: Riding, bounty: Bounty, record: Record)
    ensures !record.event.Interval? && !record.event.Spend? && !record.event.Remount? && !record.event.HorseLost? ==>
              AddRiding(riding, record) == riding
    ensures !record.event.BountyInterval? && !record.event.MatchResult? && !record.event.Survey? ==>
              AddBounty(bounty, record) == Some(bounty)
  {
    assert riding.counters + multiset{} == riding.counters && riding.charges + multiset{} == riding.charges;
    assert riding.remountTicks + [] == riding.remountTicks;
    assert bounty.counters + multiset{} == bounty.counters && bounty.resultSessions + {} == bounty.resultSessions;
    assert bounty.gaps + [] == bounty.gaps && bounty.results + [] == bounty.results;
    assert bounty.survey + [] == bounty.survey;
  }

  /** One turn of the loop; `None` refuses the input. */
  method Absorb(tables: Tables, record: Record) returns (after: Option<Tables>)
    ensures after == Absorbed(tables, record)
  {
    if record.event.Unnamed? || !HeaderIsValid(record) {
      return None;
    }
    var sessions := AbsorbSession(tables.sessions, record);
    if sessions.None? {
      return None;
    }
    var changed := tables.(sessions := sessions.value);
    OtherEventsLeaveRidingAndBounty(tables.riding, tables.bounty, record);
    if record.event.Interval? {
      var riding := AbsorbInterval(changed.riding, record);
      return if riding.None? then None else Some(changed.(riding := riding.value));
    }
    if record.event.BountyInterval? || record.event.MatchResult? || record.event.Survey? {
      var bounty := AbsorbBounty(changed.bounty, record);
      return if bounty.None? then None else Some(changed.(bounty := bounty.value));
    }
    if !EventIsValid(record.actor, record.event) {
      return None;
    }
    if record.event.RenderSample? {
      var render := AbsorbSample(changed.render, record);
      return Some(changed.(render := render));
    }
    if record.event.DiveStarted? || record.event.DiveTerminal? || record.event.CombatShot? {
      var dives := AbsorbDive(changed.dives, record);
      return if dives.None? then None else Some(changed.(dives := dives.value));
    }
    return Some(changed.(notes := AddNote(changed.notes, record), riding := AddRiding(changed.riding, record)));
  }

  method Collect(records: seq<Record>) returns (tables: Option<Tables>)
    ensures tables == Collected(records)
  {
    var collected := NO_TABLES;
    for i := 0 to |records|
      invariant Collected(records[..i]) == Some(collected)
    {
      var next := Absorb(collected, records[i]);
      assert records[..i + 1][..i] == records[..i];
      if next.None? {
        RefusalsStay(records, i + 1);
        return None;
      }
      collected := next.value;
    }
    assert records[..|records|] == records;
    return Some(collected);
  }

  /** Once a prefix is refused every longer input is. */
  lemma {:induction false} RefusalsStay(records: seq<Record>, n: nat)
    requires n <= |records| && Collected(records[..n]).None?
    ensures Collected(records).None?
  {
    if n == |records| {
      assert records[..n] == records;
    } else {
      var shorter := records[..|records| - 1];
      assert shorter[..n] == records[..n];
      RefusalsStay(shorter, n);
    }
  }
}
