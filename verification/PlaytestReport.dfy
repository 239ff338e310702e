/** The report drawn from the tables: what it says about the records, and that their order cannot change it. */
module PlaytestReport {
  import opened Protocol
  import opened Ordering
  import opened Folds
  import opened Statistics
  import opened Playtest
  import opened PlaytestOrder

  datatype Warning = DivesLackTerminal(count: nat) | TerminalsLackStart(count: nat) | SessionLacksPair(session: string)

  datatype SessionReport = SessionReport(build: string, duration: int, censored: bool, actors: set<string>)

  datatype DiveReport = DiveReport(
    terminal: nat, finalized: nat, censored: int, shots: int, hits: int, hitRate: Option<real>,
    gallopShots: nat, gallopHits: nat, gallopRate: Option<real>, uplift: Option<real>,
    deathsKnown: nat, deathRate: Option<real>, clampShare: Option<real>, remountMedian: Option<real>)

  datatype RenderReport = RenderReport(
    samples: nat, repeated: nat, frameMiddle: Option<real>, frameHigh: Option<real>,
    linearHigh: Option<real>, angularHigh: Option<real>)

  datatype RidingReport = RidingReport(
    counters: multiset<string>, bolts: nat, remountMedian: Option<real>,
    chargeMedian: Option<real>, chargeHigh: Option<int>, firstChargeMedian: Option<real>)

  datatype BountyReport = BountyReport(
    counters: multiset<string>, matches: nat, winnerScoreMedian: Option<real>, scoreOnTarget: nat,
    categoryMedian: Option<real>, winnerCategoryMedian: Option<real>, totalScore: int, objectiveScore: int,
    longestGap: Option<int>, longGaps: nat, responses: nat, playAgain: nat)

  datatype Integrity = Integrity(
    accepted: nat, terminalWithoutStart: nat, acceptedWithoutTerminal: nat, warnings: set<Warning>)

  datatype Report = Report(
    builds: set<string>, sessions: map<string, SessionReport>, playerTime: int, dives: DiveReport,
    notifications: multiset<string>, coveredEarly: bool, reloads: multiset<string>,
    render: map<int, RenderReport>, riding: RidingReport, bounty: BountyReport, integrity: Integrity)

  // ---------------------------------------------------------------- sessions and integrity

  function Ratio(part: int, whole: int): Option<real> {
    if whole == 0 then None else Some(part as real / whole as real)
  }

  predicate IsPaired(row: SessionRow) {
    row.start.Some? && row.end.Some? && row.start.value <= row.end.value
  }

  function Duration(row: SessionRow): int {
    if IsPaired(row) then row.end.value - row.start.value else 0
  }

  function SessionReports(sessions: Sessions): map<string, SessionReport> {
    map id | id in sessions.rows ::
      var row := sessions.rows[id];
      SessionReport(row.build, Duration(row), row.censored, Value(sessions.actors, id, {}))
  }

  function TimePlayed(s: SessionReport): seq<int> {
    [s.duration * |s.actors|]
  }

  ghost function PlayerTime(sessions: Sessions): int {
    Sum(FlatMap(TimePlayed, Listed(SessionReports(sessions))))
  }

  function Unfinished(dives: Dives): set<DiveKey> {
    dives.starts - dives.terminals.Keys
  }

  function Unstarted(dives: Dives): set<DiveKey> {
    dives.terminals.Keys - dives.starts
  }

  function DiveWarnings(dives: Dives): set<Warning> {
    (if Unfinished(dives) == {} then {} else {DivesLackTerminal(|Unfinished(dives)|)})
    + (if Unstarted(dives) == {} then {} else {TerminalsLackStart(|Unstarted(dives)|)})
  }

  function SessionWarnings(rows: map<string, SessionRow>): set<Warning> {
    set id | id in rows && !IsPaired(rows[id]) :: SessionLacksPair(id)
  }

  function Warnings(dives: Dives, rows: map<string, SessionRow>): set<Warning> {
    DiveWarnings(dives) + SessionWarnings(rows)
  }

  /** Sessions in time order, unstarted ones last, ties by identifier. */
  predicate StartsBefore(rows: map<string, SessionRow>, a: string, b: string)
    requires a in rows && b in rows
  {
    var x, y := rows[a].start, rows[b].start;
    if x == y then a != b && Precedes((c: char, d: char) => c <= d, a, b)
    else x.Some? && (y.None? || x.value < y.value)
  }

  predicate IsEarly(rows: map<string, SessionRow>, id: string)
    requires id in rows
  {
    |set other | other in rows && StartsBefore(rows, other, id)| < 3
  }

  predicate SeenEarly(rows: map<string, SessionRow>, bySession: map<string, set<string>>, text: string) {
    exists id | id in rows :: IsEarly(rows, id) && text in Value(bySession, id, {})
  }

  predicate CoveredEarly(rows: map<string, SessionRow>, bySession: map<string, set<string>>) {
    forall text | text in NOTIFICATIONS :: SeenEarly(rows, bySession, text)
  }

  // ---------------------------------------------------------------- metrics

  predicate DiveRowIsValid(row: DiveRow) {
    AtLeast(row.shots, 0) && AtLeast(row.hits, 0) && (row.remount.Some? ==> AtLeast(row.remount.value, 0))
  }

  function RemountTime(row: DiveRow): seq<int> {
    if row.remount.Some? then [Number(row.remount.value)] else []
  }

  function Uplift(airborne: Option<real>, gallop: Option<real>): Option<real> {
    if airborne.Some? && gallop.Some? && gallop.value != 0.0 then
      Some((airborne.value / gallop.value - 1.0) * 100.0)
    else None
  }

  function ShotCount(row: DiveRow): seq<int> {
    [Number(row.shots)]
  }

  function HitCount(row: DiveRow): seq<int> {
    [Number(row.hits)]
  }

  function KnownDeath(row: DiveRow): seq<bool> {
    if row.died.Some? then [row.died.value] else []
  }

  function WasClamped(row: DiveRow): seq<bool> {
    [row.clamped]
  }

  function WasFinalized(row: DiveRow): seq<bool> {
    [row.finalized]
  }

  function Trues(flags: seq<bool>): nat {
    |FlatMap(Agreed, flags)|
  }

  function DiveReportOf(rows: seq<DiveRow>, gallopShots: nat, gallopHits: nat): DiveReport {
    var shots, hits := Sum(FlatMap(ShotCount, rows)), Sum(FlatMap(HitCount, rows));
    var finalized, deaths := FlatMap(WasFinalized, rows), FlatMap(KnownDeath, rows);
    DiveReport(
      |rows|, Trues(finalized), |rows| - Trues(finalized),
      shots, hits, Ratio(hits, shots), gallopShots, gallopHits, Ratio(gallopHits, gallopShots),
      Uplift(Ratio(hits, shots), Ratio(gallopHits, gallopShots)),
      |deaths|, Ratio(Trues(deaths), |deaths|), Ratio(Trues(FlatMap(WasClamped, rows)), |rows|),
      Median(FlatMap(RemountTime, rows)))
  }

  ghost function DiveMetrics(dives: Dives): DiveReport {
    DiveReportOf(Listed(dives.terminals), dives.gallopShots, dives.gallopHits)
  }

  function BucketReport(bucket: Bucket): RenderReport {
    RenderReport(
      |bucket.frames|, bucket.repeated,
      Percentile(LEQ_REAL, bucket.frames, 0.50), Percentile(LEQ_REAL, bucket.frames, 0.95),
      Percentile(LEQ_REAL, bucket.linear, 0.95), Percentile(LEQ_REAL, bucket.angular, 0.95))
  }

  function RenderReports(render: map<int, Bucket>): map<int, RenderReport> {
    map hz | hz in render :: BucketReport(render[hz])
  }

  function ChargesBySlot(riding: Riding): map<Slot, int> {
    map slot | slot in riding.firstTick :: riding.charges[slot]
  }

  function DelaysBySlot(riding: Riding): map<Slot, int> {
    map slot |
      slot in riding.firstCharge && slot in riding.firstTick && riding.firstCharge[slot] >= riding.firstTick[slot] ::
        riding.firstCharge[slot] - riding.firstTick[slot]
  }

  ghost function RidingMetrics(riding: Riding): RidingReport {
    var charges, delays := Listed(ChargesBySlot(riding)), Listed(DelaysBySlot(riding));
    RidingReport(riding.counters, riding.bolts, Median(riding.remountTicks),
                 Median(charges), Percentile(LEQ_INT, charges, 0.75), Median(delays))
  }

  function WinnerScore(player: Scored): seq<int> {
    if player.winner then [player.score] else []
  }

  function WinnerOnTarget(player: Scored): seq<int> {
    if player.winner && 400 <= player.score <= 800 then [player.score] else []
  }

  function CategoryCount(player: Scored): seq<int> {
    [|set name | name in player.categories && name != "elimination"|]
  }

  function WinnerCategoryCount(player: Scored): seq<int> {
    if player.winner then CategoryCount(player) else []
  }

  function ScoreOf(player: Scored): seq<int> {
    [player.score]
  }

  function ObjectiveScore(player: Scored): seq<int> {
    [player.categories["objective"] as int]
  }

  /** One figure of each player of a match. */
  function OfEach(figure: Scored -> seq<int>): seq<Scored> -> seq<int> {
    players => FlatMap(figure, players)
  }

  function FromMatches(figure: Scored -> seq<int>, results: seq<seq<Scored>>): seq<int> {
    FlatMap(OfEach(figure), results)
  }

  function BountyMetrics(bounty: Bounty): BountyReport {
    var results := bounty.results;
    BountyReport(
      bounty.counters, |results|, Median(FromMatches(WinnerScore, results)), |FromMatches(WinnerOnTarget, results)|,
      Median(FromMatches(CategoryCount, results)), Median(FromMatches(WinnerCategoryCount, results)),
      Sum(FromMatches(ScoreOf, results)), Sum(FromMatches(ObjectiveScore, results)),
      Largest(bounty.gaps), |FlatMap(LongGap, bounty.gaps)|, |bounty.survey|, |FlatMap(Agreed, bounty.survey)|)
  }

  /** A gap of more than 90 seconds at 60 ticks a second. */
  function LongGap(gap: int): seq<int> {
    if gap > 90 * 60 then [gap] else []
  }

  function Agreed(choice: bool): seq<bool> {
    if choice then [choice] else []
  }

  // ---------------------------------------------------------------- the report

  ghost predicate IsRefused(dives: Dives, rows: map<string, SessionRow>, strict: bool) {
    || (strict && Warnings(dives, rows) != {})
    || exists key | key in dives.terminals :: !DiveRowIsValid(dives.terminals[key])
  }

  function IntegrityOf(dives: Dives, rows: map<string, SessionRow>): Integrity {
    Integrity(|dives.starts|, |Unstarted(dives)|, |Unfinished(dives)|, Warnings(dives, rows))
  }

  ghost function Drawn(
    sessions: Sessions, dives: Dives, notes: Notes, render: map<int, RenderReport>, riding: RidingReport,
    bounty: BountyReport): Report
  {
    Report(sessions.builds, SessionReports(sessions), PlayerTime(sessions), DiveMetrics(dives),
           notes.counts, CoveredEarly(sessions.rows, notes.bySession), notes.reloads,
           render, riding, bounty, IntegrityOf(dives, sessions.rows))
  }

  /** `None` when strictness or a malformed dive row refuses the tables. */
  ghost function Reported(tables: Tables, strict: bool): Option<Report> {
    if IsRefused(tables.dives, tables.sessions.rows, strict) then None
    else
      Some(Drawn(tables.sessions, tables.dives, tables.notes,
                 RenderReports(tables.render), RidingMetrics(tables.riding), BountyMetrics(tables.bounty)))
  }

  ghost function Aggregated(records: seq<Record>, strict: bool): Option<Report> {
    var tables := Collected(records);
    if tables.None? then None else Reported(tables.value, strict)
  }

  // ---------------------------------------------------------------- order cannot change the report

  lemma SameLength<T>(xs: seq<T>, ys: seq<T>)
    requires multiset(xs) == multiset(ys)
    ensures |xs| == |ys|
  {
    assert |multiset(xs)| == |multiset(ys)|;
  }

  lemma SameBucketsReportAlike(a: Bucket, b: Bucket)
    requires SameBucket(a, b)
    ensures BucketReport(a) == BucketReport(b)
  {
    SameLength(a.frames, b.frames);
    PermutationsSharePercentile(LEQ_REAL, a.frames, b.frames, 0.50);
    PermutationsSharePercentile(LEQ_REAL, a.frames, b.frames, 0.95);
    PermutationsSharePercentile(LEQ_REAL, a.linear, b.linear, 0.95);
    PermutationsSharePercentile(LEQ_REAL, a.angular, b.angular, 0.95);
  }

  lemma SameRenderReportsAlike(a: map<int, Bucket>, b: map<int, Bucket>)
    requires SameRender(a, b)
    ensures RenderReports(a) == RenderReports(b)
  {
    forall hz | hz in a ensures BucketReport(a[hz]) == BucketReport(b[hz]) {
      SameBucketsReportAlike(a[hz], b[hz]);
    }
  }

  lemma FlattenedAlike<T(!new)>(f: T -> seq<int>, xs: seq<T>, ys: seq<T>)
    requires multiset(xs) == multiset(ys)
    ensures Median(FlatMap(f, xs)) == Median(FlatMap(f, ys)) && Sum(FlatMap(f, xs)) == Sum(FlatMap(f, ys))
    ensures |FlatMap(f, xs)| == |FlatMap(f, ys)|
  {
    FlatMapPermutes(f, xs, ys);
    PermutationsShareMiddleAndLargest(FlatMap(f, xs), FlatMap(f, ys));
    SumPermutes(FlatMap(f, xs), FlatMap(f, ys));
    SameLength(FlatMap(f, xs), FlatMap(f, ys));
  }

  lemma SameBountyReportsAlike(a: Bounty, b: Bounty)
    requires SameBounty(a, b)
    ensures BountyMetrics(a) == BountyMetrics(b)
  {
    SameLength(a.results, b.results);
    SameLength(a.survey, b.survey);
    FlattenedAlike(OfEach(WinnerScore), a.results, b.results);
    FlattenedAlike(OfEach(WinnerOnTarget), a.results, b.results);
    FlattenedAlike(OfEach(CategoryCount), a.results, b.results);
    FlattenedAlike(OfEach(WinnerCategoryCount), a.results, b.results);
    FlattenedAlike(OfEach(ScoreOf), a.results, b.results);
    FlattenedAlike(OfEach(ObjectiveScore), a.results, b.results);
    PermutationsShareMiddleAndLargest(a.gaps, b.gaps);
    FlattenedAlike(LongGap, a.gaps, b.gaps);
    FlatMapPermutes(Agreed, a.survey, b.survey);
    SameLength(FlatMap(Agreed, a.survey), FlatMap(Agreed, b.survey));
  }

  lemma SameRidingReportsAlike(a: Riding, b: Riding)
    requires SameRiding(a, b)
    ensures RidingMetrics(a) == RidingMetrics(b)
  {
    PermutationsShareMiddleAndLargest(a.remountTicks, b.remountTicks);
    assert a.firstTick == b.firstTick && a.firstCharge == b.firstCharge && a.charges == b.charges;
  }

  lemma SameTablesReportAlike(a: Tables, b: Tables, strict: bool)
    requires Same(a, b)
    ensures Reported(a, strict) == Reported(b, strict)
  {
    SameRenderReportsAlike(a.render, b.render);
    SameRidingReportsAlike(a.riding, b.riding);
    SameBountyReportsAlike(a.bounty, b.bounty);
  }

  /** Any permutation of the records is refused alike or yields the very same report. */
  lemma ReportDoesNotDependOnOrder(xs: seq<Record>, ys: seq<Record>, strict: bool)
    requires multiset(xs) == multiset(ys)
    ensures Aggregated(xs, strict) == Aggregated(ys, strict)
  {
    PermutationsCollectAlike(xs, ys);
    if Collected(xs).Some? {
      SameTablesReportAlike(Collected(xs).value, Collected(ys).value, strict);
    }
  }

  // ---------------------------------------------------------------- what the dive counts mean

  lemma DifferencesBalance<T>(a: set<T>, b: set<T>)
    ensures |a| - |a - b| == |b| - |b - a|
  {
    assert a == (a - b) + a * b && b == (b - a) + a * b;
  }

  function Dived(record: Record): seq<Record> {
    if record.event.DiveStarted? then [record] else []
  }

  function Landed(record: Record): seq<Record> {
    if record.event.DiveTerminal? then [record] else []
  }

  function Galloped(record: Record): seq<Record> {
    if record.event.CombatShot? && record.event.gallop && record.event.accepted then [record] else []
  }

  ghost predicate CountsRecords(dives: Dives, started: int, ended: int, shots: int) {
    |dives.starts| == started && |dives.terminals| == ended && dives.gallopHits <= dives.gallopShots == shots
  }

  lemma OneMoreDive(dives: Dives, record: Record, started: int, ended: int, shots: int)
    requires CountsRecords(dives, started, ended, shots) && AddDive(dives, record).Some?
    ensures CountsRecords(AddDive(dives, record).value, started + |Dived(record)|, ended + |Landed(record)|,
                          shots + |Galloped(record)|)
  {
  }

  lemma LastCollected(records: seq<Record>)
    requires records != [] && Collected(records).Some?
    ensures var before, last := Collected(records[..|records| - 1]), records[|records| - 1];
            before.Some? && AddDive(before.value.dives, last) == Some(Collected(records).value.dives)
  {
  }

  ghost predicate CountsAll(dives: Dives, records: seq<Record>) {
    CountsRecords(dives, |FlatMap(Dived, records)|, |FlatMap(Landed, records)|, |FlatMap(Galloped, records)|)
  }

  lemma CountsOneMore(dives: Dives, before: seq<Record>, last: Record)
    requires CountsAll(dives, before) && AddDive(dives, last).Some?
    ensures CountsAll(AddDive(dives, last).value, before + [last])
  {
    OneMoreDive(dives, last, |FlatMap(Dived, before)|, |FlatMap(Landed, before)|, |FlatMap(Galloped, before)|);
    LastMapped(Dived, before, last);
    LastMapped(Landed, before, last);
    LastMapped(Galloped, before, last);
  }

  lemma {:induction false} DivesCountTheRecords(records: seq<Record>)
    requires Collected(records).Some?
    ensures CountsAll(Collected(records).value.dives, records)
  {
    if records != [] {
      var before, last := records[..|records| - 1], records[|records| - 1];
      LastCollected(records);
      DivesCountTheRecords(before);
      CountsOneMore(Collected(before).value.dives, before, last);
      assert records == before + [last];
    }
  }

  lemma IntegrityBalances(dives: Dives, rows: map<string, SessionRow>)
    ensures var integrity := IntegrityOf(dives, rows);
            && integrity.accepted - integrity.acceptedWithoutTerminal
               == |dives.terminals| - integrity.terminalWithoutStart
            && (integrity.warnings == {} ==> integrity.accepted == |dives.terminals|)
  {
    DifferencesBalance(dives.starts, dives.terminals.Keys);
    assert |dives.terminals.Keys| == |dives.terminals|;
    assert Unfinished(dives) != {} ==> DivesLackTerminal(|Unfinished(dives)|) in Warnings(dives, rows);
    assert Unstarted(dives) != {} ==> TerminalsLackStart(|Unstarted(dives)|) in Warnings(dives, rows);
  }

  /** Accepted dives less those without an end are the ended dives less those without a start. */
  lemma DiveCountsBalance(records: seq<Record>, strict: bool)
    requires Aggregated(records, strict).Some?
    ensures var report := Aggregated(records, strict).value;
            var dives, integrity := report.dives, report.integrity;
            && integrity.accepted - integrity.acceptedWithoutTerminal == dives.terminal - integrity.terminalWithoutStart
            && dives.finalized + dives.censored == dives.terminal
            && integrity.accepted == |FlatMap(Dived, records)| && dives.terminal == |FlatMap(Landed, records)|
            && dives.gallopHits <= dives.gallopShots == |FlatMap(Galloped, records)|
            && (strict ==> integrity.accepted == dives.terminal && integrity.warnings == {})
  {
    DivesCountTheRecords(records);
    var tables := Collected(records).value;
    IntegrityBalances(tables.dives, tables.sessions.rows);
    ListedIsAsLong(tables.dives.terminals);
  }

  // ---------------------------------------------------------------- when records are refused

  predicate SessionConflict(a: Record, b: Record) {
    && a.session == b.session
    && (|| a.build != b.build
        || (a.event.SessionStarted? && b.event.SessionStarted?)
        || (a.event.SessionTerminal? && b.event.SessionTerminal?))
  }

  predicate DiveConflict(a: Record, b: Record) {
    || (a.event.DiveStarted? && b.event.DiveStarted? && KeyOf(a, a.event.dive) == KeyOf(b, b.event.dive))
    || (a.event.DiveTerminal? && b.event.DiveTerminal? && KeyOf(a, a.event.dive) == KeyOf(b, b.event.dive))
  }

  predicate ResultConflict(a: Record, b: Record) {
    a.event.MatchResult? && b.event.MatchResult? && a.session == b.session
  }

  /** Two records that no input may hold together. */
  predicate Conflict(a: Record, b: Record) {
    SessionConflict(a, b) || DiveConflict(a, b) || ResultConflict(a, b)
  }

  ghost predicate NoConflicts(records: seq<Record>) {
    && (forall i | 0 <= i < |records| :: RecordIsValid(records[i]))
    && (forall i, j | 0 <= i < j < |records| :: !Conflict(records[i], records[j]))
  }

  predicate Accepts(tables: Option<Tables>, next: Record) {
    Then(tables, next).Some?
  }

  ghost predicate ConflictsWithNone(records: seq<Record>, next: Record) {
    forall i | 0 <= i < |records| :: !Conflict(records[i], next)
  }

  /** The tables refuse exactly what conflicts with a record they hold. */
  ghost predicate Guards(tables: Option<Tables>, records: seq<Record>) {
    forall next: Record | RecordIsValid(next) :: Accepts(tables, next) <==> ConflictsWithNone(records, next)
  }

  lemma SessionsGuard(sessions: Sessions, record: Record, next: Record)
    requires IsDated(record.event) && AddSession(sessions, record).Some?
    ensures ThenSession(AddSession(sessions, record), next).Some?
       <==> AddSession(sessions, next).Some? && !SessionConflict(record, next)
  {
  }

  lemma DivesGuard(dives: Dives, record: Record, next: Record)
    requires AddDive(dives, record).Some?
    ensures ThenDive(AddDive(dives, record), next).Some? <==> AddDive(dives, next).Some? && !DiveConflict(record, next)
  {
  }

  lemma ResultsGuard(bounty: Bounty, record: Record, next: Record)
    requires AddBounty(bounty, record).Some?
    ensures ThenBounty(AddBounty(bounty, record), next).Some?
       <==> AddBounty(bounty, next).Some? && !ResultConflict(record, next)
  {
  }

  lemma OneMoreGuarded(tables: Option<Tables>, record: Record, next: Record)
    requires RecordIsValid(record) && RecordIsValid(next) && Accepts(tables, record)
    ensures Accepts(Then(tables, record), next) <==> Accepts(tables, next) && !Conflict(record, next)
  {
    var t := tables.value;
    TwoRecords(t, record, next);
    SessionsGuard(t.sessions, record, next);
    DivesGuard(t.dives, record, next);
    ResultsGuard(t.bounty, record, next);
  }

  lemma ConflictsOneMore(before: seq<Record>, last: Record, next: Record)
    ensures ConflictsWithNone(before + [last], next) <==> ConflictsWithNone(before, next) && !Conflict(last, next)
  {
    var records := before + [last];
    assert forall i | 0 <= i < |before| :: records[i] == before[i];
    assert records[|before|] == last;
  }

  lemma NextIsGuarded(tables: Option<Tables>, before: seq<Record>, last: Record, next: Record)
    requires RecordIsValid(last) && RecordIsValid(next) && Accepts(tables, last)
    requires Accepts(tables, next) <==> ConflictsWithNone(before, next)
    ensures Accepts(Then(tables, last), next) <==> ConflictsWithNone(before + [last], next)
  {
    OneMoreGuarded(tables, last, next);
    ConflictsOneMore(before, last, next);
  }

  lemma GuardsOneMore(tables: Option<Tables>, before: seq<Record>, last: Record)
    requires RecordIsValid(last) && Accepts(tables, last) && Guards(tables, before)
    ensures Guards(Then(tables, last), before + [last])
  {
    forall next: Record | RecordIsValid(next)
      ensures Accepts(Then(tables, last), next) <==> ConflictsWithNone(before + [last], next)
    {
      NextIsGuarded(tables, before, last, next);
    }
  }

  lemma NothingConflictsYet()
    ensures Guards(Collected([]), [])
  {
  }

  lemma NoConflictsOneMore(before: seq<Record>, last: Record)
    ensures NoConflicts(before + [last])
       <==> NoConflicts(before) && RecordIsValid(last) && forall i | 0 <= i < |before| :: !Conflict(before[i], last)
  {
    var records := before + [last];
    assert forall i | 0 <= i < |before| :: records[i] == before[i];
    assert records[|before|] == last;
  }

  /** Records are collected exactly when each is valid and no two contradict each other. */
  lemma {:induction false} CollectsExactlyWhen(records: seq<Record>)
    ensures Collected(records).Some? <==> NoConflicts(records)
    ensures Collected(records).Some? ==> Guards(Collected(records), records)
  {
    if records == [] {
      NothingConflictsYet();
    } else {
      var before, last := records[..|records| - 1], records[|records| - 1];
      assert records == before + [last];
      CollectsExactlyWhen(before);
      NoConflictsOneMore(before, last);
      FoldLast(Then, Some(NO_TABLES), before, last);
      if Accepts(Collected(before), last) {
        AcceptedIsValid(Collected(before), last);
        GuardsOneMore(Collected(before), before, last);
      }
    }
  }

  lemma AcceptedIsValid(tables: Option<Tables>, record: Record)
    requires Accepts(tables, record)
    ensures tables.Some? && RecordIsValid(record)
  {
  }
}
