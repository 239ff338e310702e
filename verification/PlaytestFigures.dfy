/** Every figure of the report, told by the records alone. */
module PlaytestFigures {
  import opened Protocol
  import opened Ordering
  import opened Statistics
  import opened Playtest
  import opened PlaytestTables
  import opened PlaytestReport

  // ---------------------------------------------------------------- what a figure is

  /** A rate times the whole is the part; there is none of nothing. */
  predicate IsShare(rate: Option<real>, part: int, whole: int) {
    if whole == 0 then rate == None else rate.Some? && rate.value * whole as real == part as real
  }

  lemma RatioIsAShare(part: int, whole: int)
    ensures IsShare(Ratio(part, whole), part, whole)
  {
  }

  /** By how many per cent one rate exceeds another that is not zero. */
  predicate IsUplift(uplift: Option<real>, rate: Option<real>, base: Option<real>) {
    if rate.None? || base.None? || base.value == 0.0 then uplift == None
    else uplift.Some? && rate.value == base.value * (1.0 + uplift.value / 100.0)
  }

  lemma UpliftIsOverTheBase(rate: Option<real>, base: Option<real>)
    ensures IsUplift(Uplift(rate, base), rate, base)
  {
    if rate.Some? && base.Some? && base.value != 0.0 {
      var quotient := rate.value / base.value;
      assert 1.0 + ((quotient - 1.0) * 100.0) / 100.0 == quotient;
      assert base.value * quotient == rate.value;
    }
  }

  // ---------------------------------------------------------------- dives

  function Fate(row: DiveRow, finalized: bool): seq<DiveRow> {
    if row.finalized == finalized then [row] else []
  }

  function Finalized(row: DiveRow): seq<DiveRow> { Fate(row, true) }

  function Censored(row: DiveRow): seq<DiveRow> { Fate(row, false) }

  function ShotsIn(row: DiveRow): seq<int> { [Read(row.shots)] }

  function HitsIn(row: DiveRow): seq<int> { [Read(row.hits)] }

  function FateKnown(row: DiveRow): seq<DiveRow> {
    if row.died == Some(true) || row.died == Some(false) then [row] else []
  }

  function Died(row: DiveRow): seq<DiveRow> {
    if row.died == Some(true) then [row] else []
  }

  function Clamped(row: DiveRow): seq<DiveRow> {
    if row.clamped then [row] else []
  }

  function RemountIn(row: DiveRow): seq<int> {
    match row.remount
    case Some(ticks) => [Read(ticks)]
    case None => []
  }

  ghost predicate DivesAreTold(d: DiveReport, rows: seq<DiveRow>, fired: nat, struck: nat) {
    && d.terminal == |rows| && d.finalized == |FlatMap(Finalized, rows)| && d.censored == |FlatMap(Censored, rows)|
    && d.shots == Sum(FlatMap(ShotsIn, rows)) && d.hits == Sum(FlatMap(HitsIn, rows))
    && d.gallopShots == fired && d.gallopHits == struck
    && IsShare(d.hitRate, d.hits, d.shots) && IsShare(d.gallopRate, struck, fired)
    && IsUplift(d.uplift, d.hitRate, d.gallopRate)
    && d.deathsKnown == |FlatMap(FateKnown, rows)| && IsShare(d.deathRate, |FlatMap(Died, rows)|, d.deathsKnown)
    && IsShare(d.clampShare, |FlatMap(Clamped, rows)|, |rows|)
    && d.remountMedian == Median(FlatMap(RemountIn, rows))
  }

  lemma {:induction false} TruesCount(rows: seq<DiveRow>)
    ensures Trues(FlatMap(WasFinalized, rows)) == |FlatMap(Finalized, rows)|
    ensures |rows| == |FlatMap(Finalized, rows)| + |FlatMap(Censored, rows)|
    ensures Trues(FlatMap(KnownDeath, rows)) == |FlatMap(Died, rows)|
    ensures |FlatMap(KnownDeath, rows)| == |FlatMap(FateKnown, rows)|
    ensures Trues(FlatMap(WasClamped, rows)) == |FlatMap(Clamped, rows)|
  {
    if rows != [] {
      var init, last := rows[..|rows| - 1], rows[|rows| - 1];
      assert rows == init + [last];
      TruesCount(init);
      TruesCountOneMore(init, last);
    }
  }

  lemma FlagsJoin(flags: seq<bool>, more: seq<bool>)
    ensures Trues(flags + more) == Trues(flags) + Trues(more)
  {
    FlatMapJoins(Agreed, flags, more);
  }

  lemma OneFlag(flag: bool)
    ensures Trues([flag]) == (if flag then 1 else 0) && Trues([]) == 0
  {
    OneMapped(Agreed, flag);
  }

  lemma TruesCountOneMore(init: seq<DiveRow>, last: DiveRow)
    ensures Trues(FlatMap(WasFinalized, init + [last])) == Trues(FlatMap(WasFinalized, init)) + |Finalized(last)|
    ensures |FlatMap(Finalized, init + [last])| == |FlatMap(Finalized, init)| + |Finalized(last)|
    ensures |FlatMap(Censored, init + [last])| == |FlatMap(Censored, init)| + |Censored(last)|
    ensures Trues(FlatMap(KnownDeath, init + [last])) == Trues(FlatMap(KnownDeath, init)) + |Died(last)|
    ensures |FlatMap(Died, init + [last])| == |FlatMap(Died, init)| + |Died(last)|
    ensures |FlatMap(KnownDeath, init + [last])| == |FlatMap(KnownDeath, init)| + |FateKnown(last)|
    ensures |FlatMap(FateKnown, init + [last])| == |FlatMap(FateKnown, init)| + |FateKnown(last)|
    ensures Trues(FlatMap(WasClamped, init + [last])) == Trues(FlatMap(WasClamped, init)) + |Clamped(last)|
    ensures |FlatMap(Clamped, init + [last])| == |FlatMap(Clamped, init)| + |Clamped(last)|
  {
    LastMapped(WasFinalized, init, last);
    LastMapped(Finalized, init, last);
    LastMapped(Censored, init, last);
    LastMapped(KnownDeath, init, last);
    LastMapped(Died, init, last);
    LastMapped(FateKnown, init, last);
    LastMapped(WasClamped, init, last);
    LastMapped(Clamped, init, last);
    FlagsJoin(FlatMap(WasFinalized, init), WasFinalized(last));
    FlagsJoin(FlatMap(KnownDeath, init), KnownDeath(last));
    FlagsJoin(FlatMap(WasClamped, init), WasClamped(last));
    OneFlag(last.finalized);
    OneFlag(last.clamped);
    if last.died.Some? { OneFlag(last.died.value); }
  }

  lemma RowsAreTold(rows: seq<DiveRow>, fired: nat, struck: nat)
    ensures DivesAreTold(DiveReportOf(rows, fired, struck), rows, fired, struck)
  {
    TruesCount(rows);
    MappedAlike(ShotCount, ShotsIn, rows);
    MappedAlike(HitCount, HitsIn, rows);
    MappedAlike(RemountTime, RemountIn, rows);
    var d := DiveReportOf(rows, fired, struck);
    RatioIsAShare(d.hits, d.shots);
    RatioIsAShare(struck, fired);
    RatioIsAShare(|FlatMap(Died, rows)|, |FlatMap(FateKnown, rows)|);
    RatioIsAShare(|FlatMap(Clamped, rows)|, |rows|);
    UpliftIsOverTheBase(d.hitRate, d.gallopRate);
  }

  lemma PermutedMaps<T(!new)>(f: DiveRow -> seq<T>, rows: seq<DiveRow>, others: seq<DiveRow>)
    requires multiset(rows) == multiset(others)
    ensures multiset(FlatMap(f, rows)) == multiset(FlatMap(f, others))
    ensures |FlatMap(f, rows)| == |FlatMap(f, others)|
  {
    FlatMapPermutes(f, rows, others);
    SameLength(FlatMap(f, rows), FlatMap(f, others));
  }

  lemma PermutedTrues(f: DiveRow -> seq<bool>, rows: seq<DiveRow>, others: seq<DiveRow>)
    requires multiset(rows) == multiset(others)
    ensures Trues(FlatMap(f, rows)) == Trues(FlatMap(f, others)) && |FlatMap(f, rows)| == |FlatMap(f, others)|
  {
    PermutedMaps(f, rows, others);
    FlatMapPermutes(Agreed, FlatMap(f, rows), FlatMap(f, others));
    SameLength(FlatMap(Agreed, FlatMap(f, rows)), FlatMap(Agreed, FlatMap(f, others)));
  }

  /** The order of the rows does not matter. */
  lemma RowsReportAlike(rows: seq<DiveRow>, others: seq<DiveRow>, fired: nat, struck: nat)
    requires multiset(rows) == multiset(others)
    ensures DiveReportOf(rows, fired, struck) == DiveReportOf(others, fired, struck)
  {
    SameLength(rows, others);
    PermutedMaps(ShotCount, rows, others);
    PermutedMaps(HitCount, rows, others);
    SumPermutes(FlatMap(ShotCount, rows), FlatMap(ShotCount, others));
    SumPermutes(FlatMap(HitCount, rows), FlatMap(HitCount, others));
    PermutedTrues(WasFinalized, rows, others);
    PermutedTrues(KnownDeath, rows, others);
    PermutedTrues(WasClamped, rows, others);
    PermutedMaps(RemountTime, rows, others);
    PermutationsShareMiddleAndLargest(FlatMap(RemountTime, rows), FlatMap(RemountTime, others));
  }

  /** The dive figures of a report are those of the terminal rows and gallop shots among its records. */
  lemma DiveFiguresAreTold(records: seq<Record>, strict: bool)
    requires Aggregated(records, strict).Some?
    ensures DivesAreTold(Aggregated(records, strict).value.dives, FlatMap(Ended, records),
                         |FlatMap(Fired, records)|, |FlatMap(Struck, records)|)
  {
    DivesTellTheRecords(records);
    var dives, rows := Collected(records).value.dives, FlatMap(Ended, records);
    RowsReportAlike(Listed(dives.terminals), rows, dives.gallopShots, dives.gallopHits);
    RowsAreTold(rows, dives.gallopShots, dives.gallopHits);
  }

  // ---------------------------------------------------------------- sessions and player time

  predicate Begins(r: Record, id: string) {
    r.session == id && r.event.SessionStarted?
  }

  predicate Finishes(r: Record, id: string) {
    r.session == id && r.event.SessionTerminal?
  }

  /** A session's time is from its start to its end, and nothing when either lacks or they are out of order. */
  ghost predicate SessionIsTold(report: SessionReport, records: seq<Record>, id: string) {
    && (forall i | 0 <= i < |records| && records[i].session == id :: report.build == records[i].build)
    && report.actors == ActorsOf(records, id)
    && (forall i, j | 0 <= i < |records| && 0 <= j < |records| && Begins(records[i], id) && Finishes(records[j], id) ::
          var start, end := Read(records[i].event.timestamp), Read(records[j].event.timestamp);
          report.duration == if start <= end then end - start else 0)
    && (!HasStart(records, id) || !HasEnd(records, id) ==> report.duration == 0)
    && (forall j | 0 <= j < |records| && Finishes(records[j], id) :: report.censored == records[j].event.censored)
    && (!HasEnd(records, id) ==> !report.censored)
  }

  lemma SessionRowIsTold(s: Sessions, records: seq<Record>, id: string)
    requires SessionsTell(s, records) && id in s.rows
    ensures SessionIsTold(SessionReports(s)[id], records, id)
  {
    assert RowIsTold(s.rows[id], records, id);
    assert Value(s.actors, id, {}) == ActorsOf(records, id);
    forall i | 0 <= i < |records| ensures RowTells(s.rows, records[i]) {
    }
  }

  function TimeIn(sessions: map<string, SessionReport>): string -> seq<int> {
    (id: string) => if id in sessions then [sessions[id].duration * |sessions[id].actors|] else []
  }

  lemma PlayerTimeAddsUp(s: Sessions, ids: seq<string>)
    requires Lists(ids, s.rows.Keys)
    ensures PlayerTime(s) == Sum(FlatMap(TimeIn(SessionReports(s)), ids))
  {
    var reports := SessionReports(s);
    var one := (id: string) => if id in reports then [reports[id]] else [];
    ListedInAnyOrder(reports, ids, one);
    FlatMapPermutes(TimePlayed, FlatMap(one, ids), Listed(reports));
    SumPermutes(FlatMap(TimePlayed, FlatMap(one, ids)), FlatMap(TimePlayed, Listed(reports)));
    forall i | 0 <= i < |ids| ensures FlatMap(TimePlayed, one(ids[i])) == TimeIn(reports)(ids[i]) {
      assert ids[i] in reports;
      OneMapped(TimePlayed, reports[ids[i]]);
    }
    FlatMapFuses(one, TimePlayed, TimeIn(reports), ids);
  }

  /** Sessions, builds and player time of a report, however the sessions are listed. */
  lemma SessionFiguresAreTold(records: seq<Record>, strict: bool, ids: seq<string>)
    requires Aggregated(records, strict).Some?
    requires Lists(ids, set i | 0 <= i < |records| :: records[i].session)
    ensures var report := Aggregated(records, strict).value;
            && report.sessions.Keys == (set i | 0 <= i < |records| :: records[i].session)
            && report.builds == (set i | 0 <= i < |records| :: records[i].build)
            && (forall id | id in report.sessions :: SessionIsTold(report.sessions[id], records, id))
            && report.playerTime == Sum(FlatMap(TimeIn(report.sessions), ids))
  {
    SessionsTellTheRecords(records);
    var s := Collected(records).value.sessions;
    forall id | id in s.rows ensures SessionIsTold(SessionReports(s)[id], records, id) {
      SessionRowIsTold(s, records, id);
    }
    PlayerTimeAddsUp(s, ids);
  }

  // ---------------------------------------------------------------- integrity

  predicate EndsInTime(start: Record, end: Record, id: string) {
    Begins(start, id) && Finishes(end, id) && Read(start.event.timestamp) <= Read(end.event.timestamp)
  }

  predicate HasTime(records: seq<Record>, id: string) {
    exists i, j :: 0 <= i < |records| && 0 <= j < |records| && EndsInTime(records[i], records[j], id)
  }

  lemma PairedExactlyWhenTimed(s: Sessions, records: seq<Record>, id: string)
    requires SessionsTell(s, records) && id in s.rows
    ensures IsPaired(s.rows[id]) <==> HasTime(records, id)
  {
    assert RowIsTold(s.rows[id], records, id);
    if IsPaired(s.rows[id]) {
      var i :| 0 <= i < |records| && records[i].session == id && records[i].event.SessionStarted?;
      var j :| 0 <= j < |records| && records[j].session == id && records[j].event.SessionTerminal?;
      assert RowTells(s.rows, records[i]) && RowTells(s.rows, records[j]);
      assert EndsInTime(records[i], records[j], id);
    }
    if HasTime(records, id) {
      var i, j :| 0 <= i < |records| && 0 <= j < |records| && EndsInTime(records[i], records[j], id);
      assert RowTells(s.rows, records[i]) && RowTells(s.rows, records[j]);
    }
  }

  /** The warnings name exactly what does not match up. */
  ghost predicate WarningsAreTold(warnings: set<Warning>, records: seq<Record>) {
    var started, ended := StartedDives(records), EndedDives(records);
    && (forall n: nat :: DivesLackTerminal(n) in warnings <==> n == |started - ended| > 0)
    && (forall n: nat :: TerminalsLackStart(n) in warnings <==> n == |ended - started| > 0)
    && (forall id :: SessionLacksPair(id) in warnings <==>
          id in (set i | 0 <= i < |records| :: records[i].session) && !HasTime(records, id))
  }

  lemma WarningsTellTheRecords(records: seq<Record>)
    requires Collected(records).Some?
    ensures var tables := Collected(records).value;
            WarningsAreTold(Warnings(tables.dives, tables.sessions.rows), records)
  {
    SessionsTellTheRecords(records);
    DivesTellTheRecords(records);
    var tables := Collected(records).value;
    forall id | id in tables.sessions.rows ensures IsPaired(tables.sessions.rows[id]) <==> HasTime(records, id) {
      PairedExactlyWhenTimed(tables.sessions, records, id);
    }
    WarningsAreThese(tables.dives, tables.sessions.rows);
  }

  /** The integrity section counts exactly what does not match up. */
  lemma IntegrityIsTold(records: seq<Record>, strict: bool)
    requires Aggregated(records, strict).Some?
    ensures var integrity := Aggregated(records, strict).value.integrity;
            var started, ended := StartedDives(records), EndedDives(records);
            && integrity.accepted == |started| && integrity.acceptedWithoutTerminal == |started - ended|
            && integrity.terminalWithoutStart == |ended - started| && WarningsAreTold(integrity.warnings, records)
  {
    DivesTellTheRecords(records);
    WarningsTellTheRecords(records);
  }

  lemma DiveWarningsAreThese(dives: Dives)
    ensures var started, ended := dives.starts, dives.terminals.Keys;
            && (forall n: nat :: DivesLackTerminal(n) in DiveWarnings(dives) <==> n == |started - ended| > 0)
            && (forall n: nat :: TerminalsLackStart(n) in DiveWarnings(dives) <==> n == |ended - started| > 0)
    ensures forall id :: SessionLacksPair(id) !in DiveWarnings(dives)
  {
  }

  lemma SessionWarningsAreThese(rows: map<string, SessionRow>)
    ensures forall id :: SessionLacksPair(id) in SessionWarnings(rows) <==> id in rows && !IsPaired(rows[id])
    ensures forall w | w in SessionWarnings(rows) :: w.SessionLacksPair?
  {
  }

  lemma WarningsAreThese(dives: Dives, rows: map<string, SessionRow>)
    ensures var warnings := Warnings(dives, rows);
            var started, ended := dives.starts, dives.terminals.Keys;
            && (forall n: nat :: DivesLackTerminal(n) in warnings <==> n == |started - ended| > 0)
            && (forall n: nat :: TerminalsLackStart(n) in warnings <==> n == |ended - started| > 0)
            && (forall id :: SessionLacksPair(id) in warnings <==> id in rows && !IsPaired(rows[id]))
  {
    DiveWarningsAreThese(dives);
    SessionWarningsAreThese(rows);
  }

  predicate IsMalformed(row: DiveRow) {
    || row.shots.None? || row.shots.value < 0 || row.hits.None? || row.hits.value < 0
    || (row.remount.Some? && (row.remount.value.None? || row.remount.value.value < 0))
  }

  predicate HasMalformedDive(records: seq<Record>) {
    exists i :: 0 <= i < |records| && records[i].event.DiveTerminal? && IsMalformed(records[i].event.row)
  }

  predicate IsUnmatched(records: seq<Record>) {
    || StartedDives(records) != EndedDives(records)
    || exists i :: 0 <= i < |records| && !HasTime(records, records[i].session)
  }

  lemma DifferentSetsDiffer<T>(a: set<T>, b: set<T>)
    ensures a != b <==> |a - b| > 0 || |b - a| > 0
  {
    assert a != b <==> a - b != {} || b - a != {};
  }

  lemma UnmatchedIsWarned(warnings: set<Warning>, records: seq<Record>)
    requires WarningsAreTold(warnings, records) && IsUnmatched(records)
    ensures warnings != {}
  {
    var started, ended := StartedDives(records), EndedDives(records);
    DifferentSetsDiffer(started, ended);
    if |started - ended| > 0 {
      assert DivesLackTerminal(|started - ended|) in warnings;
    } else if |ended - started| > 0 {
      assert TerminalsLackStart(|ended - started|) in warnings;
    } else {
      var i :| 0 <= i < |records| && !HasTime(records, records[i].session);
      assert SessionLacksPair(records[i].session) in warnings;
    }
  }

  lemma WarnedIsUnmatched(warnings: set<Warning>, records: seq<Record>, w: Warning)
    requires WarningsAreTold(warnings, records) && w in warnings
    ensures IsUnmatched(records)
  {
    DifferentSetsDiffer(StartedDives(records), EndedDives(records));
    if w.SessionLacksPair? {
      var i :| 0 <= i < |records| && records[i].session == w.session;
      assert !HasTime(records, records[i].session);
    }
  }

  lemma NoWarningsWhenMatched(warnings: set<Warning>, records: seq<Record>)
    requires WarningsAreTold(warnings, records)
    ensures warnings == {} <==> !IsUnmatched(records)
  {
    if IsUnmatched(records) {
      UnmatchedIsWarned(warnings, records);
    }
    if w :| w in warnings {
      WarnedIsUnmatched(warnings, records, w);
    }
  }

  predicate AnyMalformed(rows: seq<DiveRow>) {
    exists i :: 0 <= i < |rows| && IsMalformed(rows[i])
  }

  lemma MalformedAlike(rows: seq<DiveRow>, others: seq<DiveRow>)
    requires multiset(rows) == multiset(others) && AnyMalformed(rows)
    ensures AnyMalformed(others)
  {
    var i :| 0 <= i < |rows| && IsMalformed(rows[i]);
    assert rows[i] in multiset(others);
    var j :| 0 <= j < |others| && others[j] == rows[i];
  }

  lemma MalformedRowIsListed(rows: map<DiveKey, DiveRow>)
    ensures AnyMalformed(Listed(rows)) <==> exists key | key in rows :: !DiveRowIsValid(rows[key])
  {
    var list := Listed(rows);
    if i :| 0 <= i < |list| && IsMalformed(list[i]) {
      ListedIsEachValue(rows, list[i]);
      var key :| key in rows && rows[key] == list[i];
    }
    if key :| key in rows && !DiveRowIsValid(rows[key]) {
      ListedIsEachValue(rows, rows[key]);
      var i :| 0 <= i < |list| && list[i] == rows[key];
    }
  }

  lemma MalformedRowIsRecorded(records: seq<Record>)
    ensures AnyMalformed(FlatMap(Ended, records)) <==> HasMalformedDive(records)
  {
    var rows := FlatMap(Ended, records);
    if i :| 0 <= i < |rows| && IsMalformed(rows[i]) {
      MappedMember(Ended, records, rows[i]);
      var k :| 0 <= k < |records| && Ended(records[k]) == [rows[i]];
      assert records[k].event.row == [rows[i]][0];
    }
    if k :| 0 <= k < |records| && records[k].event.DiveTerminal? && IsMalformed(records[k].event.row) {
      MappedMember(Ended, records, records[k].event.row);
      var i :| 0 <= i < |rows| && rows[i] == records[k].event.row;
    }
  }

  lemma MalformedRowsAreRecorded(dives: Dives, records: seq<Record>)
    requires DivesTell(dives, records)
    ensures HasMalformedDive(records) <==> exists key | key in dives.terminals :: !DiveRowIsValid(dives.terminals[key])
  {
    MalformedRowIsListed(dives.terminals);
    MalformedRowIsRecorded(records);
    if AnyMalformed(Listed(dives.terminals)) {
      MalformedAlike(Listed(dives.terminals), FlatMap(Ended, records));
    }
    if AnyMalformed(FlatMap(Ended, records)) {
      MalformedAlike(FlatMap(Ended, records), Listed(dives.terminals));
    }
  }

  lemma RefusedExactlyWhen(records: seq<Record>, strict: bool)
    requires Collected(records).Some?
    ensures var tables := Collected(records).value;
            IsRefused(tables.dives, tables.sessions.rows, strict)
            <==> HasMalformedDive(records) || (strict && IsUnmatched(records))
  {
    var tables := Collected(records).value;
    DivesTellTheRecords(records);
    WarningsTellTheRecords(records);
    NoWarningsWhenMatched(Warnings(tables.dives, tables.sessions.rows), records);
    MalformedRowsAreRecorded(tables.dives, records);
  }

  /** A report is refused exactly for a bad or contradictory record, a malformed dive, or strictly, a mismatch. */
  lemma ReportRefusedExactlyWhen(records: seq<Record>, strict: bool)
    ensures Aggregated(records, strict).None? <==>
              !NoConflicts(records) || HasMalformedDive(records) || (strict && IsUnmatched(records))
  {
    CollectsExactlyWhen(records);
    if Collected(records).Some? {
      RefusedExactlyWhen(records, strict);
    }
  }
}
