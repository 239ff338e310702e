/** What the tables hold, told by the records alone: who took part, what was counted, and which lists were kept. */
module PlaytestTables {
  import opened Protocol
  import opened Folds
  import opened Statistics
  import opened Playtest

  // ---------------------------------------------------------------- reading a record

  function Read(field: Field): int {
    match field
    case Some(n) => n
    case None => 0
  }

  function Points(counters: map<string, Field>, name: string): int {
    if name in counters then Read(counters[name]) else 0
  }

  function Ended(r: Record): seq<DiveRow> {
    if r.event.DiveTerminal? then [r.event.row] else []
  }

  function Fired(r: Record): seq<Record> {
    if r.event.CombatShot? && r.event.gallop && r.event.accepted then [r] else []
  }

  function Struck(r: Record): seq<Record> {
    if r.event.CombatShot? && r.event.gallop && r.event.accepted && r.event.hit then [r] else []
  }

  function Shown(r: Record): seq<string> {
    if r.event.Notification?
       && (r.event.text == "AIRBORNE REVERSAL" || r.event.text == "FLYING DISMOUNT"
           || r.event.text == "FULL-GALLOP HIT" || r.event.text == "SADDLE DIVE HEADSHOT")
    then [r.event.text] else []
  }

  function Rejected(r: Record): seq<string> {
    if !r.event.ReloadRejected? then [] else if |r.event.reason| > 0 then [r.event.reason] else ["unknown"]
  }

  predicate IsSampleAt(r: Record, hz: int) {
    r.event.RenderSample? && r.event.hz == Some(hz)
  }

  function Reading(number: Option<real>): seq<real> {
    match number
    case Some(x) => [x]
    case None => [0.0]
  }

  function FramesAt(hz: int): Record -> seq<real> {
    (r: Record) => if IsSampleAt(r, hz) then Reading(r.event.frame) else []
  }

  function LinearAt(hz: int): Record -> seq<real> {
    (r: Record) => if IsSampleAt(r, hz) then Reading(r.event.linear) else []
  }

  function AngularAt(hz: int): Record -> seq<real> {
    (r: Record) => if IsSampleAt(r, hz) then Reading(r.event.angular) else []
  }

  function RepeatsAt(hz: int): Record -> seq<Record> {
    (r: Record) => if IsSampleAt(r, hz) && r.event.repeated then [r] else []
  }

  predicate IsIntervalOf(r: Record, slot: Slot) {
    r.event.Interval? && r.session == slot.0 && r.event.slot == Some(slot.1) && slot.1 >= 0
  }

  predicate IsChargeOf(r: Record, slot: Slot) {
    r.event.Spend? && r.event.majestic && r.session == slot.0 && r.event.slot == Some(slot.1) && slot.1 >= 0
  }

  function RidingPoints(name: string): Record -> seq<int> {
    (r: Record) => if r.event.Interval? then [Points(r.event.counters, name)] else []
  }

  function ChargesOf(slot: Slot): Record -> seq<int> {
    (r: Record) => if IsIntervalOf(r, slot) then [Points(r.event.counters, "charge_starts")] else []
  }

  function StartsOf(slot: Slot): Record -> seq<int> {
    (r: Record) => if IsIntervalOf(r, slot) then [Read(r.event.start)] else []
  }

  function SpendsOf(slot: Slot): Record -> seq<int> {
    (r: Record) => if IsChargeOf(r, slot) then [Read(r.event.tick)] else []
  }

  function Remounted(r: Record): seq<int> {
    if r.event.Remount? && Read(r.event.ticks) >= 0 then [Read(r.event.ticks)] else []
  }

  function Bolted(r: Record): seq<Record> {
    if r.event.HorseLost? then [r] else []
  }

  function BountyPoints(name: string): Record -> seq<int> {
    (r: Record) => if r.event.BountyInterval? then [Points(r.event.counters, name)] else []
  }

  function GapOf(r: Record): seq<int> {
    if r.event.BountyInterval? then [Read(r.event.gap)] else []
  }

  function MatchOf(r: Record): seq<seq<Player>> {
    if r.event.MatchResult? then [r.event.players] else []
  }

  function ChoiceOf(r: Record): seq<bool> {
    if r.event.Survey? then [r.event.choice == Some(true)] else []
  }

  // ---------------------------------------------------------------- the last record

  lemma LastAbsorbed(records: seq<Record>)
    requires records != [] && Collected(records).Some?
    ensures var init, last := records[..|records| - 1], records[|records| - 1];
            && records == init + [last] && Collected(init).Some? && RecordIsValid(last)
            && var before, now := Collected(init).value, Collected(records).value;
               && AddSession(before.sessions, last) == Some(now.sessions)
               && AddDive(before.dives, last) == Some(now.dives)
               && AddNote(before.notes, last) == now.notes
               && AddSample(before.render, last) == now.render
               && AddRiding(before.riding, last) == now.riding
               && AddBounty(before.bounty, last) == Some(now.bounty)
  {
  }

  // ---------------------------------------------------------------- sessions

  predicate HasStart(records: seq<Record>, id: string) {
    exists i :: 0 <= i < |records| && records[i].session == id && records[i].event.SessionStarted?
  }

  predicate HasEnd(records: seq<Record>, id: string) {
    exists i :: 0 <= i < |records| && records[i].session == id && records[i].event.SessionTerminal?
  }

  ghost predicate SessionsTell(s: Sessions, records: seq<Record>) {
    && s.rows.Keys == (set i | 0 <= i < |records| :: records[i].session)
    && s.builds == (set i | 0 <= i < |records| :: records[i].build)
    && (forall i | 0 <= i < |records| :: RowTells(s.rows, records[i]))
    && (forall id | id in s.rows :: RowIsTold(s.rows[id], records, id))
    && (forall id: string :: Value(s.actors, id, {}) == ActorsOf(records, id))
  }

  predicate RowIsTold(row: SessionRow, records: seq<Record>, id: string) {
    (row.start.Some? ==> HasStart(records, id)) && (row.end.Some? || row.censored ==> HasEnd(records, id))
  }

  predicate RowTells(rows: map<string, SessionRow>, r: Record) {
    && r.session in rows && rows[r.session].build == r.build
    && (r.event.SessionStarted? ==> rows[r.session].start == r.event.timestamp != None)
    && (r.event.SessionTerminal? ==>
          rows[r.session].end == r.event.timestamp != None && rows[r.session].censored == r.event.censored)
  }

  function ActorsOf(records: seq<Record>, id: string): set<string> {
    set i | 0 <= i < |records| && records[i].session == id && records[i].actor != "" :: records[i].actor
  }

  lemma OldRowsStillTell(s: Sessions, r: Record, last: Record)
    requires RowTells(s.rows, r) && RecordIsValid(last) && AddSession(s, last).Some?
    ensures RowTells(AddSession(s, last).value.rows, r) && RowTells(AddSession(s, last).value.rows, last)
  {
  }

  lemma MoreHaveStarts(before: seq<Record>, last: Record, id: string)
    ensures HasStart(before + [last], id)
       <==> HasStart(before, id) || (last.session == id && last.event.SessionStarted?)
    ensures HasEnd(before + [last], id)
       <==> HasEnd(before, id) || (last.session == id && last.event.SessionTerminal?)
  {
    var records := before + [last];
    assert forall i | 0 <= i < |before| :: records[i] == before[i];
    assert records[|before|] == last;
  }

  lemma RowsAreStillTold(s: Sessions, before: seq<Record>, last: Record, id: string)
    requires RecordIsValid(last) && AddSession(s, last).Some? && id in AddSession(s, last).value.rows
    requires id in s.rows ==> RowIsTold(s.rows[id], before, id)
    ensures RowIsTold(AddSession(s, last).value.rows[id], before + [last], id)
  {
    MoreHaveStarts(before, last, id);
  }

  lemma SessionNamesGrow(before: seq<Record>, last: Record)
    ensures (set i | 0 <= i < |before + [last]| :: (before + [last])[i].session)
            == (set i | 0 <= i < |before| :: before[i].session) + {last.session}
    ensures (set i | 0 <= i < |before + [last]| :: (before + [last])[i].build)
            == (set i | 0 <= i < |before| :: before[i].build) + {last.build}
  {
    var records := before + [last];
    assert forall i | 0 <= i < |before| :: records[i] == before[i];
    assert records[|before|] == last;
  }

  lemma OneMoreSession(s: Sessions, before: seq<Record>, last: Record)
    requires SessionsTell(s, before) && RecordIsValid(last) && AddSession(s, last).Some?
    ensures SessionsTell(AddSession(s, last).value, before + [last])
  {
    var after, records := AddSession(s, last).value, before + [last];
    SessionNamesGrow(before, last);
    forall i | 0 <= i < |records| ensures RowTells(after.rows, records[i]) {
      if i < |before| {
        OldRowsStillTell(s, before[i], last);
      }
    }
    forall id | id in after.rows ensures RowIsTold(after.rows[id], records, id) {
      RowsAreStillTold(s, before, last, id);
    }
    forall id: string ensures Value(after.actors, id, {}) == ActorsOf(records, id) {
      assert Value(s.actors, id, {}) == ActorsOf(before, id);
      OneMoreActor(before, last, id);
    }
  }

  lemma OneMoreActor(before: seq<Record>, last: Record, id: string)
    ensures ActorsOf(before + [last], id)
            == ActorsOf(before, id) + if last.session == id && last.actor != "" then {last.actor} else {}
  {
    var records := before + [last];
    assert forall i | 0 <= i < |before| :: records[i] == before[i];
    assert records[|before|] == last;
  }

  lemma {:induction false} SessionsTellTheRecords(records: seq<Record>)
    requires Collected(records).Some?
    ensures SessionsTell(Collected(records).value.sessions, records)
  {
    if records != [] {
      LastAbsorbed(records);
      var init := records[..|records| - 1];
      SessionsTellTheRecords(init);
      OneMoreSession(Collected(init).value.sessions, init, records[|records| - 1]);
    }
  }

  // ---------------------------------------------------------------- dives

  function DiveOf(r: Record): DiveKey
    requires r.event.DiveStarted? || r.event.DiveTerminal?
  {
    DiveKey(r.session, r.actor, Read(r.event.dive))
  }

  function StartedDives(records: seq<Record>): set<DiveKey> {
    set i | 0 <= i < |records| && records[i].event.DiveStarted? :: DiveOf(records[i])
  }

  function EndedDives(records: seq<Record>): set<DiveKey> {
    set i | 0 <= i < |records| && records[i].event.DiveTerminal? :: DiveOf(records[i])
  }

  ghost predicate DivesTell(d: Dives, records: seq<Record>) {
    && d.starts == StartedDives(records) && d.terminals.Keys == EndedDives(records)
    && multiset(Listed(d.terminals)) == multiset(FlatMap(Ended, records))
    && d.gallopShots == |FlatMap(Fired, records)| && d.gallopHits == |FlatMap(Struck, records)|
  }

  lemma OneMoreEnd(before: seq<Record>, last: Record)
    ensures StartedDives(before + [last])
            == StartedDives(before) + if last.event.DiveStarted? then {DiveOf(last)} else {}
    ensures EndedDives(before + [last]) == EndedDives(before) + if last.event.DiveTerminal? then {DiveOf(last)} else {}
  {
    var records := before + [last];
    assert forall i | 0 <= i < |before| :: records[i] == before[i];
    assert records[|before|] == last;
  }

  lemma ShotsOfRecord(d: Dives, last: Record)
    requires AddDive(d, last).Some?
    ensures var after := AddDive(d, last).value;
            after.gallopShots == d.gallopShots + |Fired(last)| && after.gallopHits == d.gallopHits + |Struck(last)|
  {
  }

  lemma KeysOfRecord(d: Dives, last: Record)
    requires AddDive(d, last).Some?
    ensures var after := AddDive(d, last).value;
            && after.starts == d.starts + (if last.event.DiveStarted? then {DiveOf(last)} else {})
            && after.terminals.Keys == d.terminals.Keys + (if last.event.DiveTerminal? then {DiveOf(last)} else {})
  {
  }

  lemma TerminalsOfRecord(d: Dives, last: Record)
    requires AddDive(d, last).Some?
    ensures if last.event.DiveTerminal?
            then DiveOf(last) !in d.terminals
                 && AddDive(d, last).value.terminals == d.terminals[DiveOf(last) := last.event.row]
            else AddDive(d, last).value.terminals == d.terminals
  {
  }

  lemma RowsGrow(rows: map<DiveKey, DiveRow>, key: DiveKey, row: DiveRow)
    requires key !in rows
    ensures multiset(Listed(rows[key := row])) == multiset(Listed(rows)) + multiset([row])
  {
    ListedGrows(rows, key, row);
  }

  lemma RowsOfRecord(d: Dives, last: Record)
    requires AddDive(d, last).Some?
    ensures multiset(Listed(AddDive(d, last).value.terminals)) == multiset(Listed(d.terminals)) + multiset(Ended(last))
  {
    TerminalsOfRecord(d, last);
    if last.event.DiveTerminal? {
      RowsGrow(d.terminals, DiveOf(last), last.event.row);
    }
  }

  lemma OneMoreDive(d: Dives, before: seq<Record>, last: Record)
    requires DivesTell(d, before) && AddDive(d, last).Some?
    ensures DivesTell(AddDive(d, last).value, before + [last])
  {
    ShotsOfRecord(d, last);
    KeysOfRecord(d, last);
    RowsOfRecord(d, last);
    OneMoreEnd(before, last);
    LastMapped(Ended, before, last);
    LastMapped(Fired, before, last);
    LastMapped(Struck, before, last);
  }

  lemma {:induction false} DivesTellTheRecords(records: seq<Record>)
    requires Collected(records).Some?
    ensures DivesTell(Collected(records).value.dives, records)
  {
    if records != [] {
      LastAbsorbed(records);
      var init := records[..|records| - 1];
      DivesTellTheRecords(init);
      OneMoreDive(Collected(init).value.dives, init, records[|records| - 1]);
    }
  }

  // ---------------------------------------------------------------- notes

  function ShownIn(records: seq<Record>, id: string): set<string> {
    set i | 0 <= i < |records| && records[i].session == id && Shown(records[i]) != [] :: Shown(records[i])[0]
  }

  ghost predicate NotesTell(n: Notes, records: seq<Record>) {
    && n.counts == multiset(FlatMap(Shown, records)) && n.reloads == multiset(FlatMap(Rejected, records))
    && forall id: string :: Value(n.bySession, id, {}) == ShownIn(records, id)
  }

  lemma OneMoreShown(before: seq<Record>, last: Record, id: string)
    ensures ShownIn(before + [last], id)
            == ShownIn(before, id) + if last.session == id && Shown(last) != [] then {Shown(last)[0]} else {}
  {
    var records := before + [last];
    assert forall i | 0 <= i < |before| :: records[i] == before[i];
    assert records[|before|] == last;
  }

  lemma ListedNotifications(text: string)
    ensures text in NOTIFICATIONS <==>
              text == "AIRBORNE REVERSAL" || text == "FLYING DISMOUNT" || text == "FULL-GALLOP HIT"
              || text == "SADDLE DIVE HEADSHOT"
  {
    assert NOTIFICATIONS[0] == "AIRBORNE REVERSAL" && NOTIFICATIONS[1] == "FLYING DISMOUNT";
    assert NOTIFICATIONS[2] == "FULL-GALLOP HIT" && NOTIFICATIONS[3] == "SADDLE DIVE HEADSHOT";
  }

  lemma NoteOfRecord(n: Notes, last: Record)
    ensures AddNote(n, last).counts == n.counts + multiset(Shown(last))
    ensures AddNote(n, last).reloads == n.reloads + multiset(Rejected(last))
    ensures AddNote(n, last).bySession
            == if Shown(last) == [] then n.bySession else Marked(n.bySession, last.session, Shown(last)[0])
  {
    if last.event.Notification? {
      ListedNotifications(last.event.text);
    }
  }

  lemma OneMoreNote(n: Notes, before: seq<Record>, last: Record)
    requires NotesTell(n, before)
    ensures NotesTell(AddNote(n, last), before + [last])
  {
    NoteOfRecord(n, last);
    LastMapped(Shown, before, last);
    LastMapped(Rejected, before, last);
    forall id: string ensures Value(AddNote(n, last).bySession, id, {}) == ShownIn(before + [last], id) {
      assert Value(n.bySession, id, {}) == ShownIn(before, id);
      OneMoreShown(before, last, id);
    }
  }

  lemma {:induction false} NotesTellTheRecords(records: seq<Record>)
    requires Collected(records).Some?
    ensures NotesTell(Collected(records).value.notes, records)
  {
    if records != [] {
      LastAbsorbed(records);
      var init := records[..|records| - 1];
      NotesTellTheRecords(init);
      OneMoreNote(Collected(init).value.notes, init, records[|records| - 1]);
    }
  }

  // ---------------------------------------------------------------- render samples

  ghost predicate BucketTells(b: Bucket, hz: int, records: seq<Record>) {
    && b.frames == FlatMap(FramesAt(hz), records) && b.linear == FlatMap(LinearAt(hz), records)
    && b.angular == FlatMap(AngularAt(hz), records) && b.repeated == |FlatMap(RepeatsAt(hz), records)|
  }

  ghost predicate RenderTells(render: map<int, Bucket>, records: seq<Record>) {
    && (forall hz: int :: hz in render <==> exists i :: 0 <= i < |records| && IsSampleAt(records[i], hz))
    && forall hz: int :: BucketTells(Value(render, hz, NO_BUCKET), hz, records)
  }

  lemma OneMoreInBucket(b: Bucket, hz: int, before: seq<Record>, last: Record)
    requires BucketTells(b, hz, before) && RecordIsValid(last)
    ensures BucketTells(
              if IsSampleAt(last, hz)
              then WithSample(b, Measure(last.event.frame), Measure(last.event.linear), Measure(last.event.angular),
                              last.event.repeated)
              else b,
              hz, before + [last])
  {
    LastMapped(FramesAt(hz), before, last);
    LastMapped(LinearAt(hz), before, last);
    LastMapped(AngularAt(hz), before, last);
    LastMapped(RepeatsAt(hz), before, last);
  }

  lemma OneMoreSample(render: map<int, Bucket>, before: seq<Record>, last: Record)
    requires RenderTells(render, before) && RecordIsValid(last)
    ensures RenderTells(AddSample(render, last), before + [last])
  {
    var records := before + [last];
    assert forall i | 0 <= i < |before| :: records[i] == before[i];
    assert records[|before|] == last;
    forall hz: int ensures BucketTells(Value(AddSample(render, last), hz, NO_BUCKET), hz, records) {
      OneMoreInBucket(Value(render, hz, NO_BUCKET), hz, before, last);
    }
  }

  lemma NoSamplesYet()
    ensures RenderTells(map[], [])
  {
    forall hz: int ensures BucketTells(NO_BUCKET, hz, []) {
      OneMapped(FramesAt(hz), NO_RECORD);
      OneMapped(LinearAt(hz), NO_RECORD);
      OneMapped(AngularAt(hz), NO_RECORD);
      OneMapped(RepeatsAt(hz), NO_RECORD);
    }
  }

  const NO_RECORD := Record(None, "", "", "", Unnamed)

  lemma {:induction false} RenderTellsTheRecords(records: seq<Record>)
    requires Collected(records).Some?
    ensures RenderTells(Collected(records).value.render, records)
  {
    if records == [] {
      NoSamplesYet();
    } else {
      LastAbsorbed(records);
      var init := records[..|records| - 1];
      RenderTellsTheRecords(init);
      OneMoreSample(Collected(init).value.render, init, records[|records| - 1]);
    }
  }

  // ---------------------------------------------------------------- riding

  /** `value` is the least of a list. */
  predicate IsLeastOf(value: int, values: seq<int>) {
    value in values && forall v | v in values :: value <= v
  }

  ghost predicate TicksTell(ticks: map<Slot, int>, told: Slot -> Record -> seq<int>, records: seq<Record>) {
    forall slot: Slot ::
      if slot in ticks then IsLeastOf(ticks[slot], FlatMap(told(slot), records)) else FlatMap(told(slot), records) == []
  }

  lemma OneMoreTick(ticks: map<Slot, int>, told: Slot -> Record -> seq<int>, before: seq<Record>, last: Record,
                    after: map<Slot, int>)
    requires TicksTell(ticks, told, before)
    requires forall slot: Slot :: TickFollows(ticks, after, slot, told(slot)(last))
    ensures TicksTell(after, told, before + [last])
  {
    forall slot: Slot ensures
      if slot in after then IsLeastOf(after[slot], FlatMap(told(slot), before + [last]))
      else FlatMap(told(slot), before + [last]) == []
    {
      LastMapped(told(slot), before, last);
      assert TickFollows(ticks, after, slot, told(slot)(last));
      assert if slot in ticks then IsLeastOf(ticks[slot], FlatMap(told(slot), before))
             else FlatMap(told(slot), before) == [];
    }
  }

  /** What a record tells of a slot lowers its tick or sets it, and telling nothing changes nothing. */
  predicate TickFollows(ticks: map<Slot, int>, after: map<Slot, int>, slot: Slot, told: seq<int>) {
    match |told|
    case 0 => (slot in after <==> slot in ticks) && (slot in ticks ==> after[slot] == ticks[slot])
    case 1 =>
      && slot in after
      && (slot in ticks && ticks[slot] <= told[0] ==> after[slot] == ticks[slot])
      && (slot !in ticks || told[0] < ticks[slot] ==> after[slot] == told[0])
    case _ => false
  }

  ghost predicate RidingTells(r: Riding, records: seq<Record>) {
    && r.remountTicks == FlatMap(Remounted, records) && r.bolts == |FlatMap(Bolted, records)|
    && (forall slot: Slot :: r.charges[slot] == Sum(FlatMap(ChargesOf(slot), records)))
    && TicksTell(r.firstTick, StartsOf, records) && TicksTell(r.firstCharge, SpendsOf, records)
  }

  lemma TicksOfRecord(r: Riding, last: Record)
    requires RecordIsValid(last)
    ensures forall slot: Slot :: TickFollows(r.firstTick, AddRiding(r, last).firstTick, slot, StartsOf(slot)(last))
  {
  }

  lemma SpendsOfRecord(r: Riding, last: Record)
    requires RecordIsValid(last)
    ensures forall slot: Slot :: TickFollows(r.firstCharge, AddRiding(r, last).firstCharge, slot, SpendsOf(slot)(last))
  {
  }

  lemma ChargesAreListed(last: Record)
    requires RecordIsValid(last) && last.event.Interval?
    ensures ChargeStarts(last.event.counters).Some? && ChargeStarts(last.event.counters).value >= 0
    ensures ChargeStarts(last.event.counters).value == Points(last.event.counters, "charge_starts")
  {
    assert RIDING_COUNTERS[14] == "charge_starts";
    assert AtLeast(Value(last.event.counters, RIDING_COUNTERS[14], Some(0)), 0);
  }

  lemma ChargesOfRecord(r: Riding, before: seq<Record>, last: Record, slot: Slot)
    requires RecordIsValid(last) && r.charges[slot] == Sum(FlatMap(ChargesOf(slot), before))
    ensures AddRiding(r, last).charges[slot] == Sum(FlatMap(ChargesOf(slot), before + [last]))
  {
    LastMapped(ChargesOf(slot), before, last);
    SumJoins(FlatMap(ChargesOf(slot), before), ChargesOf(slot)(last));
    if last.event.Interval? {
      ChargesAreListed(last);
      LastSummed([], Points(last.event.counters, "charge_starts"));
      assert [] + [Points(last.event.counters, "charge_starts")] == [Points(last.event.counters, "charge_starts")];
    }
  }

  lemma OneMoreRiding(r: Riding, before: seq<Record>, last: Record)
    requires RidingTells(r, before) && RecordIsValid(last)
    ensures RidingTells(AddRiding(r, last), before + [last])
  {
    LastMapped(Remounted, before, last);
    LastMapped(Bolted, before, last);
    TicksOfRecord(r, last);
    SpendsOfRecord(r, last);
    OneMoreTick(r.firstTick, StartsOf, before, last, AddRiding(r, last).firstTick);
    OneMoreTick(r.firstCharge, SpendsOf, before, last, AddRiding(r, last).firstCharge);
    forall slot: Slot ensures AddRiding(r, last).charges[slot] == Sum(FlatMap(ChargesOf(slot), before + [last])) {
      ChargesOfRecord(r, before, last, slot);
    }
  }

  lemma {:induction false} RidingTellsTheRecords(records: seq<Record>)
    requires Collected(records).Some?
    ensures RidingTells(Collected(records).value.riding, records)
  {
    if records != [] {
      LastAbsorbed(records);
      var init := records[..|records| - 1];
      RidingTellsTheRecords(init);
      OneMoreRiding(Collected(init).value.riding, init, records[|records| - 1]);
    }
  }

  // ---------------------------------------------------------------- matches

  function ScoredMatch(r: Record): seq<seq<Scored>> {
    if r.event.MatchResult? then [ScoredPlayers(r.event.players)] else []
  }

  ghost predicate BountyTells(b: Bounty, records: seq<Record>) {
    && b.gaps == FlatMap(GapOf, records) && b.survey == FlatMap(ChoiceOf, records)
    && |b.results| == |FlatMap(MatchOf, records)|
    && b.results == FlatMap(ScoredMatch, records)
  }

  lemma OneMoreMatch(b: Bounty, before: seq<Record>, last: Record)
    requires BountyTells(b, before) && RecordIsValid(last) && AddBounty(b, last).Some?
    ensures BountyTells(AddBounty(b, last).value, before + [last])
  {
    LastMapped(GapOf, before, last);
    LastMapped(ChoiceOf, before, last);
    LastMapped(MatchOf, before, last);
    LastMapped(ScoredMatch, before, last);
  }

  lemma {:induction false} BountyTellsTheRecords(records: seq<Record>)
    requires Collected(records).Some?
    ensures BountyTells(Collected(records).value.bounty, records)
  {
    if records != [] {
      LastAbsorbed(records);
      var init := records[..|records| - 1];
      BountyTellsTheRecords(init);
      OneMoreMatch(Collected(init).value.bounty, init, records[|records| - 1]);
    }
  }
}
