/** The render, riding, match and notification figures of a report, told by the records alone. */
module PlaytestScores {
  import opened Protocol
  import opened Ordering
  import opened Folds
  import opened Statistics
  import opened Playtest
  import opened PlaytestOrder
  import opened PlaytestTables
  import opened PlaytestReport

  lemma CollectedRecordsAreValid(records: seq<Record>)
    requires Collected(records).Some?
    ensures forall i | 0 <= i < |records| :: RecordIsValid(records[i])
  {
    CollectsExactlyWhen(records);
  }

  // ---------------------------------------------------------------- render samples

  function UpTo(bound: real): real -> seq<real> {
    (v: real) => if v <= bound then [v] else []
  }

  function Under(bound: real): real -> seq<real> {
    (v: real) => if v < bound then [v] else []
  }

  /** The least value that a given part of the values do not exceed; there is none of nothing. */
  ghost predicate IsPercentile(figure: Option<real>, values: seq<real>, part: real) {
    if values == [] then figure == None
    else
      && figure.Some? && figure.value in values
      && |FlatMap(UpTo(figure.value), values)| as real >= part * |values| as real
      && (var under := |FlatMap(Under(figure.value), values)|;
          under == 0 || (under as real) < part * |values| as real)
  }

  lemma PercentileIsOne(values: seq<real>, part: real)
    requires 0.0 <= part <= 1.0
    ensures IsPercentile(Percentile(LEQ_REAL, values, part), values, part)
  {
    if values != [] {
      PercentileIsNearestRank(LEQ_REAL, values, part);
      var value := Percentile(LEQ_REAL, values, part).value;
      MappedAlike(KeepAtMost(LEQ_REAL, value), UpTo(value), values);
      MappedAlike(KeepBelow(LEQ_REAL, value), Under(value), values);
    }
  }

  ghost predicate RenderIsTold(report: RenderReport, hz: int, records: seq<Record>) {
    && report.samples == |FlatMap(FramesAt(hz), records)| && report.repeated == |FlatMap(RepeatsAt(hz), records)|
    && IsPercentile(report.frameMiddle, FlatMap(FramesAt(hz), records), 0.5)
    && IsPercentile(report.frameHigh, FlatMap(FramesAt(hz), records), 0.95)
    && IsPercentile(report.linearHigh, FlatMap(LinearAt(hz), records), 0.95)
    && IsPercentile(report.angularHigh, FlatMap(AngularAt(hz), records), 0.95)
  }

  lemma BucketIsTold(bucket: Bucket, hz: int, records: seq<Record>)
    requires BucketTells(bucket, hz, records)
    ensures RenderIsTold(BucketReport(bucket), hz, records)
  {
    PercentileIsOne(bucket.frames, 0.50);
    PercentileIsOne(bucket.frames, 0.95);
    PercentileIsOne(bucket.linear, 0.95);
    PercentileIsOne(bucket.angular, 0.95);
  }

  /** Each sampled rate has its own row, drawn from the samples taken at it. */
  lemma RenderFiguresAreTold(records: seq<Record>, strict: bool)
    requires Aggregated(records, strict).Some?
    ensures var render := Aggregated(records, strict).value.render;
            && (forall hz :: hz in render <==> exists i :: 0 <= i < |records| && IsSampleAt(records[i], hz))
            && forall hz | hz in render :: RenderIsTold(render[hz], hz, records)
  {
    RenderTellsTheRecords(records);
    var render := Collected(records).value.render;
    forall hz | hz in render ensures RenderIsTold(BucketReport(render[hz]), hz, records) {
      assert BucketTells(Value(render, hz, NO_BUCKET), hz, records);
      BucketIsTold(render[hz], hz, records);
    }
  }

  // ---------------------------------------------------------------- counters by name

  predicate NamesDiffer(names: seq<string>) {
    forall i, j | 0 <= i < j < |names| :: names[i] != names[j]
  }

  lemma {:induction false} AmountsCountByName(names: seq<string>, counters: map<string, Field>, name: string)
    requires NamesDiffer(names) && CountersAreValid(names, counters)
    ensures Amounts(names, counters)[name] == if name in names then Points(counters, name) else 0
  {
    if names != [] {
      var init, last := names[..|names| - 1], names[|names| - 1];
      assert AtLeast(Value(counters, last, Some(0)), 0);
      assert forall i | 0 <= i < |init| :: init[i] == names[i];
      AmountsCountByName(init, counters, name);
    }
  }

  /** A number that tells the riding counters apart: their length and two of their letters. */
  function Mark(name: string): int {
    if |name| <= 6 then 0 else |name| + 4 * (name[0] as int) + name[6] as int
  }

  const HORSE_MARKS := [549, 573, 571, 591, 536, 580, 581, 575, 514, 584, 583, 577]

  const SPUR_MARKS := [503, 535, 504, 551, 509, 513, 586, 590, 587, 596, 592, 594, 602, 606]

  lemma HorseMarks()
    ensures |HORSE_COUNTERS| == |HORSE_MARKS| == 12
    ensures forall i | 0 <= i < 12 :: Mark(HORSE_COUNTERS[i]) == HORSE_MARKS[i]
  {
    assert Mark(HORSE_COUNTERS[0]) == 549 && Mark(HORSE_COUNTERS[1]) == 573;
    assert Mark(HORSE_COUNTERS[2]) == 571 && Mark(HORSE_COUNTERS[3]) == 591;
    assert Mark(HORSE_COUNTERS[4]) == 536 && Mark(HORSE_COUNTERS[5]) == 580;
    assert Mark(HORSE_COUNTERS[6]) == 581 && Mark(HORSE_COUNTERS[7]) == 575;
    assert Mark(HORSE_COUNTERS[8]) == 514 && Mark(HORSE_COUNTERS[9]) == 584;
    assert Mark(HORSE_COUNTERS[10]) == 583 && Mark(HORSE_COUNTERS[11]) == 577;
  }

  lemma SpurMarks()
    ensures |SPUR_COUNTERS| == |SPUR_MARKS| == 14
    ensures forall i | 0 <= i < 14 :: Mark(SPUR_COUNTERS[i]) == SPUR_MARKS[i]
  {
    assert Mark(SPUR_COUNTERS[0]) == 503 && Mark(SPUR_COUNTERS[1]) == 535;
    assert Mark(SPUR_COUNTERS[2]) == 504 && Mark(SPUR_COUNTERS[3]) == 551;
    assert Mark(SPUR_COUNTERS[4]) == 509 && Mark(SPUR_COUNTERS[5]) == 513;
    assert Mark(SPUR_COUNTERS[6]) == 586 && Mark(SPUR_COUNTERS[7]) == 590;
    assert Mark(SPUR_COUNTERS[8]) == 587 && Mark(SPUR_COUNTERS[9]) == 596;
    assert Mark(SPUR_COUNTERS[10]) == 592 && Mark(SPUR_COUNTERS[11]) == 594;
    assert Mark(SPUR_COUNTERS[12]) == 602 && Mark(SPUR_COUNTERS[13]) == 606;
  }

  lemma MarksDiffer(marks: seq<int>)
    requires marks == HORSE_MARKS + SPUR_MARKS
    ensures forall i, j | 0 <= i < j < 26 :: marks[i] != marks[j]
  {
  }

  lemma RidingNamesDiffer()
    ensures NamesDiffer(RIDING_COUNTERS)
  {
    HorseMarks();
    SpurMarks();
    var names, marks := RIDING_COUNTERS, HORSE_MARKS + SPUR_MARKS;
    MarksDiffer(marks);
    assert forall i | 0 <= i < 26 :: Mark(names[i]) == marks[i];
    forall i, j | 0 <= i < j < 26 ensures names[i] != names[j] {
      assert marks[i] != marks[j];
    }
  }

  lemma BountyNamesDiffer()
    ensures NamesDiffer(BOUNTY_COUNTERS)
  {
  }

  lemma CategoriesDiffer()
    ensures NamesDiffer(SCORE_CATEGORIES)
  {
  }

  lemma RidingCountsByName(last: Record, name: string)
    requires RecordIsValid(last)
    ensures RidingCounts(last.event)[name] == if name in RIDING_COUNTERS then Sum(RidingPoints(name)(last)) else 0
  {
    if last.event.Interval? {
      RidingNamesDiffer();
      AmountsCountByName(RIDING_COUNTERS, last.event.counters, name);
      OneSummed(Points(last.event.counters, name));
    } else {
      NothingHasNoStatistics();
    }
  }

  lemma BountyCountsByName(last: Record, name: string)
    requires RecordIsValid(last)
    ensures BountyCounts(last.event)[name] == if name in BOUNTY_COUNTERS then Sum(BountyPoints(name)(last)) else 0
  {
    if last.event.BountyInterval? {
      BountyNamesDiffer();
      AmountsCountByName(BOUNTY_COUNTERS, last.event.counters, name);
      OneSummed(Points(last.event.counters, name));
    } else {
      NothingHasNoStatistics();
    }
  }

  lemma OneSummed(v: int)
    ensures Sum([v]) == v
  {
    LastSummed([], v);
    assert [] + [v] == [v];
  }

  lemma OneMoreSummed(points: Record -> seq<int>, before: seq<Record>, last: Record)
    ensures Sum(FlatMap(points, before + [last])) == Sum(FlatMap(points, before)) + Sum(points(last))
  {
    LastMapped(points, before, last);
    SumJoins(FlatMap(points, before), points(last));
  }

  lemma {:induction false} CountersTellTheRecords(records: seq<Record>, name: string)
    requires Collected(records).Some?
    ensures var tables := Collected(records).value;
            && tables.riding.counters[name]
               == (if name in RIDING_COUNTERS then Sum(FlatMap(RidingPoints(name), records)) else 0)
            && tables.bounty.counters[name]
               == (if name in BOUNTY_COUNTERS then Sum(FlatMap(BountyPoints(name), records)) else 0)
  {
    if records == [] {
      NothingHasNoStatistics();
    } else {
      LastAbsorbed(records);
      var init, last := records[..|records| - 1], records[|records| - 1];
      CountersTellTheRecords(init, name);
      RidingCountsByName(last, name);
      BountyCountsByName(last, name);
      OneMoreSummed(RidingPoints(name), init, last);
      OneMoreSummed(BountyPoints(name), init, last);
    }
  }

  // ---------------------------------------------------------------- charges by actor

  /** The slots seen in intervals are exactly these, each named once. */
  ghost predicate ListsSlots(slots: seq<Slot>, records: seq<Record>) {
    && (forall i, j | 0 <= i < j < |slots| :: slots[i] != slots[j])
    && forall slot: Slot :: slot in slots <==> exists i :: 0 <= i < |records| && IsIntervalOf(records[i], slot)
  }

  function ChargeTotal(records: seq<Record>): Slot -> seq<int> {
    (slot: Slot) => if FlatMap(StartsOf(slot), records) == [] then [] else [Sum(FlatMap(ChargesOf(slot), records))]
  }

  function Least(values: seq<int>): (least: int)
    requires values != []
    ensures IsLeastOf(least, values)
  {
    if |values| == 1 then values[0]
    else
      var rest, last := Least(values[..|values| - 1]), values[|values| - 1];
      assert values == values[..|values| - 1] + [last];
      if last < rest then last else rest
  }

  /** From a slot's earliest interval to its earliest charge, unless the charge came first. */
  function Delay(records: seq<Record>): Slot -> seq<int> {
    (slot: Slot) =>
      var starts, spends := FlatMap(StartsOf(slot), records), FlatMap(SpendsOf(slot), records);
      if starts == [] || spends == [] || Least(spends) < Least(starts) then [] else [Least(spends) - Least(starts)]
  }

  lemma {:induction false} SeenSlotHasStarts(records: seq<Record>, slot: Slot)
    ensures FlatMap(StartsOf(slot), records) != [] <==>
              exists i :: 0 <= i < |records| && IsIntervalOf(records[i], slot)
  {
    if records != [] {
      var init, last := records[..|records| - 1], records[|records| - 1];
      assert records == init + [last];
      SeenSlotHasStarts(init, slot);
      LastMapped(StartsOf(slot), init, last);
      assert forall i | 0 <= i < |init| :: records[i] == init[i];
    }
  }

  lemma ChargesOfSlot(r: Riding, records: seq<Record>, slot: Slot)
    requires RidingTells(r, records)
    ensures ChargeTotal(records)(slot) == if slot in ChargesBySlot(r) then [ChargesBySlot(r)[slot]] else []
  {
  }

  lemma SlotIsSeen(r: Riding, records: seq<Record>, slots: seq<Slot>, slot: Slot)
    requires TicksTell(r.firstTick, StartsOf, records) && ListsSlots(slots, records)
    ensures slot in r.firstTick ==> slot in slots
  {
    SeenSlotHasStarts(records, slot);
  }

  lemma ChargesAreTold(r: Riding, records: seq<Record>, slots: seq<Slot>)
    requires RidingTells(r, records) && ListsSlots(slots, records)
    ensures multiset(FlatMap(ChargeTotal(records), slots)) == multiset(Listed(ChargesBySlot(r)))
  {
    forall slot: Slot
      ensures ChargeTotal(records)(slot) == if slot in ChargesBySlot(r) then [ChargesBySlot(r)[slot]] else []
    {
      ChargesOfSlot(r, records, slot);
    }
    forall slot | slot in ChargesBySlot(r) ensures slot in slots {
      SlotIsSeen(r, records, slots, slot);
    }
    ListedInAnyOrder(ChargesBySlot(r), slots, ChargeTotal(records));
  }

  lemma LeastIsUnique(value: int, values: seq<int>)
    requires IsLeastOf(value, values)
    ensures values != [] && Least(values) == value
  {
  }

  lemma KnownDelay(r: Riding, records: seq<Record>, slot: Slot)
    requires slot in r.firstTick && IsLeastOf(r.firstTick[slot], FlatMap(StartsOf(slot), records))
    requires slot in r.firstCharge && IsLeastOf(r.firstCharge[slot], FlatMap(SpendsOf(slot), records))
    ensures Delay(records)(slot) == if slot in DelaysBySlot(r) then [DelaysBySlot(r)[slot]] else []
  {
    LeastIsUnique(r.firstTick[slot], FlatMap(StartsOf(slot), records));
    LeastIsUnique(r.firstCharge[slot], FlatMap(SpendsOf(slot), records));
  }

  lemma DelayOfSlot(r: Riding, records: seq<Record>, slot: Slot)
    requires TicksTell(r.firstTick, StartsOf, records) && TicksTell(r.firstCharge, SpendsOf, records)
    ensures Delay(records)(slot) == if slot in DelaysBySlot(r) then [DelaysBySlot(r)[slot]] else []
  {
    if slot in r.firstTick && slot in r.firstCharge {
      KnownDelay(r, records, slot);
    } else {
      assert FlatMap(StartsOf(slot), records) == [] || FlatMap(SpendsOf(slot), records) == [];
    }
  }

  lemma DelaysAreTold(r: Riding, records: seq<Record>, slots: seq<Slot>)
    requires TicksTell(r.firstTick, StartsOf, records) && TicksTell(r.firstCharge, SpendsOf, records)
    requires ListsSlots(slots, records)
    ensures multiset(FlatMap(Delay(records), slots)) == multiset(Listed(DelaysBySlot(r)))
  {
    forall slot: Slot ensures Delay(records)(slot) == if slot in DelaysBySlot(r) then [DelaysBySlot(r)[slot]] else [] {
      DelayOfSlot(r, records, slot);
    }
    forall slot | slot in DelaysBySlot(r) ensures slot in slots {
      SlotIsSeen(r, records, slots, slot);
    }
    ListedInAnyOrder(DelaysBySlot(r), slots, Delay(records));
  }

  ghost predicate RidingIsTold(report: RidingReport, records: seq<Record>, slots: seq<Slot>) {
    && report.bolts == |FlatMap(Bolted, records)| && report.remountMedian == Median(FlatMap(Remounted, records))
    && report.chargeMedian == Median(FlatMap(ChargeTotal(records), slots))
    && report.chargeHigh == Percentile(LEQ_INT, FlatMap(ChargeTotal(records), slots), 0.75)
    && report.firstChargeMedian == Median(FlatMap(Delay(records), slots))
  }

  lemma RidingMetricsAreTold(r: Riding, records: seq<Record>, slots: seq<Slot>)
    requires RidingTells(r, records) && ListsSlots(slots, records)
    ensures RidingIsTold(RidingMetrics(r), records, slots)
  {
    var charges, delays := FlatMap(ChargeTotal(records), slots), FlatMap(Delay(records), slots);
    ChargesAreTold(r, records, slots);
    DelaysAreTold(r, records, slots);
    PermutationsShareMiddleAndLargest(charges, Listed(ChargesBySlot(r)));
    PermutationsSharePercentile(LEQ_INT, charges, Listed(ChargesBySlot(r)), 0.75);
    PermutationsShareMiddleAndLargest(delays, Listed(DelaysBySlot(r)));
  }

  /** The riding figures, however the slots seen in intervals are listed. */
  lemma RidingFiguresAreTold(records: seq<Record>, strict: bool, slots: seq<Slot>)
    requires Aggregated(records, strict).Some? && ListsSlots(slots, records)
    ensures RidingIsTold(Aggregated(records, strict).value.riding, records, slots)
  {
    RidingTellsTheRecords(records);
    RidingMetricsAreTold(Collected(records).value.riding, records, slots);
  }

  /** Each counter of the report is the sum of what the intervals say under its name. */
  lemma CountersAreTold(records: seq<Record>, strict: bool, name: string)
    requires Aggregated(records, strict).Some?
    ensures var report := Aggregated(records, strict).value;
            && report.riding.counters[name]
               == (if name in RIDING_COUNTERS then Sum(FlatMap(RidingPoints(name), records)) else 0)
            && report.bounty.counters[name]
               == (if name in BOUNTY_COUNTERS then Sum(FlatMap(BountyPoints(name), records)) else 0)
  {
    CountersTellTheRecords(records, name);
  }

  // ---------------------------------------------------------------- matches

  function Played(r: Record): seq<Player> {
    if r.event.MatchResult? then r.event.players else []
  }

  function Score(p: Player): seq<int> { [Read(p.score)] }

  function WinningScore(p: Player): seq<int> { if p.winner then [Read(p.score)] else [] }

  function ScoreOnTarget(p: Player): seq<int> {
    if p.winner && Read(p.score) >= 400 && Read(p.score) <= 800 then [Read(p.score)] else []
  }

  function ObjectivePoints(p: Player): seq<int> { [Points(p.breakdown, "objective")] }

  const OTHER_CATEGORIES: set<string> :=
    {"assist", "horse_bolt", "saddle_dive_bonus", "mounted_long_hit", "objective", "most_wanted_elimination",
     "most_wanted_survival"}

  /** How many of the categories other than eliminations gave the player points. */
  function OtherCategories(p: Player): nat {
    |set name | name in OTHER_CATEGORIES && Points(p.breakdown, name) > 0|
  }

  function Breadth(p: Player): seq<int> { [OtherCategories(p)] }

  function WinnersBreadth(p: Player): seq<int> { if p.winner then [OtherCategories(p)] else [] }

  function LongGapOf(r: Record): seq<int> {
    if r.event.BountyInterval? && Read(r.event.gap) > 5400 then [Read(r.event.gap)] else []
  }

  function WouldReturn(r: Record): seq<bool> {
    if r.event.Survey? && r.event.choice == Some(true) then [true] else []
  }

  lemma {:induction false} ScoredMapped(f: Scored -> seq<int>, g: Player -> seq<int>, players: seq<Player>)
    requires forall i | 0 <= i < |players| :: f(ScoredPlayer(players[i])) == g(players[i])
    ensures FlatMap(f, ScoredPlayers(players)) == FlatMap(g, players)
  {
    if players != [] {
      var init, last := players[..|players| - 1], players[|players| - 1];
      assert players == init + [last];
      assert ScoredPlayers(players) == ScoredPlayers(init) + [ScoredPlayer(last)];
      ScoredMapped(f, g, init);
      LastMapped(f, ScoredPlayers(init), ScoredPlayer(last));
      LastMapped(g, init, last);
    }
  }

  /** What is read of each scored player over all results is what is read of each player over all records. */
  lemma ResultsMapped(f: Scored -> seq<int>, g: Player -> seq<int>, records: seq<Record>)
    requires forall i | 0 <= i < |records| :: RecordIsValid(records[i])
    requires forall p | PlayerIsValid(p) :: f(ScoredPlayer(p)) == g(p)
    ensures FromMatches(f, FlatMap(ScoredMatch, records)) == FlatMap(g, FlatMap(Played, records))
  {
    var each := (r: Record) => FlatMap(g, Played(r));
    forall i | 0 <= i < |records| ensures FlatMap(OfEach(f), ScoredMatch(records[i])) == each(records[i]) {
      var r := records[i];
      if r.event.MatchResult? {
        OneMapped(OfEach(f), ScoredPlayers(r.event.players));
        ScoredMapped(f, g, r.event.players);
      }
    }
    FlatMapFuses(ScoredMatch, OfEach(f), each, records);
    FlatMapFuses(Played, g, each, records);
  }

  lemma ListedCategories(name: string)
    ensures name in SCORE_CATEGORIES <==> name == "elimination" || name in OTHER_CATEGORIES
  {
    assert SCORE_CATEGORIES[0] == "elimination" && SCORE_CATEGORIES[1] == "assist";
    assert SCORE_CATEGORIES[2] == "horse_bolt" && SCORE_CATEGORIES[3] == "saddle_dive_bonus";
    assert SCORE_CATEGORIES[4] == "mounted_long_hit" && SCORE_CATEGORIES[5] == "objective";
    assert SCORE_CATEGORIES[6] == "most_wanted_elimination" && SCORE_CATEGORIES[7] == "most_wanted_survival";
  }

  lemma CategoryIsTold(p: Player, name: string)
    requires PlayerIsValid(p)
    ensures ScoredPlayer(p).categories[name] == if name in SCORE_CATEGORIES then Points(p.breakdown, name) else 0
  {
    CategoriesDiffer();
    AmountsCountByName(SCORE_CATEGORIES, p.breakdown, name);
  }

  lemma ObjectiveIsTold(p: Player)
    requires PlayerIsValid(p)
    ensures ObjectiveScore(ScoredPlayer(p)) == ObjectivePoints(p)
  {
    CategoryIsTold(p, "objective");
    assert SCORE_CATEGORIES[5] == "objective";
  }

  lemma CategoryCounts(p: Player, name: string)
    requires PlayerIsValid(p)
    ensures name in ScoredPlayer(p).categories && name != "elimination"
       <==> name in OTHER_CATEGORIES && Points(p.breakdown, name) > 0
  {
    CategoryIsTold(p, name);
    ListedCategories(name);
    ListedCategories("elimination");
    assert "elimination" !in OTHER_CATEGORIES;
  }

  lemma CategoriesAreTold(p: Player)
    requires PlayerIsValid(p)
    ensures CategoryCount(ScoredPlayer(p)) == Breadth(p)
  {
    var counted := set name | name in ScoredPlayer(p).categories && name != "elimination";
    var told := set name | name in OTHER_CATEGORIES && Points(p.breakdown, name) > 0;
    forall name: string ensures name in counted <==> name in told {
      CategoryCounts(p, name);
    }
    assert counted == told;
  }

  ghost predicate BountyIsTold(report: BountyReport, records: seq<Record>) {
    var players := FlatMap(Played, records);
    && report.matches == |FlatMap(MatchOf, records)|
    && report.winnerScoreMedian == Median(FlatMap(WinningScore, players))
    && report.scoreOnTarget == |FlatMap(ScoreOnTarget, players)|
    && report.categoryMedian == Median(FlatMap(Breadth, players))
    && report.winnerCategoryMedian == Median(FlatMap(WinnersBreadth, players))
    && report.totalScore == Sum(FlatMap(Score, players))
    && report.objectiveScore == Sum(FlatMap(ObjectivePoints, players))
    && report.longestGap == Largest(FlatMap(GapOf, records)) && report.longGaps == |FlatMap(LongGapOf, records)|
    && report.responses == |FlatMap(ChoiceOf, records)| && report.playAgain == |FlatMap(WouldReturn, records)|
  }

  lemma GapsAreTold(records: seq<Record>)
    ensures FlatMap(LongGap, FlatMap(GapOf, records)) == FlatMap(LongGapOf, records)
    ensures FlatMap(Agreed, FlatMap(ChoiceOf, records)) == FlatMap(WouldReturn, records)
  {
    forall r: Record
      ensures FlatMap(LongGap, GapOf(r)) == LongGapOf(r) && FlatMap(Agreed, ChoiceOf(r)) == WouldReturn(r)
    {
      OneMapped(LongGap, Read(if r.event.BountyInterval? then r.event.gap else None));
      OneMapped(Agreed, r.event.Survey? && r.event.choice == Some(true));
    }
    FlatMapFuses(GapOf, LongGap, LongGapOf, records);
    FlatMapFuses(ChoiceOf, Agreed, WouldReturn, records);
  }

  lemma ResultsAreTold(records: seq<Record>)
    requires forall i | 0 <= i < |records| :: RecordIsValid(records[i])
    ensures var results, players := FlatMap(ScoredMatch, records), FlatMap(Played, records);
            && FromMatches(WinnerScore, results) == FlatMap(WinningScore, players)
            && FromMatches(WinnerOnTarget, results) == FlatMap(ScoreOnTarget, players)
            && FromMatches(CategoryCount, results) == FlatMap(Breadth, players)
            && FromMatches(WinnerCategoryCount, results) == FlatMap(WinnersBreadth, players)
            && FromMatches(ScoreOf, results) == FlatMap(Score, players)
            && FromMatches(ObjectiveScore, results) == FlatMap(ObjectivePoints, players)
  {
    forall p | PlayerIsValid(p)
      ensures CategoryCount(ScoredPlayer(p)) == Breadth(p) && ObjectiveScore(ScoredPlayer(p)) == ObjectivePoints(p)
    {
      CategoriesAreTold(p);
      ObjectiveIsTold(p);
    }
    ResultsMapped(WinnerScore, WinningScore, records);
    ResultsMapped(WinnerOnTarget, ScoreOnTarget, records);
    ResultsMapped(CategoryCount, Breadth, records);
    ResultsMapped(WinnerCategoryCount, WinnersBreadth, records);
    ResultsMapped(ScoreOf, Score, records);
    ResultsMapped(ObjectiveScore, ObjectivePoints, records);
  }

  lemma BountyMetricsAreTold(b: Bounty, records: seq<Record>)
    requires BountyTells(b, records) && forall i | 0 <= i < |records| :: RecordIsValid(records[i])
    ensures BountyIsTold(BountyMetrics(b), records)
  {
    GapsAreTold(records);
    ResultsAreTold(records);
  }

  /** The match figures, read off the players as they were recorded. */
  lemma BountyFiguresAreTold(records: seq<Record>, strict: bool)
    requires Aggregated(records, strict).Some?
    ensures BountyIsTold(Aggregated(records, strict).value.bounty, records)
  {
    CollectedRecordsAreValid(records);
    BountyTellsTheRecords(records);
    BountyMetricsAreTold(Collected(records).value.bounty, records);
  }

  // ---------------------------------------------------------------- notifications

  predicate FirstDiffersAt(a: string, b: string, k: int) {
    && 0 <= k <= |a| && k < |b| && (forall i | 0 <= i < k :: a[i] == b[i])
    && (k == |a| || a[k] < b[k])
  }

  /** Characters agree up to where the first text ends or has the smaller one. */
  predicate SortsFirst(a: string, b: string) {
    exists k :: 0 <= k < |b| && FirstDiffersAt(a, b, k)
  }

  /** A session's recorded start. */
  function StartTimes(records: seq<Record>, id: string): set<int> {
    set i | 0 <= i < |records| && records[i].session == id && records[i].event.SessionStarted? ::
      Read(records[i].event.timestamp)
  }

  /** Unstarted sessions come last, and equal times go by identifier. */
  predicate ComesFirst(records: seq<Record>, a: string, b: string) {
    var x, y := StartTimes(records, a), StartTimes(records, b);
    if x == y then SortsFirst(a, b)
    else x != {} && forall s, t | s in x && t in y :: s < t
  }

  predicate IsOneOfThree(records: seq<Record>, id: string) {
    |set i | 0 <= i < |records| && ComesFirst(records, records[i].session, id) :: records[i].session| < 3
  }

  lemma DiffersOneLater(a: string, b: string, k: int)
    requires a != [] && b != [] && a[0] == b[0] && k >= 0
    ensures FirstDiffersAt(a, b, k + 1) <==> FirstDiffersAt(a[1..], b[1..], k)
  {
    if FirstDiffersAt(a, b, k + 1) {
      assert forall i | 0 <= i < k :: a[1..][i] == a[i + 1] && b[1..][i] == b[i + 1];
    }
    if FirstDiffersAt(a[1..], b[1..], k) {
      assert forall i | 0 < i < k + 1 :: a[i] == a[1..][i - 1] && b[i] == b[1..][i - 1];
    }
  }

  lemma EqualHeads(a: string, b: string)
    requires a != [] && b != [] && a[0] == b[0]
    ensures SortsFirst(a, b) <==> SortsFirst(a[1..], b[1..])
  {
    if SortsFirst(a[1..], b[1..]) {
      var k :| 0 <= k < |b| - 1 && FirstDiffersAt(a[1..], b[1..], k);
      DiffersOneLater(a, b, k);
    }
    if SortsFirst(a, b) {
      var k :| 0 <= k < |b| && FirstDiffersAt(a, b, k);
      DiffersOneLater(a, b, k - 1);
    }
  }

  lemma OtherHeads(a: string, b: string)
    requires a == [] || b == [] || a[0] != b[0]
    ensures SortsFirst(a, b) <==> b != [] && (a == [] || a[0] < b[0])
  {
    if b != [] && (a == [] || a[0] < b[0]) {
      assert FirstDiffersAt(a, b, 0);
    }
  }

  lemma {:induction false} PrecedesExactlyWhen(a: string, b: string)
    requires a != b
    ensures Precedes((c: char, d: char) => c <= d, a, b) <==> SortsFirst(a, b)
  {
    if a != [] && b != [] && a[0] == b[0] {
      PrecedesExactlyWhen(a[1..], b[1..]);
      EqualHeads(a, b);
    } else {
      OtherHeads(a, b);
    }
  }

  lemma NothingSortsBeforeItself(a: string)
    ensures !SortsFirst(a, a)
  {
  }

  lemma StartIsTold(s: Sessions, records: seq<Record>, id: string)
    requires SessionsTell(s, records) && id in s.rows
    ensures StartTimes(records, id) == if s.rows[id].start.Some? then {s.rows[id].start.value} else {}
  {
    assert RowIsTold(s.rows[id], records, id);
    assert forall i | 0 <= i < |records| :: RowTells(s.rows, records[i]);
  }

  lemma OrderIsTold(s: Sessions, records: seq<Record>, a: string, b: string)
    requires SessionsTell(s, records) && a in s.rows && b in s.rows
    ensures StartsBefore(s.rows, a, b) <==> ComesFirst(records, a, b)
  {
    StartIsTold(s, records, a);
    StartIsTold(s, records, b);
    if a == b {
      NothingSortsBeforeItself(a);
    } else {
      PrecedesExactlyWhen(a, b);
    }
  }

  lemma EarlyIsTold(s: Sessions, records: seq<Record>, id: string)
    requires SessionsTell(s, records) && id in s.rows
    ensures IsEarly(s.rows, id) <==> IsOneOfThree(records, id)
  {
    forall other | other in s.rows ensures StartsBefore(s.rows, other, id) <==> ComesFirst(records, other, id) {
      OrderIsTold(s, records, other, id);
    }
    assert (set other | other in s.rows && StartsBefore(s.rows, other, id))
        == set i | 0 <= i < |records| && ComesFirst(records, records[i].session, id) :: records[i].session;
  }

  predicate WasShownEarly(records: seq<Record>, text: string) {
    exists i :: 0 <= i < |records| && Shown(records[i]) == [text] && IsOneOfThree(records, records[i].session)
  }

  lemma EarlyTextWasShown(s: Sessions, n: Notes, records: seq<Record>, text: string)
    requires SessionsTell(s, records) && NotesTell(n, records) && SeenEarly(s.rows, n.bySession, text)
    ensures WasShownEarly(records, text)
  {
    var id :| id in s.rows && IsEarly(s.rows, id) && text in Value(n.bySession, id, {});
    EarlyIsTold(s, records, id);
    assert text in ShownIn(records, id);
    var i :| 0 <= i < |records| && records[i].session == id && Shown(records[i]) != [] && Shown(records[i])[0] == text;
    assert Shown(records[i]) == [text];
  }

  lemma ShownTextIsEarly(s: Sessions, n: Notes, records: seq<Record>, text: string)
    requires SessionsTell(s, records) && NotesTell(n, records) && WasShownEarly(records, text)
    ensures SeenEarly(s.rows, n.bySession, text)
  {
    var i :| 0 <= i < |records| && Shown(records[i]) == [text] && IsOneOfThree(records, records[i].session);
    var id := records[i].session;
    EarlyIsTold(s, records, id);
    assert Shown(records[i])[0] in ShownIn(records, id);
    assert text in Value(n.bySession, id, {});
  }

  lemma SeenExactlyWhenShown(s: Sessions, n: Notes, records: seq<Record>, text: string)
    requires SessionsTell(s, records) && NotesTell(n, records)
    ensures SeenEarly(s.rows, n.bySession, text) <==> WasShownEarly(records, text)
  {
    if SeenEarly(s.rows, n.bySession, text) {
      EarlyTextWasShown(s, n, records, text);
    }
    if WasShownEarly(records, text) {
      ShownTextIsEarly(s, n, records, text);
    }
  }

  lemma FourTexts(holds: string -> bool)
    ensures (forall text | text in NOTIFICATIONS :: holds(text)) <==>
              && holds("AIRBORNE REVERSAL") && holds("FLYING DISMOUNT")
              && holds("FULL-GALLOP HIT") && holds("SADDLE DIVE HEADSHOT")
  {
    ListedNotifications("AIRBORNE REVERSAL");
    ListedNotifications("FLYING DISMOUNT");
    ListedNotifications("FULL-GALLOP HIT");
    ListedNotifications("SADDLE DIVE HEADSHOT");
    forall text | text in NOTIFICATIONS
      ensures text == "AIRBORNE REVERSAL" || text == "FLYING DISMOUNT" || text == "FULL-GALLOP HIT"
              || text == "SADDLE DIVE HEADSHOT"
    {
      ListedNotifications(text);
    }
  }

  lemma CoverageIsTold(s: Sessions, n: Notes, records: seq<Record>)
    requires SessionsTell(s, records) && NotesTell(n, records)
    ensures CoveredEarly(s.rows, n.bySession) <==>
              && WasShownEarly(records, "AIRBORNE REVERSAL") && WasShownEarly(records, "FLYING DISMOUNT")
              && WasShownEarly(records, "FULL-GALLOP HIT") && WasShownEarly(records, "SADDLE DIVE HEADSHOT")
  {
    forall text: string ensures SeenEarly(s.rows, n.bySession, text) <==> WasShownEarly(records, text) {
      SeenExactlyWhenShown(s, n, records, text);
    }
    FourTexts(text => WasShownEarly(records, text));
  }

  /** Notifications and refused reloads are counted, and the four texts are covered by the first three sessions. */
  lemma NotificationsAreTold(records: seq<Record>, strict: bool)
    requires Aggregated(records, strict).Some?
    ensures var report := Aggregated(records, strict).value;
            && report.notifications == multiset(FlatMap(Shown, records))
            && report.reloads == multiset(FlatMap(Rejected, records))
            && (report.coveredEarly <==>
                && WasShownEarly(records, "AIRBORNE REVERSAL") && WasShownEarly(records, "FLYING DISMOUNT")
                && WasShownEarly(records, "FULL-GALLOP HIT") && WasShownEarly(records, "SADDLE DIVE HEADSHOT"))
  {
    SessionsTellTheRecords(records);
    NotesTellTheRecords(records);
    CoverageIsTold(Collected(records).value.sessions, Collected(records).value.notes, records);
  }

  // ---------------------------------------------------------------- records that are accepted

  predicate IsWhole(field: Field, least: int) {
    match field
    case None => false
    case Some(n) => least <= n
  }

  predicate AreWhole(names: seq<string>, counters: map<string, Field>) {
    forall name | name in names && name in counters :: IsWhole(counters[name], 0)
  }

  lemma CountersAreWhole(names: seq<string>, counters: map<string, Field>)
    ensures CountersAreValid(names, counters) <==> AreWhole(names, counters)
  {
    if AreWhole(names, counters) {
      assert forall i | 0 <= i < |names| :: names[i] in names;
    }
    if CountersAreValid(names, counters) {
      forall name | name in names && name in counters ensures IsWhole(counters[name], 0) {
        var i :| 0 <= i < |names| && names[i] == name;
        assert AtLeast(Value(counters, names[i], Some(0)), 0);
      }
    }
  }

  lemma OneMoreAmount(names: seq<string>, counters: map<string, Field>, k: nat)
    requires CountersAreValid(names, counters) && k < |names|
    ensures |Amounts(names[..k + 1], counters)| == |Amounts(names[..k], counters)| + Points(counters, names[k])
  {
    assert names[..k + 1][..k] == names[..k];
    assert AtLeast(Value(counters, names[k], Some(0)), 0);
  }

  function TotalPoints(b: map<string, Field>): int {
    Points(b, "elimination") + Points(b, "assist") + Points(b, "horse_bolt") + Points(b, "saddle_dive_bonus")
    + Points(b, "mounted_long_hit") + Points(b, "objective") + Points(b, "most_wanted_elimination")
    + Points(b, "most_wanted_survival")
  }

  lemma EightSteps(totals: seq<int>, steps: seq<int>)
    requires |totals| == 9 && |steps| == 8 && totals[0] == 0
    requires forall k | 0 <= k < 8 :: totals[k + 1] == totals[k] + steps[k]
    ensures totals[8]
            == steps[0] + steps[1] + steps[2] + steps[3] + steps[4] + steps[5] + steps[6] + steps[7]
  {
  }

  /** How many points the first `k` names stand for. */
  function UpToName(names: seq<string>, b: map<string, Field>, k: nat): nat {
    if k <= |names| then |Amounts(names[..k], b)| else 0
  }

  lemma NamesAddUp(names: seq<string>, b: map<string, Field>)
    requires CountersAreValid(names, b)
    ensures UpToName(names, b, 0) == 0 && UpToName(names, b, |names|) == |Amounts(names, b)|
    ensures forall k | 0 <= k < |names| :: UpToName(names, b, k + 1) == UpToName(names, b, k) + Points(b, names[k])
  {
    forall k | 0 <= k < |names|
      ensures UpToName(names, b, k + 1) == UpToName(names, b, k) + Points(b, names[k])
    {
      OneMoreAmount(names, b, k);
    }
    assert names[..|names|] == names;
  }

  lemma EightAddUp(names: seq<string>, b: map<string, Field>)
    requires CountersAreValid(names, b) && |names| == 8
    ensures |Amounts(names, b)|
            == Points(b, names[0]) + Points(b, names[1]) + Points(b, names[2]) + Points(b, names[3])
               + Points(b, names[4]) + Points(b, names[5]) + Points(b, names[6]) + Points(b, names[7])
  {
    NamesAddUp(names, b);
    var totals: seq<int> := seq(9, k requires 0 <= k => UpToName(names, b, k));
    EightSteps(totals, seq(8, k requires 0 <= k < 8 => Points(b, names[k])));
  }

  lemma CategoriesAddUp(b: map<string, Field>)
    requires CountersAreValid(SCORE_CATEGORIES, b)
    ensures |Amounts(SCORE_CATEGORIES, b)| == TotalPoints(b)
  {
    EightAddUp(SCORE_CATEGORIES, b);
  }

  /** A player's score is the sum of the eight categories, none of them negative. */
  predicate PlayerAddsUp(p: Player) {
    && IsWhole(p.slot, 0) && p.score == Some(TotalPoints(p.breakdown))
    && AreWhole(SCORE_CATEGORIES, p.breakdown)
  }

  lemma PlayerIsValidExactlyWhen(p: Player)
    ensures PlayerIsValid(p) <==> PlayerAddsUp(p)
  {
    CountersAreWhole(SCORE_CATEGORIES, p.breakdown);
    if CountersAreValid(SCORE_CATEGORIES, p.breakdown) {
      CategoriesAddUp(p.breakdown);
    }
  }

  predicate IsTheWinner(players: seq<Player>, w: int) {
    && 0 <= w < |players| && players[w].winner
    && forall i | 0 <= i < |players| && i != w :: !players[i].winner
  }

  /** One player won and nobody else. */
  ghost predicate HasOneWinner(players: seq<Player>) {
    exists w :: IsTheWinner(players, w)
  }

  predicate NobodyWon(players: seq<Player>) {
    forall i | 0 <= i < |players| :: !players[i].winner
  }

  lemma NobodyWonOneMore(init: seq<Player>, last: Player)
    ensures NobodyWon(init + [last]) <==> NobodyWon(init) && !last.winner
  {
    var players := init + [last];
    assert forall i | 0 <= i < |init| :: players[i] == init[i];
    assert players[|init|] == last;
  }

  lemma OneWinnerKept(init: seq<Player>, last: Player)
    requires if last.winner then NobodyWon(init) else HasOneWinner(init)
    ensures HasOneWinner(init + [last])
  {
    if last.winner {
      assert IsTheWinner(init + [last], |init|);
    } else {
      var w :| IsTheWinner(init, w);
      assert IsTheWinner(init + [last], w);
    }
  }

  lemma OneWinnerBefore(init: seq<Player>, last: Player)
    requires HasOneWinner(init + [last])
    ensures if last.winner then NobodyWon(init) else HasOneWinner(init)
  {
    var players := init + [last];
    var w :| IsTheWinner(players, w);
    assert forall i | 0 <= i < |init| :: players[i] == init[i];
    assert players[|init|] == last;
    if w < |init| {
      assert IsTheWinner(init, w);
    }
  }

  lemma {:induction false} WinnersCount(players: seq<Player>)
    ensures WinnerCount(players) == 0 <==> NobodyWon(players)
    ensures WinnerCount(players) == 1 <==> HasOneWinner(players)
  {
    if players != [] {
      var init, last := players[..|players| - 1], players[|players| - 1];
      assert players == init + [last];
      WinnersCount(init);
      NobodyWonOneMore(init, last);
      if WinnerCount(players) == 1 {
        OneWinnerKept(init, last);
      }
      if HasOneWinner(players) {
        OneWinnerBefore(init, last);
      }
    }
  }

  ghost predicate PlayersAddUp(players: seq<Player>) {
    && (forall i | 0 <= i < |players| :: PlayerAddsUp(players[i]))
    && (forall i, j | 0 <= i < j < |players| :: Read(players[i].slot) != Read(players[j].slot))
    && HasOneWinner(players)
  }

  lemma ResultIsValidExactlyWhen(players: seq<Player>)
    ensures ResultIsValid(players) <==> PlayersAddUp(players)
  {
    WinnersCount(players);
    forall i | 0 <= i < |players| ensures PlayerIsValid(players[i]) <==> PlayerAddsUp(players[i]) {
      PlayerIsValidExactlyWhen(players[i]);
    }
  }

  predicate IsMeasured(number: Option<real>) {
    match number
    case None => false
    case Some(x) => 0.0 <= x
  }

  ghost predicate IsComplete(event: Event, actor: string) {
    match event
    case Unnamed => false
    case SessionStarted(time) => IsWhole(time, 0)
    case SessionTerminal(time, _) => IsWhole(time, 0)
    case DiveStarted(dive) => |actor| > 0 && IsWhole(dive, 1)
    case DiveTerminal(dive, _) => |actor| > 0 && IsWhole(dive, 1)
    case RenderSample(hz, frame, linear, angular, _) =>
      IsWhole(hz, 1) && IsMeasured(frame) && IsMeasured(linear) && IsMeasured(angular)
    case Interval(slot, start, counters) =>
      IsWhole(slot, -1) && IsWhole(start, 0) && AreWhole(RIDING_COUNTERS, counters)
    case Spend(majestic, slot, tick) => !majestic || (IsWhole(slot, -1) && IsWhole(tick, 0))
    case Remount(ticks) => IsWhole(ticks, -1)
    case HorseLost(points) => points == Some(15)
    case BountyInterval(counters, gap) => IsWhole(gap, 0) && AreWhole(BOUNTY_COUNTERS, counters)
    case MatchResult(players) => PlayersAddUp(players)
    case Survey(choice) => choice != None
    case CombatShot(_, _, _) => true
    case Notification(_) => true
    case ReloadRejected(_) => true
    case Unlisted => true
  }

  predicate IsHexDigit(c: char) {
    c in "0123456789abcdef"
  }

  lemma EventIsValidExactlyWhen(event: Event, actor: string)
    ensures EventIsValid(actor, event) <==> IsComplete(event, actor)
  {
    match event
    case Interval(_, _, counters) => CountersAreWhole(RIDING_COUNTERS, counters);
    case BountyInterval(counters, _) => CountersAreWhole(BOUNTY_COUNTERS, counters);
    case MatchResult(players) => ResultIsValidExactlyWhen(players);
    case _ =>
  }

  lemma HexDigitsAre(c: char)
    ensures IsHexDigit(c) <==> '0' <= c <= '9' || 'a' <= c <= 'f'
  {
    var digits := "0123456789abcdef";
    if '0' <= c <= '9' {
      assert digits[c as int - '0' as int] == c;
    } else if 'a' <= c <= 'f' {
      assert digits[c as int - 'a' as int + 10] == c;
    }
  }

  lemma CommitExactlyWhen(build: string)
    ensures IsCommit(build) <==> |build| == 40 && forall i | 0 <= i < 40 :: IsHexDigit(build[i])
  {
    forall c: char ensures IsHexDigit(c) <==> '0' <= c <= '9' || 'a' <= c <= 'f' {
      HexDigitsAre(c);
    }
  }

  /** Exactly these records are valid: schema 1, a session, a full commit and a complete event. */
  lemma RecordIsValidExactlyWhen(r: Record)
    ensures RecordIsValid(r) <==>
              && r.schema == Some(1) && |r.session| > 0
              && |r.build| == 40 && (forall i | 0 <= i < 40 :: IsHexDigit(r.build[i]))
              && IsComplete(r.event, r.actor)
  {
    CommitExactlyWhen(r.build);
    EventIsValidExactlyWhen(r.event, r.actor);
  }
}
