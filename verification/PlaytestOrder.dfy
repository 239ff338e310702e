/** The tables a playtest folds into do not depend on the order of the records. */
module PlaytestOrder {
  import opened Protocol
  import opened Folds
  import opened Playtest

  // ---------------------------------------------------------------- equal up to the order inside lists

  predicate SameBucket(a: Bucket, b: Bucket) {
    && multiset(a.frames) == multiset(b.frames) && multiset(a.linear) == multiset(b.linear)
    && multiset(a.angular) == multiset(b.angular) && a.repeated == b.repeated
  }

  predicate SameRender(a: map<int, Bucket>, b: map<int, Bucket>) {
    a.Keys == b.Keys && forall hz | hz in a :: SameBucket(a[hz], b[hz])
  }

  predicate SameRiding(a: Riding, b: Riding) {
    multiset(a.remountTicks) == multiset(b.remountTicks) && a.(remountTicks := []) == b.(remountTicks := [])
  }

  predicate SameBounty(a: Bounty, b: Bounty) {
    && multiset(a.gaps) == multiset(b.gaps) && multiset(a.results) == multiset(b.results)
    && multiset(a.survey) == multiset(b.survey)
    && a.counters == b.counters && a.resultSessions == b.resultSessions
  }

  predicate Same(a: Tables, b: Tables) {
    && a.sessions == b.sessions && a.dives == b.dives && a.notes == b.notes
    && SameRender(a.render, b.render) && SameRiding(a.riding, b.riding) && SameBounty(a.bounty, b.bounty)
  }

  predicate SameOutcome(a: Option<Tables>, b: Option<Tables>) {
    a.Some? == b.Some? && (a.Some? ==> Same(a.value, b.value))
  }

  // ---------------------------------------------------------------- two records commute, table by table

  lemma UpdatesCommute<K, V>(m: map<K, V>, j: K, x: V, k: K, y: V)
    requires j != k
    ensures m[j := x][k := y] == m[k := y][j := x]
  {
  }

  lemma MarksCommute(marks: map<string, set<string>>, j: string, x: string, k: string, y: string)
    ensures Marked(Marked(marks, j, x), k, y) == Marked(Marked(marks, k, y), j, x)
  {
    if j == k {
      assert (Value(marks, j, {}) + {x}) + {y} == (Value(marks, j, {}) + {y}) + {x};
    } else {
      UpdatesCommute(marks, j, Value(marks, j, {}) + {x}, k, Value(marks, k, {}) + {y});
    }
  }

  lemma EarliestCommutes(ticks: map<Slot, int>, j: Slot, x: int, k: Slot, y: int)
    ensures Earliest(Earliest(ticks, j, x), k, y) == Earliest(Earliest(ticks, k, y), j, x)
  {
    if j != k {
      UpdatesCommute(ticks, j, Earliest(ticks, j, x)[j], k, Earliest(ticks, k, y)[k]);
    }
  }

  function ThenRow(row: Option<SessionRow>, event: Event): Option<SessionRow> {
    if row.None? then None else RowWithEvent(row.value, event)
  }

  predicate IsDated(event: Event) {
    (event.SessionStarted? || event.SessionTerminal?) ==> event.timestamp.Some?
  }

  lemma RowEventsCommute(row: SessionRow, a: Event, b: Event)
    requires IsDated(a) && IsDated(b)
    ensures ThenRow(RowWithEvent(row, a), b) == ThenRow(RowWithEvent(row, b), a)
  {
  }

  lemma RowEventsKeepTheBuild(row: SessionRow, event: Event)
    ensures var filled := RowWithEvent(row, event); filled.Some? ==> filled.value.build == row.build
    ensures RowWithEvent(row, event).None? <==>
            (event.SessionStarted? && row.start.Some?) || (event.SessionTerminal? && row.end.Some?)
  {
  }

  function ThenSession(sessions: Option<Sessions>, record: Record): Option<Sessions> {
    if sessions.None? then None else AddSession(sessions.value, record)
  }

  lemma SessionsCommute(sessions: Sessions, a: Record, b: Record)
    requires IsDated(a.event) && IsDated(b.event)
    ensures ThenSession(AddSession(sessions, a), b) == ThenSession(AddSession(sessions, b), a)
  {
    var ra := Value(sessions.rows, a.session, SessionRow(a.build, None, None, false));
    var rb := Value(sessions.rows, b.session, SessionRow(b.build, None, None, false));
    var fa, fb := RowWithEvent(ra, a.event), RowWithEvent(rb, b.event);
    RowEventsKeepTheBuild(ra, a.event);
    RowEventsKeepTheBuild(rb, b.event);
    assert (sessions.builds + {a.build}) + {b.build} == (sessions.builds + {b.build}) + {a.build};
    ActorsCommute(sessions.actors, a, b);
    if a.session != b.session {
      if fa.Some? && fb.Some? {
        UpdatesCommute(sessions.rows, a.session, fa.value, b.session, fb.value);
      }
    } else if a.build == b.build {
      RowEventsCommute(ra, a.event, b.event);
      SameSessionCommutes(sessions, a, b);
    }
  }

  lemma SameSessionCommutes(sessions: Sessions, a: Record, b: Record)
    requires a.session == b.session && a.build == b.build && IsDated(a.event) && IsDated(b.event)
    ensures ThenSession(AddSession(sessions, a), b) == ThenSession(AddSession(sessions, b), a)
  {
    var row := Value(sessions.rows, a.session, SessionRow(a.build, None, None, false));
    RowEventsKeepTheBuild(row, a.event);
    RowEventsKeepTheBuild(row, b.event);
    RowEventsCommute(row, a.event, b.event);
    ActorsCommute(sessions.actors, a, b);
    var both := ThenRow(RowWithEvent(row, a.event), b.event);
    if row.build == a.build && both.Some? {
      var after := Sessions(sessions.rows[a.session := both.value], WithActor(WithActor(sessions.actors, a), b),
                            sessions.builds + {a.build});
      assert ThenSession(AddSession(sessions, a), b).value == after;
      assert ThenSession(AddSession(sessions, b), a).value == after;
    }
  }

  lemma ActorsCommute(actors: map<string, set<string>>, a: Record, b: Record)
    ensures WithActor(WithActor(actors, a), b) == WithActor(WithActor(actors, b), a)
  {
    MarksCommute(actors, a.session, a.actor, b.session, b.actor);
  }

  function ThenDive(dives: Option<Dives>, record: Record): Option<Dives> {
    if dives.None? then None else AddDive(dives.value, record)
  }

  lemma DivesCommute(dives: Dives, a: Record, b: Record)
    ensures ThenDive(AddDive(dives, a), b) == ThenDive(AddDive(dives, b), a)
  {
    if a.event.DiveStarted? && b.event.DiveStarted? {
      var j, k := KeyOf(a, a.event.dive), KeyOf(b, b.event.dive);
      assert (dives.starts + {j}) + {k} == (dives.starts + {k}) + {j};
    } else if a.event.DiveTerminal? && b.event.DiveTerminal? {
      var j, k := KeyOf(a, a.event.dive), KeyOf(b, b.event.dive);
      if j != k {
        UpdatesCommute(dives.terminals, j, a.event.row, k, b.event.row);
      }
    }
  }

  lemma NotesCommute(notes: Notes, a: Record, b: Record)
    ensures AddNote(AddNote(notes, a), b) == AddNote(AddNote(notes, b), a)
  {
    if a.event.Notification? && b.event.Notification? {
      MarksCommute(notes.bySession, a.session, a.event.text, b.session, b.event.text);
      assert (notes.counts + multiset{a.event.text}) + multiset{b.event.text}
          == (notes.counts + multiset{b.event.text}) + multiset{a.event.text};
    } else if a.event.ReloadRejected? && b.event.ReloadRejected? {
      var x, y := ReasonOf(a.event.reason), ReasonOf(b.event.reason);
      assert (notes.reloads + multiset{x}) + multiset{y} == (notes.reloads + multiset{y}) + multiset{x};
    }
  }

  lemma EndsCommute<T>(xs: seq<T>, ys: seq<T>, zs: seq<T>)
    ensures multiset((xs + ys) + zs) == multiset((xs + zs) + ys)
  {
  }

  lemma SumsCommute<T>(total: multiset<T>, x: multiset<T>, y: multiset<T>)
    ensures (total + x) + y == (total + y) + x
  {
  }

  lemma BucketSamplesCommute(bucket: Bucket, a: Event, b: Event)
    requires a.RenderSample? && b.RenderSample?
    ensures SameBucket(
      WithSample(WithSample(bucket, Measure(a.frame), Measure(a.linear), Measure(a.angular), a.repeated),
                 Measure(b.frame), Measure(b.linear), Measure(b.angular), b.repeated),
      WithSample(WithSample(bucket, Measure(b.frame), Measure(b.linear), Measure(b.angular), b.repeated),
                 Measure(a.frame), Measure(a.linear), Measure(a.angular), a.repeated))
  {
    EndsCommute(bucket.frames, [Measure(a.frame)], [Measure(b.frame)]);
    EndsCommute(bucket.linear, [Measure(a.linear)], [Measure(b.linear)]);
    EndsCommute(bucket.angular, [Measure(a.angular)], [Measure(b.angular)]);
  }

  lemma SampledTwice(render: map<int, Bucket>, a: Event, b: Event)
    requires a.RenderSample? && b.RenderSample? && Number(a.hz) == Number(b.hz)
    ensures Sampled(Sampled(render, a), b) == render[Number(a.hz) :=
      WithSample(WithSample(Value(render, Number(a.hz), NO_BUCKET),
                            Measure(a.frame), Measure(a.linear), Measure(a.angular), a.repeated),
                 Measure(b.frame), Measure(b.linear), Measure(b.angular), b.repeated)]
  {
  }

  lemma SameAfterUpdate(render: map<int, Bucket>, hz: int, x: Bucket, y: Bucket)
    requires SameBucket(x, y)
    ensures SameRender(render[hz := x], render[hz := y])
  {
  }

  lemma SampledCommutes(render: map<int, Bucket>, a: Event, b: Event)
    requires a.RenderSample? && b.RenderSample?
    ensures SameRender(Sampled(Sampled(render, a), b), Sampled(Sampled(render, b), a))
  {
    var j, k := Number(a.hz), Number(b.hz);
    if j == k {
      SampledTwice(render, a, b);
      SampledTwice(render, b, a);
      BucketSamplesCommute(Value(render, j, NO_BUCKET), a, b);
      SameAfterUpdate(render, j, Sampled(Sampled(render, a), b)[j], Sampled(Sampled(render, b), a)[j]);
    } else {
      UpdatesCommute(render, j, Sampled(render, a)[j], k, Sampled(render, b)[k]);
    }
  }

  lemma SamplesCommute(render: map<int, Bucket>, a: Record, b: Record)
    ensures SameRender(AddSample(AddSample(render, a), b), AddSample(AddSample(render, b), a))
  {
    if a.event.RenderSample? && b.event.RenderSample? {
      SampledCommutes(render, a.event, b.event);
    }
  }

  lemma RidingCommutes(riding: Riding, a: Record, b: Record)
    ensures SameRiding(AddRiding(AddRiding(riding, a), b), AddRiding(AddRiding(riding, b), a))
  {
    SumsCommute(riding.counters, RidingCounts(a.event), RidingCounts(b.event));
    EndsCommute(riding.remountTicks, RemountTimes(a.event), RemountTimes(b.event));
    SumsCommute(riding.charges, Charges(a.session, a.event), Charges(b.session, b.event));
    TicksCommute(riding.firstTick, a, b);
    SpendsCommute(riding.firstCharge, a, b);
  }

  lemma TicksCommute(ticks: map<Slot, int>, a: Record, b: Record)
    ensures WithTick(WithTick(ticks, a.session, a.event), b.session, b.event)
         == WithTick(WithTick(ticks, b.session, b.event), a.session, a.event)
  {
    if a.event.Interval? && b.event.Interval? {
      EarliestCommutes(ticks, (a.session, Number(a.event.slot)), Number(a.event.start),
                       (b.session, Number(b.event.slot)), Number(b.event.start));
    }
  }

  lemma SpendsCommute(ticks: map<Slot, int>, a: Record, b: Record)
    ensures WithSpend(WithSpend(ticks, a.session, a.event), b.session, b.event)
         == WithSpend(WithSpend(ticks, b.session, b.event), a.session, a.event)
  {
    if a.event.Spend? && b.event.Spend? {
      EarliestCommutes(ticks, (a.session, Number(a.event.slot)), Number(a.event.tick),
                       (b.session, Number(b.event.slot)), Number(b.event.tick));
    }
  }

  function ThenBounty(bounty: Option<Bounty>, record: Record): Option<Bounty> {
    if bounty.None? then None else AddBounty(bounty.value, record)
  }

  predicate SameBounties(a: Option<Bounty>, b: Option<Bounty>) {
    a.Some? == b.Some? && (a.Some? ==> SameBounty(a.value, b.value))
  }

  lemma ResultSessionsCommute(seen: set<string>, a: Record, b: Record)
    ensures ResultSessions(a) !! seen && ResultSessions(b) !! seen + ResultSessions(a)
       <==> ResultSessions(b) !! seen && ResultSessions(a) !! seen + ResultSessions(b)
    ensures (seen + ResultSessions(a)) + ResultSessions(b) == (seen + ResultSessions(b)) + ResultSessions(a)
  {
  }

  lemma BountyCommutes(bounty: Bounty, a: Record, b: Record)
    ensures SameBounties(ThenBounty(AddBounty(bounty, a), b), ThenBounty(AddBounty(bounty, b), a))
  {
    ResultSessionsCommute(bounty.resultSessions, a, b);
    SumsCommute(bounty.counters, BountyCounts(a.event), BountyCounts(b.event));
    EndsCommute(bounty.gaps, Gaps(a.event), Gaps(b.event));
    EndsCommute(bounty.results, Results(a.event), Results(b.event));
    EndsCommute(bounty.survey, Choices(a.event), Choices(b.event));
  }

  // ---------------------------------------------------------------- a record respects equality up to order

  lemma SamplesRespect(x: map<int, Bucket>, y: map<int, Bucket>, record: Record)
    requires SameRender(x, y)
    ensures SameRender(AddSample(x, record), AddSample(y, record))
  {
  }

  lemma RidingRespects(x: Riding, y: Riding, record: Record)
    requires SameRiding(x, y)
    ensures SameRiding(AddRiding(x, record), AddRiding(y, record))
  {
  }

  lemma BountyRespects(x: Bounty, y: Bounty, record: Record)
    requires SameBounty(x, y)
    ensures SameBounties(AddBounty(x, record), AddBounty(y, record))
  {
  }

  lemma TwoRecords(tables: Tables, a: Record, b: Record)
    requires RecordIsValid(a) && RecordIsValid(b)
    ensures Then(Absorbed(tables, a), b) == Joined(
      ThenSession(AddSession(tables.sessions, a), b), ThenDive(AddDive(tables.dives, a), b),
      AddNote(AddNote(tables.notes, a), b), AddSample(AddSample(tables.render, a), b),
      AddRiding(AddRiding(tables.riding, a), b), ThenBounty(AddBounty(tables.bounty, a), b))
  {
  }

  lemma RecordsCommute(tables: Option<Tables>, a: Record, b: Record)
    ensures SameOutcome(Then(Then(tables, a), b), Then(Then(tables, b), a))
  {
    if tables.Some? && RecordIsValid(a) && RecordIsValid(b) {
      var t := tables.value;
      TwoRecords(t, a, b);
      TwoRecords(t, b, a);
      SessionsCommute(t.sessions, a, b);
      DivesCommute(t.dives, a, b);
      NotesCommute(t.notes, a, b);
      SamplesCommute(t.render, a, b);
      RidingCommutes(t.riding, a, b);
      BountyCommutes(t.bounty, a, b);
    }
  }

  lemma RecordRespects(x: Option<Tables>, y: Option<Tables>, record: Record)
    requires SameOutcome(x, y)
    ensures SameOutcome(Then(x, record), Then(y, record))
  {
    if x.Some? && RecordIsValid(record) {
      SamplesRespect(x.value.render, y.value.render, record);
      RidingRespects(x.value.riding, y.value.riding, record);
      BountyRespects(x.value.bounty, y.value.bounty, record);
    }
  }

  lemma SameOutcomeIsTransitive(x: Option<Tables>, y: Option<Tables>, z: Option<Tables>)
    requires SameOutcome(x, y) && SameOutcome(y, z)
    ensures SameOutcome(x, z)
  {
  }

  // ---------------------------------------------------------------- permutations

  lemma RecordsAreOrderBlind()
    ensures IsOrderBlind(Then, SameOutcome)
  {
    forall x, y, z | SameOutcome(x, y) && SameOutcome(y, z) ensures SameOutcome(x, z) {
      SameOutcomeIsTransitive(x, y, z);
    }
    forall tables, a, b ensures SameOutcome(Then(Then(tables, a), b), Then(Then(tables, b), a)) {
      RecordsCommute(tables, a, b);
    }
    forall x, y, record | SameOutcome(x, y) ensures SameOutcome(Then(x, record), Then(y, record)) {
      RecordRespects(x, y, record);
    }
  }

  /** Any permutation of the records is refused alike or gives the same tables. */
  lemma PermutationsCollectAlike(xs: seq<Record>, ys: seq<Record>)
    requires multiset(xs) == multiset(ys)
    ensures SameOutcome(Collected(xs), Collected(ys))
  {
    RecordsAreOrderBlind();
    PermutationsFoldAlike(Then, SameOutcome, Some(NO_TABLES), xs, ys);
  }
}
