/** Every action keeps the outbox invariant. */
module OutboxInvariant {
  import opened Wrappers
  import opened Schema
  import opened Outbox

  // ---------------------------------------------------------------- carrying facts over

  /** Row, event and entry number of `k` are the same on both sides. */
  ghost predicate SameRow(db: Db, current: map<Key, nat>, db': Db, current': map<Key, nat>, k: Key) {
    && k in db.rows && k in db'.rows && db'.rows[k] == db.rows[k]
    && k.event in db.events && k.event in db'.events && db'.events[k.event] == db.events[k.event]
    && k in current && k in current' && current'[k] == current[k]
  }

  ghost predicate Extends(log: seq<Entry>, log': seq<Entry>) {
    |log| <= |log'| && forall i | 0 <= i < |log| :: log'[i] == log[i]
  }

  lemma CarryTracked(db: Db, log: seq<Entry>, current: map<Key, nat>, db': Db, log': seq<Entry>,
      current': map<Key, nat>, k: Key)
    requires Tracked(db, log, current, k) && SameRow(db, current, db', current', k) && Extends(log, log')
    ensures Tracked(db', log', current', k)
  {
  }

  lemma CarryKept(db: Db, log: seq<Entry>, current: map<Key, nat>, db': Db, log': seq<Entry>, current': map<Key, nat>,
      i: nat)
    requires Kept(db, log, current, i) && Extends(log, log')
    requires !log[i].answered ==> SameRow(db, current, db', current', log[i].key)
    ensures Kept(db', log', current', i)
  {
  }

  lemma CarryAloft(db: Db, log: seq<Entry>, current: map<Key, nat>, db': Db, log': seq<Entry>, current': map<Key, nat>,
                   flights: map<Key, Flight>)
    requires Aloft(db, log, current, flights) && Extends(log, log')
    requires forall k | k in flights :: SameRow(db, current, db', current', k)
    ensures Aloft(db', log', current', flights)
  {
  }

  lemma TrackedHasEntry(s: System, k: Key)
    requires Tracked(s.db, s.log, s.current, k)
    ensures k in s.current && k in s.db.rows
  {
  }

  lemma KeptHasRow(s: System, i: nat)
    requires Kept(s.db, s.log, s.current, i) && !s.log[i].answered
    ensures s.log[i].key in s.db.rows && IsPending(s.db, s.log[i].key)
  {
  }

  lemma RecordedKeys(s: System)
    requires Inv(s)
    ensures s.current.Keys == s.db.rows.Keys && ForeignKeys(s.db)
  {
  }

  // ---------------------------------------------------------------- ingest

  lemma LogGrows(log0: seq<Entry>, id: EventId, ds: seq<EventDelivery>, log: seq<Entry>)
    requires log == log0 + NewEntries(id, ds)
    ensures Extends(log0, log) && |log| == |log0| + |ds|
    ensures forall i | 0 <= i < |ds| :: log[|log0| + i] == Entry(Key(id, ds[i].webhook), ds[i].payload, false, 0)
  {
  }

  /** With distinct webhook names, the last entry of a new row's key is the one just added for it. */
  lemma LastIndexOfNew(log0: seq<Entry>, id: EventId, ds: seq<EventDelivery>, log: seq<Entry>, i: nat)
    requires log == log0 + NewEntries(id, ds) && i < |ds| && DistinctWebhooks(ds)
    ensures exists j :: 0 <= j < |log| && log[j].key == Key(id, ds[i].webhook)
    ensures LastIndex(log, Key(id, ds[i].webhook)) == |log0| + i
  {
    LogGrows(log0, id, ds, log);
    assert log[|log0| + i].key == Key(id, ds[i].webhook);
    var last := LastIndex(log, Key(id, ds[i].webhook));
    assert log[last].key == Key(id, ds[last - |log0|].webhook);
  }

  /** The row, the entry and the entry number of one new delivery. */
  lemma NewRowFacts(s: System, id: EventId, e: Event<int>, ds: seq<EventDelivery>, i: nat)
    requires Inv(s) && CreateEvent(s.db, id, e, ds).Some? && id !in s.db.events && i < |ds|
    ensures var s' := AfterIngest(s, id, e, ds); var k := Key(id, ds[i].webhook);
            && k in s'.db.rows && s'.db.rows[k] == NewRow(ds[i], e.createdAt) && id in s'.db.events
            && |s.log| + i < |s'.log| && s'.log[|s.log| + i] == Entry(k, ds[i].payload, false, 0)
            && k in s'.current && s'.current[k] == |s.log| + i
  {
    RecordedKeys(s);
    hide Inv, InsertRows, LastIndex;
    var s' := AfterIngest(s, id, e, ds);
    InsertRowsExactly(s.db.rows, id, e.createdAt, ds);
    LogGrows(s.log, id, ds, s'.log);
    LastIndexOfNew(s.log, id, ds, s'.log, i);
    hide DistinctWebhooks;
    assert ds[i] in ds && IsNew(id, ds, Key(id, ds[i].webhook));
  }

  lemma NewRowRecorded(s: System, id: EventId, e: Event<int>, ds: seq<EventDelivery>, i: nat)
    requires Inv(s) && CreateEvent(s.db, id, e, ds).Some? && id !in s.db.events && i < |ds|
    ensures var s' := AfterIngest(s, id, e, ds); var k := Key(id, ds[i].webhook);
            Tracked(s'.db, s'.log, s'.current, k) && Kept(s'.db, s'.log, s'.current, |s.log| + i)
  {
    hide Inv, AfterIngest, CreateEvent;
    NewRowFacts(s, id, e, ds, i);
  }

  lemma OldRowSame(s: System, id: EventId, e: Event<int>, ds: seq<EventDelivery>, k: Key)
    requires Inv(s) && CreateEvent(s.db, id, e, ds).Some? && id !in s.db.events && k in s.db.rows
    ensures var s' := AfterIngest(s, id, e, ds); SameRow(s.db, s.current, s'.db, s'.current, k)
  {
    RecordedKeys(s);
    hide InsertRows, LastIndex, Inv;
    CreateEventIsFirstWriteWins(s.db, id, e, ds);
  }

  lemma IngestKeepsRows(s: System, id: EventId, e: Event<int>, ds: seq<EventDelivery>, k: Key)
    requires Inv(s) && CreateEvent(s.db, id, e, ds).Some? && id !in s.db.events
    requires k in AfterIngest(s, id, e, ds).db.rows
    ensures var s' := AfterIngest(s, id, e, ds); Tracked(s'.db, s'.log, s'.current, k)
  {
    var s' := AfterIngest(s, id, e, ds);
    LogGrows(s.log, id, ds, s'.log);
    InsertRowsExactly(s.db.rows, id, e.createdAt, ds);
    if k in s.db.rows {
      assert Tracked(s.db, s.log, s.current, k);
      hide *;
      OldRowSame(s, id, e, ds, k);
      CarryTracked(s.db, s.log, s.current, s'.db, s'.log, s'.current, k);
    } else {
      assert IsNew(id, ds, k);
      var i :| 0 <= i < |ds| && ds[i].webhook == k.webhook;
      assert Key(id, ds[i].webhook) == k;
      NewRowRecorded(s, id, e, ds, i);
    }
  }

  lemma IngestGrowsLog(s: System, id: EventId, e: Event<int>, ds: seq<EventDelivery>)
    requires CreateEvent(s.db, id, e, ds).Some? && id !in s.db.events
    ensures AfterIngest(s, id, e, ds).log == s.log + NewEntries(id, ds)
  {
  }

  lemma EntryIsKept(s: System, i: nat)
    requires Inv(s) && i < |s.log|
    ensures Kept(s.db, s.log, s.current, i)
  {
    hide Kept, Tracked, Aloft, Genuine;
  }

  lemma IngestKeepsEntries(s: System, id: EventId, e: Event<int>, ds: seq<EventDelivery>, i: nat)
    requires Inv(s) && CreateEvent(s.db, id, e, ds).Some? && id !in s.db.events
    requires i < |AfterIngest(s, id, e, ds).log|
    ensures var s' := AfterIngest(s, id, e, ds); Kept(s'.db, s'.log, s'.current, i)
  {
    hide *;
    var s' := AfterIngest(s, id, e, ds);
    IngestGrowsLog(s, id, e, ds);
    LogGrows(s.log, id, ds, s'.log);
    if i < |s.log| {
      EntryIsKept(s, i);
      if !s.log[i].answered {
        KeptHasRow(s, i);
        OldRowSame(s, id, e, ds, s.log[i].key);
      }
      CarryKept(s.db, s.log, s.current, s'.db, s'.log, s'.current, i);
    } else {
      NewRowRecorded(s, id, e, ds, i - |s.log|);
    }
  }

  lemma IngestKeepsRecords(s: System, id: EventId, e: Event<int>, ds: seq<EventDelivery>)
    requires Inv(s) && CreateEvent(s.db, id, e, ds).Some? && id !in s.db.events
    ensures var s' := AfterIngest(s, id, e, ds); Recorded(s'.db, s'.log, s'.current)
  {
    var s' := AfterIngest(s, id, e, ds);
    RecordedKeys(s);
    CreateEventIsFirstWriteWins(s.db, id, e, ds);
    hide Inv, Tracked, Kept, InsertRows, CreateEvent, LastIndex, AfterIngest;
    forall k | k in s'.db.rows ensures Tracked(s'.db, s'.log, s'.current, k) && k in s'.current {
      IngestKeepsRows(s, id, e, ds, k);
      TrackedHasEntry(s', k);
    }
    forall i: nat | i < |s'.log| ensures Kept(s'.db, s'.log, s'.current, i) {
      IngestKeepsEntries(s, id, e, ds, i);
    }
    RelabelKeys(s, id, e, ds);
  }

  lemma RelabelKeys(s: System, id: EventId, e: Event<int>, ds: seq<EventDelivery>)
    requires CreateEvent(s.db, id, e, ds).Some? && id !in s.db.events
    ensures var s' := AfterIngest(s, id, e, ds); s'.current.Keys <= s'.db.rows.Keys
  {
  }

  lemma IngestKeeps(s: System, id: EventId, e: Event<int>, ds: seq<EventDelivery>)
    requires Inv(s) && CreateEvent(s.db, id, e, ds).Some?
    ensures Inv(AfterIngest(s, id, e, ds))
  {
    if id !in s.db.events {
      var s' := AfterIngest(s, id, e, ds);
      IngestKeepsRecords(s, id, e, ds);
      LogGrows(s.log, id, ds, s'.log);
      hide InsertRows, LastIndex, SameRow, Tracked, Kept, Recorded;
      forall k | k in Flights(s) ensures SameRow(s.db, s.current, s'.db, s'.current, k) {
        assert Matches(s.db, s.log, s.current, k, Flights(s)[k]);
        OldRowSame(s, id, e, ds, k);
      }
      CarryAloft(s.db, s.log, s.current, s'.db, s'.log, s'.current, Flights(s));
    }
  }

  // ---------------------------------------------------------------- retention

  lemma KeptByPrune(s: System, cutoff: int, k: Key)
    requires Inv(s) && k in s.db.rows && (IsPending(s.db, k) || k in AfterPrune(s, cutoff).db.rows)
    ensures var s' := AfterPrune(s, cutoff); SameRow(s.db, s.current, s'.db, s'.current, k)
  {
  }

  lemma PruneTracks(s: System, cutoff: int, k: Key)
    requires Inv(s) && k in AfterPrune(s, cutoff).db.rows && k in s.db.rows
    ensures var s' := AfterPrune(s, cutoff); Tracked(s'.db, s'.log, s'.current, k)
  {
  }

  lemma PruneLogs(s: System, cutoff: int)
    ensures AfterPrune(s, cutoff).log == s.log
  {
  }

  lemma PruneKeepsEntry(s: System, cutoff: int, i: nat)
    requires Inv(s) && i < |s.log|
    ensures var s' := AfterPrune(s, cutoff); Kept(s'.db, s'.log, s'.current, i)
  {
    var s' := AfterPrune(s, cutoff);
    assert Kept(s.db, s.log, s.current, i);
    PruneLogs(s, cutoff);
    if !s.log[i].answered {
      KeptHasRow(s, i);
      KeptByPrune(s, cutoff, s.log[i].key);
    }
    hide PayloadOf, Kept, SameRow, Inv, AfterPrune;
    CarryKept(s.db, s.log, s.current, s'.db, s'.log, s'.current, i);
  }

  lemma PruneKeepsRecords(s: System, cutoff: int)
    requires Inv(s)
    ensures var s' := AfterPrune(s, cutoff); Recorded(s'.db, s'.log, s'.current)
  {
    var s' := AfterPrune(s, cutoff);
    RecordedKeys(s);
    PruneRemovesOnlyDelivered(s.db, cutoff);
    assert s'.current.Keys == s'.db.rows.Keys && s'.log == s.log;
    hide Tracked, Kept, Prune, Inv;
    forall k | k in s'.db.rows ensures Tracked(s'.db, s'.log, s'.current, k) { PruneTracks(s, cutoff, k); }
    forall i: nat | i < |s'.log| ensures Kept(s'.db, s'.log, s'.current, i) { PruneKeepsEntry(s, cutoff, i); }
  }

  lemma PruneKeeps(s: System, cutoff: int)
    requires Inv(s)
    ensures Inv(AfterPrune(s, cutoff))
  {
    var s' := AfterPrune(s, cutoff);
    PruneKeepsRecords(s, cutoff);
    hide PayloadOf, Recorded, SameRow, Prune;
    forall k | k in Flights(s) ensures SameRow(s.db, s.current, s'.db, s'.current, k) {
      assert Matches(s.db, s.log, s.current, k, Flights(s)[k]);
      KeptByPrune(s, cutoff, k);
    }
    CarryAloft(s.db, s.log, s.current, s'.db, s'.log, s'.current, Flights(s));
  }

  // ---------------------------------------------------------------- the delivery loop

  lemma LoadKeeps(s: System, batch: seq<PendingDelivery>)
    requires Inv(s) && Selects(s.db, BATCH_SIZE, s.clock, batch)
    ensures Inv(s.(loop := Delivering(TakeOff(s, batch))))
    ensures TakeOff(s, batch).Keys == Keys(batch) && |Keys(batch)| == |batch|
  {
    hide PayloadOf, Before;
    var flights := TakeOff(s, batch);
    KeysCount(batch);
    assert flights.Keys == Keys(batch);
    assert |flights| == |flights.Keys|;
    assert Active(flights) == {};
    forall k | k in flights ensures Matches(s.db, s.log, s.current, k, flights[k]) {
      assert Tracked(s.db, s.log, s.current, k);
    }
  }

  lemma SelectedDiffer(t: Db, now: int, batch: seq<PendingDelivery>)
    requires Selects(t, BATCH_SIZE, now, batch)
    ensures forall i, j | 0 <= i < j < |batch| :: batch[i].key != batch[j].key
  {
    hide Before, PayloadOf;
  }

  lemma {:induction false} KeysCount(batch: seq<PendingDelivery>)
    requires forall i, j | 0 <= i < j < |batch| :: batch[i].key != batch[j].key
    ensures |Keys(batch)| == |batch|
  {
    if batch != [] {
      var n := |batch| - 1;
      KeysCount(batch[..n]);
      assert Keys(batch) == Keys(batch[..n]) + {batch[n].key};
    }
  }

  lemma SubsetSize<T>(a: set<T>, b: set<T>)
    requires a <= b
    ensures |a| <= |b|
  {
    assert b == a + (b - a);
  }

  lemma ActiveGrowsByOne(flights: map<Key, Flight>, k: Key, f: Flight)
    requires k in flights
    ensures |flights[k := f]| == |flights|
    ensures |Active(flights[k := f])| <= |Active(flights)| + if flights[k].stage.Queued? then 1 else 0
  {
    var flights' := flights[k := f];
    assert flights'.Keys == flights.Keys && |flights'| == |flights'.Keys| && |flights| == |flights.Keys|;
    var a, a' := Active(flights), Active(flights');
    if flights[k].stage.Queued? {
      SubsetSize(a', a + {k});
    } else {
      assert k in a;
      SubsetSize(a', a);
    }
  }

  lemma AnsweringKeepsRecords(s: System, i: nat)
    requires Inv(s)
    ensures Recorded(s.db, MarkAnswered(s.log, i), s.current)
  {
    hide PayloadOf;
    var log := MarkAnswered(s.log, i);
    forall k | k in s.db.rows ensures Tracked(s.db, log, s.current, k) { assert Tracked(s.db, s.log, s.current, k); }
    forall i: nat | i < |log| ensures Kept(s.db, log, s.current, i) { assert Kept(s.db, s.log, s.current, i); }
    hide Tracked, Kept, Aloft, Genuine;
  }

  lemma AnsweringKeepsFlights(s: System, i: nat)
    requires Inv(s)
    ensures Aloft(s.db, MarkAnswered(s.log, i), s.current, Flights(s)) && Genuine(MarkAnswered(s.log, i), s.sent)
  {
  }

  lemma AnsweringKeeps(s: System, i: nat)
    requires Inv(s)
    ensures Inv(s.(log := MarkAnswered(s.log, i)))
  {
    AnsweringKeepsRecords(s, i);
    AnsweringKeepsFlights(s, i);
    hide Recorded, Aloft, Genuine;
  }

  /** Moving one delivery to another stage keeps the invariant, given a free slot and what the stage claims. */
  lemma StageKeeps(s: System, k: Key, stage: Stage)
    requires Inv(s) && k in Flights(s)
    requires stage.Accepted? ==> Flights(s)[k].entry < |s.log| && s.log[Flights(s)[k].entry].answered
    requires !Flights(s)[k].stage.Queued? || |Active(Flights(s))| < CONCURRENCY
    ensures Inv(WithStage(s, k, stage))
  {
    hide PayloadOf, Recorded;
    var f := Flights(s)[k].(stage := stage);
    ActiveGrowsByOne(Flights(s), k, f);
    assert Matches(s.db, s.log, s.current, k, Flights(s)[k]);
  }

  lemma SentIsGenuine(log: seq<Entry>, sent: seq<Sent>, last: Sent)
    requires Genuine(log, sent) && last.entry < |log| && log[last.entry].key == last.key
    requires log[last.entry].payload == last.payload
    ensures Genuine(log, sent + [last])
  {
  }

  lemma StartKeeps(s: System, k: Key)
    requires Inv(s) && AtStage(s, k, false) && |Active(Flights(s))| < CONCURRENCY
    ensures Inv(AfterStart(s, k, Flights(s)[k]))
  {
    var f := Flights(s)[k];
    FlightFacts(s, k);
    hide PayloadOf, Recorded, Aloft, Genuine, Backoff;
    if k.webhook !in s.endpoints {
      StageKeeps(s, k, Retry(s, f, "webhook is not configured"));
    } else {
      StageKeeps(s, k, Sending);
      SentIsGenuine(s.log, s.sent, Sent(f.entry, k, f.snapshot.payload));
    }
  }

  lemma AcceptKeeps(s: System, k: Key)
    requires Inv(s) && AtStage(s, k, true)
    ensures Inv(AfterAccept(s, k, Flights(s)[k]))
  {
    var f := Flights(s)[k];
    AnsweringKeeps(s, f.entry);
    var s1 := s.(log := MarkAnswered(s.log, f.entry));
    assert Matches(s.db, s.log, s.current, k, f);
    StageKeeps(s1, k, Accepted(s.clock));
    assert WithStage(s1, k, Accepted(s.clock)) == AfterAccept(s, k, f);
  }

  lemma LandedShrinks(flights: map<Key, Flight>, k: Key)
    requires k in flights
    ensures |flights - {k}| == |flights| - 1 && |Active(flights - {k})| <= |Active(flights)|
  {
    var flights' := flights - {k};
    assert flights'.Keys == flights.Keys - {k} && |flights'| == |flights'.Keys| && |flights| == |flights.Keys|;
    SubsetSize(Active(flights'), Active(flights));
  }

  /** A write changes one row and one entry, which agree again; every other fact carries over. */
  lemma WriteKeepsRecords(db: Db, log: seq<Entry>, current: map<Key, nat>, k: Key, row: Row<int>, e: Entry)
    requires Recorded(db, log, current) && IsPending(db, k)
    requires row.payload == db.rows[k].payload && k in current && current[k] < |log|
    requires e.key == k && e.payload == log[current[k]].payload && e.failures == row.attempts
    requires e.answered || row.status == Pending
    requires log[current[k]].answered ==> e.answered
    ensures Recorded(db.(rows := db.rows[k := row]), log[current[k] := e], current)
  {
    var db', log' := db.(rows := db.rows[k := row]), log[current[k] := e];
    assert Tracked(db, log, current, k);
    forall j | j in db'.rows ensures Tracked(db', log', current, j) {
      assert Tracked(db, log, current, j);
    }
    forall i: nat | i < |log'| ensures Kept(db', log', current, i) { assert Kept(db, log, current, i); }
  }

  lemma WriteKeepsFlights(s: System, k: Key, row: Row<int>, e: Entry)
    requires Inv(s) && k in Flights(s) && k in s.db.rows && k in s.current && s.current[k] < |s.log|
    ensures Aloft(s.db.(rows := s.db.rows[k := row]), s.log[s.current[k] := e], s.current, Flights(s) - {k})
  {
    var db, log, flights := s.db.(rows := s.db.rows[k := row]), s.log[s.current[k] := e], Flights(s) - {k};
    LandedShrinks(Flights(s), k);
    forall j | j in flights ensures Matches(db, log, s.current, j, flights[j]) {
      assert Matches(s.db, s.log, s.current, j, Flights(s)[j]);
      EntriesDiffer(s, j, k);
      MatchSurvives(s.db, s.log, s.current, j, flights[j], k, row, e);
    }
    hide Recorded, Matches, Genuine;
  }

  lemma MatchSurvives(db: Db, log: seq<Entry>, current: map<Key, nat>, j: Key, f: Flight, k: Key, row: Row<int>,
      e: Entry)
    requires Matches(db, log, current, j, f) && k in db.rows && j != k && k in current && current[k] < |log|
    requires current[j] != current[k]
    ensures Matches(db.(rows := db.rows[k := row]), log[current[k] := e], current, j, f)
  {
  }

  /** Two rows never share an entry. */
  lemma EntriesDiffer(s: System, j: Key, k: Key)
    requires Inv(s) && j in s.db.rows && k in s.db.rows && j != k
    ensures j in s.current && k in s.current && s.current[j] != s.current[k]
  {
  }

  lemma LandKeeps(s: System, k: Key)
    requires Inv(s) && k in Flights(s)
    ensures Inv(Landed(s, k))
  {
    hide Recorded, Matches;
    LandedShrinks(Flights(s), k);
  }

  lemma FlightFacts(s: System, k: Key)
    requires Inv(s) && k in Flights(s)
    ensures var f := Flights(s)[k];
            && IsPending(s.db, k) && k in s.current && s.current[k] == f.entry && f.entry < |s.log|
            && s.log[f.entry].key == k && s.log[f.entry].failures == f.snapshot.attempts == s.db.rows[k].attempts
            && s.log[f.entry].payload == f.snapshot.payload
            && (f.stage.Accepted? ==> s.log[f.entry].answered)
  {
  }

  lemma WriteDeliveredKeeps(s: System, k: Key, applied: bool)
    requires Inv(s) && k in Flights(s) && Flights(s)[k].stage.Accepted?
    ensures Inv(AfterWriteDelivered(s, k, Flights(s)[k], applied))
  {
    hide Recorded, Aloft, PayloadOf;
    var f := Flights(s)[k];
    LandKeeps(s, k);
    FlightFacts(s, k);
    var row := s.db.rows[k].(status := Delivered, deliveredAt := Some(f.stage.at));
    WriteKeepsRecords(s.db, s.log, s.current, k, row, s.log[f.entry]);
    WriteKeepsFlights(s, k, row, s.log[f.entry]);
    assert s.log[f.entry := s.log[f.entry]] == s.log;
  }

  lemma WriteFailedKeeps(s: System, k: Key, applied: bool)
    requires Inv(s) && k in Flights(s) && Flights(s)[k].stage.Refused?
    ensures Inv(AfterWriteFailed(s, k, Flights(s)[k], applied))
  {
    hide Recorded, Aloft, PayloadOf;
    var f := Flights(s)[k];
    LandKeeps(s, k);
    FlightFacts(s, k);
    var attempts := f.snapshot.attempts + 1;
    var row := MarkFailed(s.db, k, f.stage.error, attempts, f.stage.next).rows[k];
    var e := s.log[f.entry].(failures := attempts);
    WriteKeepsRecords(s.db, s.log, s.current, k, row, e);
    WriteKeepsFlights(s, k, row, e);
  }

  // ---------------------------------------------------------------- one step

  lemma InitHolds(s: System)
    requires Init(s)
    ensures Inv(s)
  {
  }

  /** Whatever happens next, in whatever order, the invariant stays. */
  lemma StepKeeps(s: System, a: Action)
    requires Inv(s) && Enabled(s, a)
    ensures Inv(Next(s, a))
  {
    hide Recorded, Matches, Genuine, Selects;
    assert Active(map[]) == {};
    match a
    case Ingest(id, e, ds) => IngestKeeps(s, id, e, ds);
    case Load(batch) => LoadKeeps(s, batch);
    case Start(k) => StartKeeps(s, k);
    case Accept(k) => AcceptKeeps(s, k);
    case Refuse(k, error) => StageKeeps(s, k, Retry(s, Flights(s)[k], error));
    case WriteDelivered(k, applied) => WriteDeliveredKeeps(s, k, applied);
    case WriteFailed(k, applied) => WriteFailedKeeps(s, k, applied);
    case PruneOld(cutoff) => PruneKeeps(s, cutoff);
    case _ =>
  }
}
