/** When the delivery loop may sleep, and for how long. */
module Wakeup {
  import opened Wrappers
  import opened Schema
  import opened Outbox
  import opened OutboxInvariant
  import opened Delivery

  // ---------------------------------------------------------------- what a sleeping loop knows

  /** The pending rows are those the delay query saw plus the ones committed since and not announced, and the
      sleep ends no later than the query instant or the first of the rows it saw. */
  ghost predicate Informed(s: System) {
    s.loop.Sleeping? && s.loop.informed && !s.permit ==>
      && (forall k | k in s.db.rows && IsPending(s.db, k) :: k in s.loop.seen || k in s.unannounced)
      && (forall k | k in s.loop.seen :: IsPending(s.db, k) && OnTime(s.loop, s.db.rows[k].nextAttemptAt))
      && (forall k | k in s.unannounced :: IsPending(s.db, k) && k !in s.loop.seen)
  }

  predicate OnTime(l: Loop, due: int)
    requires l.Sleeping?
  {
    l.until <= if due < l.queriedAt then l.queriedAt else due
  }

  lemma MeasureInforms(s: System, next: Option<int>)
    requires Inv(s) && IsNextDue(s.db, next)
    ensures Informed(AfterMeasure(s, next))
  {
  }

  /** A sleeping loop writes nothing, so its rows only change by ingest and retention. */
  lemma IngestInforms(s: System, id: EventId, e: Event<int>, ds: seq<EventDelivery>)
    requires Inv(s) && Informed(s) && CreateEvent(s.db, id, e, ds).Some?
    ensures Informed(AfterIngest(s, id, e, ds))
  {
    if id !in s.db.events {
      RecordedKeys(s);
      hide Inv, InsertRows;
      CreateEventIsFirstWriteWins(s.db, id, e, ds);
    }
  }

  lemma PruneInforms(s: System, cutoff: int)
    requires Inv(s) && Informed(s)
    ensures Informed(AfterPrune(s, cutoff))
  {
  }

  lemma StepInforms(s: System, a: Action)
    requires Inv(s) && Informed(s) && Enabled(s, a)
    ensures Informed(Next(s, a))
  {
    hide Inv, Prune, CreateEvent, Selects, IsNextDue;
    match a
    case Measure(next) => hide Informed; MeasureInforms(s, next);
    case Ingest(id, e, ds) => hide Informed; IngestInforms(s, id, e, ds);
    case PruneOld(cutoff) => hide Informed; PruneInforms(s, cutoff);
    case _ => hide AfterIngest, AfterPrune, AfterMeasure;
  }

  lemma {:induction false} RunInforms(s: System, acts: seq<Action>)
    requires Inv(s) && Informed(s) && Runs(s, acts)
    ensures Informed(End(s, acts))
    decreases |acts|
  {
    hide Inv, Informed;
    if acts != [] {
      StepKeeps(s, acts[0]);
      StepInforms(s, acts[0]);
      RunInforms(Next(s, acts[0]), acts[1..]);
    }
  }

  /** No lost wake-up, exactly: while the loop sleeps without a stored permit after a successful query, every pending
      row was visible to that query if and only if no row has been committed since without its notification; and the
      sleep is no longer than the time from the query to the first row due. */
  lemma NoLostWakeup(s0: System, acts: seq<Action>)
    requires Init(s0) && Runs(s0, acts)
    requires var s := End(s0, acts); s.loop.Sleeping? && s.loop.informed && !s.permit
    ensures var s := End(s0, acts);
            && ((forall k | k in s.db.rows && IsPending(s.db, k) :: k in s.loop.seen) <==> s.unannounced == {})
            && (forall k | k in s.loop.seen :: IsPending(s.db, k) && OnTime(s.loop, s.db.rows[k].nextAttemptAt))
  {
    InitHolds(s0);
    RunInforms(s0, acts);
    var s := End(s0, acts);
    if k :| k in s.unannounced {
      assert k in s.db.rows && IsPending(s.db, k) && k !in s.loop.seen;
    }
  }

  /** The sleep ends at the first instant a pending row falls due, at once when one is overdue, and after a minute when
      there is none or the query failed. */
  lemma SleepsExactly(s: System, next: Option<int>)
    requires IsNextDue(s.db, next)
    ensures var until := AfterMeasure(s, next).loop.until;
            if exists k :: IsPending(s.db, k) then
              && (exists k :: IsPending(s.db, k) && until == Max(s.clock, s.db.rows[k].nextAttemptAt))
              && (forall k | IsPending(s.db, k) :: until <= Max(s.clock, s.db.rows[k].nextAttemptAt))
            else until == s.clock + 60_000_000_000
    ensures s.loop.Measuring? ==> Next(s, MeasureFault).loop == Sleeping(false, s.clock, s.clock + 60_000_000_000, {})
  {
  }

  function Max(a: int, b: int): int { if a < b then b else a }

  // ---------------------------------------------------------------- the window in which a row is not seen

  /** A run in which a row is committed while the loop sleeps and its notification does not follow (the commit has
      happened, the ingest task was dropped at a socket refresh): the loop sleeps on, not knowing the row. */
  lemma UnannouncedRowIsNotSeen(e: Event<int>, d: EventDelivery) returns (s0: System, acts: seq<Action>)
    ensures Init(s0) && Runs(s0, acts)
    ensures var s := End(s0, acts); var k := Key("ptchan:post.created:i:1", d.webhook);
            s.loop.Sleeping? && s.loop.informed && !s.permit && IsPending(s.db, k) && k !in s.loop.seen
  {
    var db: Db := Tables(map[], map[]);
    s0 := System(db, 0, {}, Ready, false, [], map[], [], {});
    var id := "ptchan:post.created:i:1";
    acts := [LoadFault, Measure(None), Ingest(id, e, [d])];
    var s1 := Next(s0, LoadFault);
    var s2 := Next(s1, Measure(None));
    assert InsertRows(s2.db.rows, id, e.createdAt, [d]) == Some(map[Key(id, d.webhook) := NewRow(d, e.createdAt)]);
    var s3 := Next(s2, Ingest(id, e, [d]));
    assert acts[1..] == [Measure(None), Ingest(id, e, [d])];
    assert acts[1..][1..] == [Ingest(id, e, [d])];
    assert [Ingest(id, e, [d])][1..] == [];
    assert Runs(s3, []) && Runs(s2, [Ingest(id, e, [d])]) && Runs(s1, acts[1..]);
    assert End(s3, []) == s3 && End(s2, [Ingest(id, e, [d])]) == s3 && End(s1, acts[1..]) == s3;
  }

  // ---------------------------------------------------------------- how long a row can wait

  const LONGEST := 256 * SECOND

  /** Clock readings never go back, and events are observed no later than they are stored. */
  ghost predicate Forward(s: System, a: Action) {
    match a
    case Tick(now) => s.clock <= now
    case Ingest(id, e, ds) => e.createdAt <= s.clock
    case _ => true
  }

  ghost predicate RunsForward(s: System, acts: seq<Action>)
    requires Runs(s, acts)
    decreases |acts|
  {
    acts == [] || (Forward(s, acts[0]) && RunsForward(Next(s, acts[0]), acts[1..]))
  }

  /** Nothing is scheduled more than the longest backoff ahead. */
  ghost predicate Near(s: System) {
    && (forall k | k in s.db.rows && IsPending(s.db, k) :: s.db.rows[k].nextAttemptAt <= s.clock + LONGEST)
    && (forall k | k in Flights(s) && Flights(s)[k].stage.Refused? :: Flights(s)[k].stage.next <= s.clock + LONGEST)
    && (s.loop.Sleeping? ==> s.loop.queriedAt <= s.clock && s.loop.until <= s.loop.queriedAt + LONGEST)
  }

  lemma RetryIsNear(s: System, f: Flight, error: string)
    ensures s.clock + 2 * SECOND <= Retry(s, f, error).next <= s.clock + LONGEST
  {
    BackoffBounds(f.snapshot.attempts + 1);
  }

  lemma IngestStaysNear(s: System, id: EventId, e: Event<int>, ds: seq<EventDelivery>)
    requires Inv(s) && Near(s) && CreateEvent(s.db, id, e, ds).Some? && e.createdAt <= s.clock
    ensures Near(AfterIngest(s, id, e, ds))
  {
    if id !in s.db.events {
      RecordedKeys(s);
      hide Inv, InsertRows;
      CreateEventIsFirstWriteWins(s.db, id, e, ds);
      var rows := AfterIngest(s, id, e, ds).db.rows;
      forall k | k in rows && k !in s.db.rows ensures rows[k].nextAttemptAt == e.createdAt {
        NewRowsAreDueAtOnce(s.db, id, e, ds, k);
      }
    }
  }

  lemma NewRowsAreDueAtOnce(db: Db, id: EventId, e: Event<int>, ds: seq<EventDelivery>, k: Key)
    requires ForeignKeys(db) && CreateEvent(db, id, e, ds).Some?
    requires k in CreateEvent(db, id, e, ds).value.0.rows && k !in db.rows
    ensures CreateEvent(db, id, e, ds).value.0.rows[k].nextAttemptAt == e.createdAt
    ensures IsNew(id, ds, k)
  {
    InsertRowsExactly(db.rows, id, e.createdAt, ds);
    hide InsertRows;
    assert IsNew(id, ds, k);
    var d :| d in ds && d.webhook == k.webhook;
    assert Key(id, d.webhook) == k;
  }

  lemma RetryStaysNear(s: System, k: Key, error: string)
    requires Near(s) && k in Flights(s)
    ensures Near(WithStage(s, k, Retry(s, Flights(s)[k], error)))
  {
    hide Backoff, Retry;
    RetryIsNear(s, Flights(s)[k], error);
  }

  lemma WriteStaysNear(s: System, k: Key, applied: bool)
    requires Near(s) && k in Flights(s)
    ensures var f := Flights(s)[k];
            && (f.stage.Refused? ==> Near(AfterWriteFailed(s, k, f, applied)))
            && (f.stage.Accepted? ==> Near(AfterWriteDelivered(s, k, f, applied)))
  {
  }

  lemma PruneStaysNear(s: System, cutoff: int)
    requires Inv(s) && Near(s)
    ensures Near(AfterPrune(s, cutoff))
  {
  }

  lemma LoopStaysNear(s: System, a: Action)
    requires Near(s) && Enabled(s, a) && Forward(s, a)
    requires || a.Tick? || a.Announce? || a.Load? || a.LoadFault? || a.Finish?
             || a.Measure? || a.MeasureFault? || a.Wake? || a.Crash?
    ensures Near(Next(s, a))
  {
    hide Selects;
    assert a.Tick? || a.Announce? ==> Flights(Next(s, a)) == Flights(s);
    if a.Measure? && a.next.Some? {
      var k :| IsPending(s.db, k) && s.db.rows[k].nextAttemptAt == a.next.value;
      assert k in s.db.rows;
    }
  }

  lemma StepStaysNear(s: System, a: Action)
    requires Inv(s) && Near(s) && Enabled(s, a) && Forward(s, a)
    ensures Near(Next(s, a))
  {
    hide Inv, Near, CreateEvent, Selects, Backoff;
    match a
    case Ingest(id, e, ds) => IngestStaysNear(s, id, e, ds);
    case Start(k) =>
      RetryStaysNear(s, k, "webhook is not configured");
      SendingStaysNear(s, k);
    case Accept(k) => SendingStaysNear(s, k);
    case Refuse(k, error) => RetryStaysNear(s, k, error);
    case WriteDelivered(k, applied) => WriteStaysNear(s, k, applied);
    case WriteFailed(k, applied) => WriteStaysNear(s, k, applied);
    case PruneOld(cutoff) => PruneStaysNear(s, cutoff);
    case _ => LoopStaysNear(s, a);
  }

  lemma SendingStaysNear(s: System, k: Key)
    requires Near(s) && k in Flights(s)
    ensures k.webhook in s.endpoints ==> Near(AfterStart(s, k, Flights(s)[k]))
    ensures Near(AfterAccept(s, k, Flights(s)[k]))
  {
  }

  lemma {:induction false} RunStaysNear(s: System, acts: seq<Action>)
    requires Inv(s) && Near(s) && Runs(s, acts) && RunsForward(s, acts)
    ensures Near(End(s, acts))
    decreases |acts|
  {
    hide Inv, Near;
    if acts != [] {
      StepKeeps(s, acts[0]);
      StepStaysNear(s, acts[0]);
      RunStaysNear(Next(s, acts[0]), acts[1..]);
    }
  }

  /** Even a row whose notification is lost waits at most one sleep, and on a forward clock no sleep exceeds 256 s:
      the wake-up by timer is enabled at the latest then. */
  lemma SleepIsBounded(s0: System, acts: seq<Action>)
    requires Init(s0) && Near(s0) && Runs(s0, acts) && RunsForward(s0, acts)
    requires var s := End(s0, acts); s.loop.Sleeping? && s.loop.queriedAt + LONGEST <= s.clock
    ensures Enabled(End(s0, acts), Wake(false))
  {
    InitHolds(s0);
    RunStaysNear(s0, acts);
  }
}
