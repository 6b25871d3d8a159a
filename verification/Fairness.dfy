/** No due row starves: a potential that every delivery pass which skips the row lowers by a full batch. */
module Fairness {
  import opened Wrappers
  import opened Schema
  import opened Outbox
  import opened OutboxInvariant
  import opened Delivery
  import W = Wakeup

  /** Row `r` is pending and nobody is delivering it. */
  ghost predicate Waits(s: System, r: Key) {
    IsPending(s.db, r) && r.event in s.db.events && r !in Flights(s)
  }

  predicate Due(s: System, r: Key) { IsDue(s.db, r, s.clock) }

  /** A failure of `f` now would be retried no later than `r` falls due. */
  predicate Overtakes(s: System, r: Key, f: Flight)
    requires r in s.db.rows
  {
    s.clock + Backoff(f.snapshot.attempts + 1) * SECOND <= s.db.rows[r].nextAttemptAt
  }

  /** Which happens only while `r` is not due, be it not yet or no more after the clock was set back: a retry lies at
      least two seconds ahead. */
  lemma DueRowsAreNotOvertaken(s: System, r: Key, f: Flight)
    requires Due(s, r)
    ensures !Overtakes(s, r, f)
  {
    BackoffBounds(f.snapshot.attempts + 1);
    hide Backoff;
  }

  /** Row `k` stands in the way of `r`: it is ordered at or before it, or a failure about to be written puts it
      there. */
  ghost predicate InTheWay(s: System, r: Key, k: Key) {
    && k != r && r in s.db.rows && k in s.db.rows && IsPending(s.db, k)
    && if k in Flights(s)
       then Flights(s)[k].stage.Refused? && Flights(s)[k].stage.next <= s.db.rows[r].nextAttemptAt
       else !Before(s.db, r, k)
  }

  ghost function Ahead(s: System, r: Key): set<Key> {
    set k | k in s.db.rows && InTheWay(s, r, k)
  }

  /** Rows an action can put ahead of `r`: failing writes, older events stored late, batches lost in a crash, and
      failures while `r` is not due. */
  ghost function Charge(s: System, r: Key, a: Action): nat
    requires r in s.db.rows
  {
    match a
    case WriteDelivered(k, applied) => if applied then 0 else 1
    case WriteFailed(k, applied) => if applied then 0 else 1
    case Ingest(id, e, ds) => if id !in s.db.events && e.createdAt <= s.db.rows[r].nextAttemptAt then |ds| else 0
    case Crash(_) => |Flights(s)|
    case Start(k) => if k in Flights(s) && k.webhook !in s.endpoints && Overtakes(s, r, Flights(s)[k]) then 1 else 0
    case Refuse(k, _) => if k in Flights(s) && Overtakes(s, r, Flights(s)[k]) then 1 else 0
    case _ => 0
  }

  ghost predicate Skips(a: Action, r: Key) {
    a.Load? ==> r !in Keys(a.batch)
  }

  /** A pass at a time when `r` is due. */
  ghost predicate Passes(s: System, r: Key, a: Action) { a.Load? && Due(s, r) }

  ghost function Drop(s: System, r: Key, a: Action): nat { if Passes(s, r, a) then BATCH_SIZE else 0 }

  /** The row is untouched and the rows ahead obey the account. */
  ghost predicate Accounted(s: System, r: Key, a: Action, s': System) {
    && Waits(s', r) && r in s.db.rows && s'.db.rows[r] == s.db.rows[r]
    && |Ahead(s', r)| + Drop(s, r, a) <= |Ahead(s, r)| + Charge(s, r, a)
  }

  lemma SubsetUpTo(a: set<Key>, b: set<Key>, extra: set<Key>)
    requires a <= b + extra
    ensures |a| <= |b| + |extra|
  {
    SubsetSize(a, b + extra);
    assert |b + extra| == |b| + |extra| - |b * extra|;
  }

  // ---------------------------------------------------------------- a pass that skips the row

  lemma FullBatch(s: System, batch: seq<PendingDelivery>, r: Key)
    requires Selects(s.db, BATCH_SIZE, s.clock, batch) && IsDue(s.db, r, s.clock) && r !in Keys(batch)
    ensures |batch| == BATCH_SIZE && |Keys(batch)| == BATCH_SIZE
    ensures forall k | k in Keys(batch) :: IsPending(s.db, k) && !Before(s.db, r, k)
  {
    hide Before, PayloadOf;
    KeysCount(batch);
    var due := set k | k in s.db.rows && IsDue(s.db, k, s.clock);
    assert Keys(batch) <= due - {r};
    assert r in due;
    SubsetSize(Keys(batch), due - {r});
  }

  lemma LoadedRowsLeave(s: System, r: Key, batch: seq<PendingDelivery>, flights: map<Key, Flight>)
    requires s.loop.Ready? && flights.Keys == Keys(batch) && forall k | k in flights :: flights[k].stage.Queued?
    ensures Ahead(s.(loop := Delivering(flights)), r) == Ahead(s, r) - Keys(batch)
  {
  }

  /** A full batch of rows ahead leaves when `r` is due, and no row comes to stand ahead in any case. */
  lemma LoadShrinks(s: System, r: Key, batch: seq<PendingDelivery>)
    requires Inv(s) && Waits(s, r) && s.loop.Ready? && Selects(s.db, BATCH_SIZE, s.clock, batch) && r !in Keys(batch)
    ensures |Ahead(s, r) - Keys(batch)| + (if Due(s, r) then BATCH_SIZE else 0) <= |Ahead(s, r)|
  {
    if Due(s, r) {
      FullBatch(s, batch, r);
      hide Before, Inv, Selects, Due;
      BatchIsAhead(s, r, batch);
      hide Ahead, Waits;
      assert |Ahead(s, r) - Keys(batch)| == |Ahead(s, r)| - |Keys(batch)|;
    } else {
      hide Ahead, Inv, Selects, Waits;
      SubsetSize(Ahead(s, r) - Keys(batch), Ahead(s, r));
    }
  }

  lemma BatchIsAhead(s: System, r: Key, batch: seq<PendingDelivery>)
    requires Waits(s, r) && s.loop.Ready? && r !in Keys(batch)
    requires forall k | k in Keys(batch) :: IsPending(s.db, k) && !Before(s.db, r, k)
    ensures Keys(batch) <= Ahead(s, r)
  {
    hide Before;
  }

  lemma LoadWaits(s: System, r: Key, batch: seq<PendingDelivery>)
    requires Waits(s, r) && r !in Keys(batch)
    ensures Waits(s.(loop := Delivering(TakeOff(s, batch))), r)
    ensures forall k | k in TakeOff(s, batch) :: TakeOff(s, batch)[k].stage.Queued?
  {
    hide Keys;
  }

  lemma LoadDrops(s: System, r: Key, batch: seq<PendingDelivery>)
    requires Inv(s) && Waits(s, r) && s.loop.Ready? && Selects(s.db, BATCH_SIZE, s.clock, batch) && r !in Keys(batch)
    ensures Accounted(s, r, Load(batch), s.(loop := Delivering(TakeOff(s, batch))))
  {
    hide Before, Inv, Selects, Ahead, Due, Keys, TakeOff;
    LoadKeeps(s, batch);
    LoadShrinks(s, r, batch);
    LoadWaits(s, r, batch);
    LoadedRowsLeave(s, r, batch, TakeOff(s, batch));
  }

  // ---------------------------------------------------------------- everything else

  /** Stage changes: only a retry that overtakes `r` comes to stand ahead of it. */
  lemma StageAdds(s: System, r: Key, k: Key, stage: Stage, s': System)
    requires Waits(s, r) && k in Flights(s) && !Flights(s)[k].stage.Refused?
    requires s'.db == s.db && s'.clock == s.clock && s'.loop == WithStage(s, k, stage).loop
    ensures Waits(s', r)
    ensures Ahead(s', r) <= Ahead(s, r) + if stage.Refused? && stage.next <= s.db.rows[r].nextAttemptAt then {k} else {}
  {
  }

  /** The stage an answer, or its absence, puts a delivery in. */
  ghost function StageAfter(s: System, a: Action): Stage
    requires (a.Start? || a.Accept? || a.Refuse?) && a.key in Flights(s)
  {
    match a
    case Start(k) => if k.webhook !in s.endpoints then Retry(s, Flights(s)[k], "webhook is not configured") else Sending
    case Accept(_) => Accepted(s.clock)
    case Refuse(k, error) => Retry(s, Flights(s)[k], error)
  }

  lemma StagesAccounted(s: System, r: Key, a: Action)
    requires Inv(s) && Waits(s, r) && Enabled(s, a) && (a.Start? || a.Accept? || a.Refuse?)
    ensures Accounted(s, r, a, Next(s, a))
  {
    hide Inv, Before, Backoff, Ahead;
    var stage := StageAfter(s, a);
    StageAdds(s, r, a.key, stage, Next(s, a));
    Settle(s, r, a, Next(s, a), if stage.Refused? && stage.next <= s.db.rows[r].nextAttemptAt then {a.key} else {});
  }

  lemma WriteShape(s: System, r: Key, a: Action)
    requires Waits(s, r) && Enabled(s, a) && (a.WriteDelivered? || a.WriteFailed?) && IsPending(s.db, a.key)
    ensures Waits(Next(s, a), r) && Next(s, a).db.rows[r] == s.db.rows[r]
    ensures Ahead(Next(s, a), r) <= Ahead(s, r) + if a.applied then {} else {a.key}
  {
  }

  /** The account from a bound on the rows that come to stand ahead. */
  lemma Settle(s: System, r: Key, a: Action, s': System, extra: set<Key>)
    requires Waits(s, r) && Waits(s', r) && s'.db.rows[r] == s.db.rows[r]
    requires !a.Load? && Ahead(s', r) <= Ahead(s, r) + extra && |extra| <= Charge(s, r, a)
    ensures Accounted(s, r, a, s')
  {
    hide Ahead;
    SubsetUpTo(Ahead(s', r), Ahead(s, r), extra);
  }

  lemma WritesAccounted(s: System, r: Key, a: Action)
    requires Inv(s) && Waits(s, r) && Enabled(s, a) && (a.WriteDelivered? || a.WriteFailed?)
    ensures Accounted(s, r, a, Next(s, a))
  {
    hide Inv, Ahead, Next, Enabled;
    FlightFacts(s, a.key) by { EnabledWrite(s, a); }
    WriteShape(s, r, a);
    Settle(s, r, a, Next(s, a), if a.applied then {} else {a.key});
  }

  lemma EnabledWrite(s: System, a: Action)
    requires Enabled(s, a) && (a.WriteDelivered? || a.WriteFailed?)
    ensures a.key in Flights(s)
  {
  }

  /** Rows already stored stand as they stood. */
  lemma OldRowsStand(s: System, r: Key, id: EventId, e: Event<int>, ds: seq<EventDelivery>, k: Key)
    requires ForeignKeys(s.db) && Waits(s, r) && CreateEvent(s.db, id, e, ds).Some? && id !in s.db.events
    requires k in s.db.rows
    ensures InTheWay(AfterIngest(s, id, e, ds), r, k) <==> InTheWay(s, r, k)
  {
    CreateEventIsFirstWriteWins(s.db, id, e, ds);
    hide CreateEvent;
    var s' := AfterIngest(s, id, e, ds);
    assert Flights(s') == Flights(s) && s'.db.rows[k] == s.db.rows[k] && s'.db.rows[r] == s.db.rows[r];
    assert Before(s'.db, r, k) == Before(s.db, r, k);
    hide AfterIngest, Before;
  }

  lemma NewRowsStand(s: System, r: Key, id: EventId, e: Event<int>, ds: seq<EventDelivery>, k: Key)
    requires ForeignKeys(s.db) && Waits(s, r) && CreateEvent(s.db, id, e, ds).Some? && id !in s.db.events
    requires k !in s.db.rows && k !in Flights(s) && InTheWay(AfterIngest(s, id, e, ds), r, k)
    ensures IsNew(id, ds, k) && e.createdAt <= s.db.rows[r].nextAttemptAt
  {
    CreateEventIsFirstWriteWins(s.db, id, e, ds);
    W.NewRowsAreDueAtOnce(s.db, id, e, ds, k);
    hide CreateEvent;
    assert Flights(AfterIngest(s, id, e, ds)) == Flights(s);
  }

  lemma IngestAdds(s: System, r: Key, id: EventId, e: Event<int>, ds: seq<EventDelivery>, k: Key)
    requires Inv(s) && Waits(s, r) && CreateEvent(s.db, id, e, ds).Some? && id !in s.db.events
    requires k in Ahead(AfterIngest(s, id, e, ds), r) && k !in Ahead(s, r)
    ensures k in Names(id, ds, |ds|) && e.createdAt <= s.db.rows[r].nextAttemptAt
  {
    RecordedKeys(s);
    if k in Flights(s) { FlightFacts(s, k); }
    hide Inv, CreateEvent, Waits, InTheWay, AfterIngest;
    if k in s.db.rows { OldRowsStand(s, r, id, e, ds, k); }
    NewRowsStand(s, r, id, e, ds, k);
    var d :| d in ds && d.webhook == k.webhook;
    var i :| 0 <= i < |ds| && ds[i] == d;
    assert Key(id, ds[i].webhook) == k;
  }

  lemma IngestWaits(s: System, r: Key, id: EventId, e: Event<int>, ds: seq<EventDelivery>)
    requires Inv(s) && Waits(s, r) && CreateEvent(s.db, id, e, ds).Some?
    ensures Waits(AfterIngest(s, id, e, ds), r) && AfterIngest(s, id, e, ds).db.rows[r] == s.db.rows[r]
    ensures id in s.db.events ==> AfterIngest(s, id, e, ds) == s
  {
    RecordedKeys(s);
    CreateEventIsFirstWriteWins(s.db, id, e, ds);
    hide Inv, InsertRows;
  }

  lemma IngestAccounted(s: System, r: Key, id: EventId, e: Event<int>, ds: seq<EventDelivery>)
    requires Inv(s) && Waits(s, r) && CreateEvent(s.db, id, e, ds).Some?
    ensures Accounted(s, r, Ingest(id, e, ds), AfterIngest(s, id, e, ds))
  {
    var s' := AfterIngest(s, id, e, ds);
    IngestWaits(s, r, id, e, ds);
    hide Inv, CreateEvent, Ahead, AfterIngest, Names;
    NamesCount(id, ds, |ds|);
    if id !in s.db.events {
      forall k | k in Ahead(s', r) && k !in Ahead(s, r)
        ensures k in Names(id, ds, |ds|) && e.createdAt <= s.db.rows[r].nextAttemptAt
      {
        IngestAdds(s, r, id, e, ds, k);
      }
    }
    Settle(s, r, Ingest(id, e, ds), s',
           if id !in s.db.events && e.createdAt <= s.db.rows[r].nextAttemptAt then Names(id, ds, |ds|) else {});
  }

  ghost function Names(id: EventId, ds: seq<EventDelivery>, n: nat): set<Key>
    requires n <= |ds|
  {
    set i | 0 <= i < n :: Key(id, ds[i].webhook)
  }

  lemma {:induction false} NamesCount(id: EventId, ds: seq<EventDelivery>, n: nat)
    requires n <= |ds|
    ensures |Names(id, ds, n)| <= n
  {
    if n > 0 {
      NamesCount(id, ds, n - 1);
      SubsetUpTo(Names(id, ds, n), Names(id, ds, n - 1), {Key(id, ds[n - 1].webhook)});
    }
  }

  lemma PruneIsNeutral(s: System, r: Key, cutoff: int)
    requires Inv(s) && Waits(s, r)
    ensures Waits(AfterPrune(s, cutoff), r) && AfterPrune(s, cutoff).db.rows[r] == s.db.rows[r]
    ensures Ahead(AfterPrune(s, cutoff), r) <= Ahead(s, r)
  {
  }

  /** A change of loop phase or clock alone: without its flights a crash puts their rows back in line. */
  lemma PhaseIsNeutral(s: System, r: Key, s': System)
    requires Waits(s, r) && s'.db == s.db && (Flights(s') == Flights(s) || Flights(s') == map[])
    ensures Waits(s', r) && Ahead(s', r) <= Ahead(s, r) + Flights(s).Keys
    ensures Flights(s') == Flights(s) ==> Ahead(s', r) == Ahead(s, r)
  {
  }

  lemma IdleAccounted(s: System, r: Key, a: Action)
    requires Inv(s) && Waits(s, r) && Enabled(s, a)
    requires a.Tick? || a.Announce? || a.LoadFault? || a.Finish? || a.Measure? || a.MeasureFault? || a.Wake? || a.Crash?
    ensures Accounted(s, r, a, Next(s, a))
  {
    hide Inv, Waits, Ahead, IsNextDue;
    var s' := Next(s, a);
    PhaseIsNeutral(s, r, s');
    assert |Flights(s)| == |Flights(s).Keys|;
    assert !a.Crash? ==> Flights(s') == Flights(s);
    WaitsHasRow(s, r);
    Settle(s, r, a, s', if a.Crash? then Flights(s).Keys else {});
  }

  lemma WaitsHasRow(s: System, r: Key)
    requires Waits(s, r)
    ensures r in s.db.rows
  {
  }

  lemma StepAccounted(s: System, r: Key, a: Action)
    requires Inv(s) && Waits(s, r) && Enabled(s, a) && Skips(a, r)
    ensures Accounted(s, r, a, Next(s, a))
  {
    hide Inv, Waits, Accounted, CreateEvent, Selects;
    match a
    case Load(batch) => LoadDrops(s, r, batch);
    case Start(_) => StagesAccounted(s, r, a);
    case Accept(_) => StagesAccounted(s, r, a);
    case Refuse(_, _) => StagesAccounted(s, r, a);
    case WriteDelivered(_, _) => WritesAccounted(s, r, a);
    case WriteFailed(_, _) => WritesAccounted(s, r, a);
    case Ingest(id, e, ds) => IngestAccounted(s, r, id, e, ds);
    case PruneOld(cutoff) =>
      PruneIsNeutral(s, r, cutoff);
      hide Ahead;
      Settle(s, r, a, AfterPrune(s, cutoff), {});
    case _ => IdleAccounted(s, r, a);
  }

  // ---------------------------------------------------------------- runs

  /** How many passes find `r` due. */
  ghost function PassCount(s: System, r: Key, acts: seq<Action>): nat
    requires Runs(s, acts)
    decreases |acts|
  {
    if acts == [] then 0 else (if Passes(s, r, acts[0]) then 1 else 0) + PassCount(Next(s, acts[0]), r, acts[1..])
  }

  ghost function Charges(s: System, r: Key, acts: seq<Action>): nat
    requires Runs(s, acts)
    decreases |acts|
  {
    if acts == [] then 0
    else (if r in s.db.rows then Charge(s, r, acts[0]) else 0) + Charges(Next(s, acts[0]), r, acts[1..])
  }

  ghost predicate SkipsAll(acts: seq<Action>, r: Key) {
    forall i | 0 <= i < |acts| :: Skips(acts[i], r)
  }

  /** The account over a whole run in which no pass selects `r`. */
  lemma {:induction false} RunAccounted(s: System, r: Key, acts: seq<Action>)
    requires Inv(s) && Waits(s, r) && Runs(s, acts) && SkipsAll(acts, r)
    ensures Waits(End(s, acts), r)
    ensures BATCH_SIZE * PassCount(s, r, acts) + |Ahead(End(s, acts), r)| <= |Ahead(s, r)| + Charges(s, r, acts)
    decreases |acts|
  {
    hide Inv, Waits, Ahead, Charge, Passes;
    if acts != [] {
      assert Skips(acts[0], r);
      StepKeeps(s, acts[0]);
      StepAccounted(s, r, acts[0]);
      RunAccounted(Next(s, acts[0]), r, acts[1..]);
    }
  }

  /** No starvation, whatever the clock does: with `n` rows at or ahead of a pending row `r`, and `c` rows put ahead
      of it meanwhile by failing writes, crashes, late older events or failures while it is not due, `r` is in one of
      any floor((n + c) / 50) + 1 delivery passes that find it due. */
  lemma NoStarvation(s0: System, before: seq<Action>, r: Key, acts: seq<Action>) returns (i: nat)
    requires Init(s0) && Runs(s0, before)
    requires var s := End(s0, before); Waits(s, r) && Runs(s, acts)
    requires var s := End(s0, before); PassCount(s, r, acts) > (|Ahead(s, r)| + Charges(s, r, acts)) / 50
    ensures i < |acts| && acts[i].Load? && r in Keys(acts[i].batch)
  {
    InitHolds(s0);
    RunKeeps(s0, before);
    var s := End(s0, before);
    if SkipsAll(acts, r) {
      RunAccounted(s, r, acts);
      assert false;
    }
    i :| 0 <= i < |acts| && !Skips(acts[i], r);
  }

  // ---------------------------------------------------------------- when nothing is charged

  /** Clock readings that never go back, writes that succeed, no crash, and only events observed after `due`. */
  ghost predicate Calm(s: System, due: int, a: Action) {
    match a
    case Tick(now) => s.clock <= now
    case WriteDelivered(_, applied) => applied
    case WriteFailed(_, applied) => applied
    case Ingest(id, e, _) => id in s.db.events || e.createdAt > due
    case Crash(_) => false
    case _ => true
  }

  ghost predicate RunsCalmly(s: System, due: int, acts: seq<Action>)
    requires Runs(s, acts)
    decreases |acts|
  {
    acts == [] || (Calm(s, due, acts[0]) && RunsCalmly(Next(s, acts[0]), due, acts[1..]))
  }

  function Loads(acts: seq<Action>): nat {
    if acts == [] then 0 else (if acts[0].Load? then 1 else 0) + Loads(acts[1..])
  }

  lemma ClockStays(s: System, a: Action)
    requires Enabled(s, a) && !a.Tick?
    ensures Next(s, a).clock == s.clock
  {
  }

  lemma CalmStep(s: System, r: Key, a: Action)
    requires Inv(s) && Waits(s, r) && Due(s, r) && Enabled(s, a) && Skips(a, r)
    requires r in s.db.rows && Calm(s, s.db.rows[r].nextAttemptAt, a)
    ensures Charge(s, r, a) == 0 && Waits(Next(s, a), r) && Due(Next(s, a), r)
    ensures r in Next(s, a).db.rows && Next(s, a).db.rows[r] == s.db.rows[r]
  {
    StepAccounted(s, r, a);
    hide Inv, Enabled, Next, Ahead, Backoff, Overtakes;
    forall f ensures !Overtakes(s, r, f) { DueRowsAreNotOvertaken(s, r, f); }
    if a.Tick? { TickMoves(s, a); } else { ClockStays(s, a); }
  }

  lemma TickMoves(s: System, a: Action)
    requires a.Tick? && Enabled(s, a)
    ensures Next(s, a).clock == a.now
  {
  }

  /** In a calm run that passes a due row over, nothing is charged and every pass finds it due. */
  lemma {:induction false} CalmChargesNothing(s: System, r: Key, acts: seq<Action>)
    requires Inv(s) && Waits(s, r) && Due(s, r) && Runs(s, acts) && SkipsAll(acts, r)
    requires r in s.db.rows && RunsCalmly(s, s.db.rows[r].nextAttemptAt, acts)
    ensures Charges(s, r, acts) == 0 && PassCount(s, r, acts) == Loads(acts)
    decreases |acts|
  {
    if acts != [] {
      hide Inv, Waits, Due, Charge, Calm, Enabled, Next;
      assert Skips(acts[0], r);
      CalmStep(s, r, acts[0]);
      StepKeeps(s, acts[0]);
      CalmChargesNothing(Next(s, acts[0]), r, acts[1..]);
    }
  }

  /** A due row with `n` rows at or ahead of it is in one of the first floor(n / 50) + 1 passes, as long as clock
      readings never go back, writes succeed, nothing crashes and only events observed after it fell due are stored. */
  lemma DueRowIsSoonLoaded(s0: System, before: seq<Action>, r: Key, acts: seq<Action>) returns (i: nat)
    requires Init(s0) && Runs(s0, before)
    requires var s := End(s0, before);
             && Waits(s, r) && Due(s, r) && Runs(s, acts) && r in s.db.rows &&
                  RunsCalmly(s, s.db.rows[r].nextAttemptAt, acts)
             && Loads(acts) > |Ahead(s, r)| / 50
    ensures i < |acts| && acts[i].Load? && r in Keys(acts[i].batch)
  {
    InitHolds(s0);
    RunKeeps(s0, before);
    hide Inv, Init, Waits, Due, Ahead;
    var s := End(s0, before);
    if SkipsAll(acts, r) {
      CalmChargesNothing(s, r, acts);
      i := NoStarvation(s0, before, r, acts);
    } else {
      i :| 0 <= i < |acts| && !Skips(acts[i], r);
    }
  }
}
