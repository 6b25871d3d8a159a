/** The outbox as one machine: ingest, the delivery loop with its concurrent sends, retention, crashes and
    failing writes, each database call, HTTP answer and clock reading being one action. */
module Outbox {
  import opened Wrappers
  import opened Schema

  /** Instants are nanoseconds. */
  const SECOND := 1_000_000_000
  const IDLE_SWEEP := 60 * SECOND
  const BATCH_SIZE := 50
  const CONCURRENCY := 16

  /** Where one delivery of a batch stands: both writes carry the clock reading taken before them. */
  datatype Stage =
    | Queued
    | Sending
    | Accepted(at: int)
    | Refused(next: int, error: string)

  /** `position` is the delivery's place in its batch. */
  datatype Flight = Flight(snapshot: PendingDelivery, entry: nat, position: nat, stage: Stage)

  datatype Loop =
    | Ready
    | Delivering(flights: map<Key, Flight>)
    | Measuring
    | Sleeping(informed: bool, queriedAt: int, until: int, seen: set<Key>)

  /** One committed delivery row, remembered for ever: whether a 2xx answer to it was received and how many
      failed attempts were written. */
  datatype Entry = Entry(key: Key, payload: Bytes, answered: bool, failures: int)

  datatype Sent = Sent(entry: nat, key: Key, payload: Bytes)

  /** The machine's state. `log`, `current`, `sent` and `unannounced` only record history: the entry each present
      row belongs to, every request sent, and the rows committed since the last delay query without a notification. */
  datatype System = System(db: Db, clock: int, endpoints: set<Webhook>, loop: Loop, permit: bool,
                           log: seq<Entry>, current: map<Key, nat>, sent: seq<Sent>, unannounced: set<Key>)

  datatype Action =
    | Tick(now: int)
    | Ingest(id: EventId, event: Event<int>, deliveries: seq<EventDelivery>)
    | Announce
    | Load(batch: seq<PendingDelivery>)
    | LoadFault
    | Start(key: Key)
    | Accept(key: Key)
    | Refuse(key: Key, error: string)
    | WriteDelivered(key: Key, applied: bool)
    | WriteFailed(key: Key, applied: bool)
    | Finish
    | Measure(next: Option<int>)
    | MeasureFault
    | Wake(byPermit: bool)
    | PruneOld(cutoff: int)
    | Crash(endpoints: set<Webhook>)

  // ---------------------------------------------------------------- the actions

  function Flights(s: System): map<Key, Flight> {
    if s.loop.Delivering? then s.loop.flights else map[]
  }

  /** Deliveries occupying one of the concurrent slots. */
  function Active(flights: map<Key, Flight>): set<Key> {
    set k | k in flights && !flights[k].stage.Queued?
  }

  predicate AtStage(s: System, k: Key, sending: bool) {
    k in Flights(s) && if sending then Flights(s)[k].stage.Sending? else Flights(s)[k].stage.Queued?
  }

  /** The next delivery of the batch: slots are taken in its order. */
  predicate IsNext(s: System, k: Key) {
    AtStage(s, k, false) && forall j | j in Flights(s) && AtStage(s, j, false) ::
      Flights(s)[k].position <= Flights(s)[j].position
  }

  ghost predicate Enabled(s: System, a: Action) {
    match a
    case Tick(now) => true
    case Ingest(id, e, ds) => CreateEvent(s.db, id, e, ds).Some?
    case Announce => true
    case Load(batch) => s.loop.Ready? && Selects(s.db, BATCH_SIZE, s.clock, batch)
    case LoadFault => s.loop.Ready?
    case Start(k) => IsNext(s, k) && |Active(Flights(s))| < CONCURRENCY
    case Accept(k) => AtStage(s, k, true)
    case Refuse(k, error) => AtStage(s, k, true)
    case WriteDelivered(k, applied) => k in Flights(s) && Flights(s)[k].stage.Accepted?
    case WriteFailed(k, applied) => k in Flights(s) && Flights(s)[k].stage.Refused?
    case Finish => s.loop == Delivering(map[])
    case Measure(next) => s.loop.Measuring? && IsNextDue(s.db, next)
    case MeasureFault => s.loop.Measuring?
    case Wake(byPermit) => s.loop.Sleeping? && if byPermit then s.permit else s.loop.until <= s.clock
    case PruneOld(cutoff) => true
    case Crash(endpoints) => true
  }

  function Retry(s: System, f: Flight, error: string): Stage {
    Refused(s.clock + Backoff(f.snapshot.attempts + 1) * SECOND, error)
  }

  /** The entries a new event adds to the log. */
  function NewEntries(id: EventId, ds: seq<EventDelivery>): seq<Entry> {
    seq(|ds|, i requires 0 <= i < |ds| => Entry(Key(id, ds[i].webhook), ds[i].payload, false, 0))
  }

  /** The last index of `k` in a log that has it. */
  function LastIndex(log: seq<Entry>, k: Key): (i: nat)
    requires exists i :: 0 <= i < |log| && log[i].key == k
    ensures i < |log| && log[i].key == k
    ensures forall j | i < j < |log| :: log[j].key != k
  {
    if log[|log| - 1].key == k then |log| - 1 else LastIndex(log[..|log| - 1], k)
  }

  /** Which entry each row belongs to after the log has grown. */
  ghost function Relabel(current: map<Key, nat>, rows: map<Key, Row<int>>, log: seq<Entry>): map<Key, nat> {
    map k | k in rows && (k in current || exists i :: 0 <= i < |log| && log[i].key == k) ::
      if k in current then current[k] else LastIndex(log, k)
  }

  function WithStage(s: System, k: Key, stage: Stage): System {
    if k in Flights(s) then s.(loop := Delivering(Flights(s)[k := Flights(s)[k].(stage := stage)])) else s
  }

  function Landed(s: System, k: Key): System {
    s.(loop := Delivering(Flights(s) - {k}))
  }

  /** The log with entry `i` answered, or with its count of failures set. */
  function MarkAnswered(log: seq<Entry>, i: nat): seq<Entry> {
    if i < |log| then log[i := log[i].(answered := true)] else log
  }

  function CountFailures(log: seq<Entry>, i: nat, failures: int): seq<Entry> {
    if i < |log| then log[i := log[i].(failures := failures)] else log
  }

  ghost function AfterIngest(s: System, id: EventId, e: Event<int>, ds: seq<EventDelivery>): System
    requires CreateEvent(s.db, id, e, ds).Some?
  {
    var (db, isNew) := CreateEvent(s.db, id, e, ds).value;
    if !isNew then s
    else
      var log := s.log + NewEntries(id, ds);
      s.(db := db, log := log, current := Relabel(s.current, db.rows, log),
         unannounced := s.unannounced + (db.rows.Keys - s.db.rows.Keys))
  }

  function Keys(batch: seq<PendingDelivery>): set<Key> {
    set i | 0 <= i < |batch| :: batch[i].key
  }

  /** The place of a key in a batch that has it. */
  function Position(batch: seq<PendingDelivery>, k: Key): (i: nat)
    requires k in Keys(batch)
    ensures i < |batch| && batch[i].key == k
  {
    if batch[|batch| - 1].key == k then |batch| - 1 else Position(batch[..|batch| - 1], k)
  }

  function TakeOff(s: System, batch: seq<PendingDelivery>): map<Key, Flight> {
    map k | k in Keys(batch) && k in s.current && k in s.db.rows && k.event in s.db.events ::
      Flight(Snapshot(s.db, k), s.current[k], Position(batch, k), Queued)
  }

  function AfterStart(s: System, k: Key, f: Flight): System {
    if k.webhook !in s.endpoints then WithStage(s, k, Retry(s, f, "webhook is not configured"))
    else WithStage(s, k, Sending).(sent := s.sent + [Sent(f.entry, k, f.snapshot.payload)])
  }

  function AfterAccept(s: System, k: Key, f: Flight): System {
    WithStage(s, k, Accepted(s.clock)).(log := MarkAnswered(s.log, f.entry))
  }

  function AfterWriteDelivered(s: System, k: Key, f: Flight, applied: bool): System
    requires f.stage.Accepted?
  {
    if applied then Landed(s, k).(db := MarkDelivered(s.db, k, f.stage.at)) else Landed(s, k)
  }

  function AfterWriteFailed(s: System, k: Key, f: Flight, applied: bool): System
    requires f.stage.Refused?
  {
    var attempts := f.snapshot.attempts + 1;
    if applied then
      Landed(s, k).(db := MarkFailed(s.db, k, f.stage.error, attempts, f.stage.next),
                    log := CountFailures(s.log, f.entry, attempts))
    else Landed(s, k)
  }

  function AfterMeasure(s: System, next: Option<int>): System {
    var sleep := match Delay(next, s.clock) case Some(d) => d case None => IDLE_SWEEP;
    s.(loop := Sleeping(true, s.clock, s.clock + sleep, set k | k in s.db.rows &&
      IsPending(s.db, k)), unannounced := {})
  }

  function AfterPrune(s: System, cutoff: int): System {
    var db := Prune(s.db, cutoff);
    s.(db := db, current := map k | k in s.current && k in db.rows :: s.current[k])
  }

  ghost function Next(s: System, a: Action): System
    requires Enabled(s, a)
  {
    match a
    case Tick(now) => s.(clock := now)
    case Ingest(id, e, ds) => AfterIngest(s, id, e, ds)
    case Announce => s.(permit := true, unannounced := {})
    case Load(batch) => s.(loop := Delivering(TakeOff(s, batch)))
    case LoadFault => s.(loop := Measuring)
    case Start(k) => AfterStart(s, k, Flights(s)[k])
    case Accept(k) => AfterAccept(s, k, Flights(s)[k])
    case Refuse(k, error) => WithStage(s, k, Retry(s, Flights(s)[k], error))
    case WriteDelivered(k, applied) => AfterWriteDelivered(s, k, Flights(s)[k], applied)
    case WriteFailed(k, applied) => AfterWriteFailed(s, k, Flights(s)[k], applied)
    case Finish => s.(loop := Measuring)
    case Measure(next) => AfterMeasure(s, next)
    case MeasureFault => s.(loop := Sleeping(false, s.clock, s.clock + IDLE_SWEEP, {}))
    case Wake(byPermit) => s.(loop := Ready, permit := s.permit && !byPermit)
    case PruneOld(cutoff) => AfterPrune(s, cutoff)
    case Crash(endpoints) => s.(loop := Ready, permit := false, endpoints := endpoints)
  }

  // ---------------------------------------------------------------- the invariant

  /** A row and its entry agree: same key and payload, as many failures as attempts, delivered only if answered. */
  ghost predicate Tracked(db: Db, log: seq<Entry>, current: map<Key, nat>, k: Key) {
    && k in db.rows && k.event in db.events && k in current && current[k] < |log|
    && var e := log[current[k]];
       && e.key == k && e.payload == PayloadOf(db, k) && e.failures == db.rows[k].attempts
       && (db.rows[k].status == Delivered ==> e.answered)
  }

  /** An entry is answered, or it is still a pending row with its event. */
  ghost predicate Kept(db: Db, log: seq<Entry>, current: map<Key, nat>, i: nat) {
    i < |log| &&
    var k := log[i].key;
    log[i].answered || (IsPending(db, k) && k.event in db.events && k in current && current[k] == i)
  }

  /** The log describes the tables. */
  ghost predicate Recorded(db: Db, log: seq<Entry>, current: map<Key, nat>) {
    && ForeignKeys(db)
    && current.Keys == db.rows.Keys
    && (forall k | k in db.rows :: Tracked(db, log, current, k))
    && (forall i: nat | i < |log| :: Kept(db, log, current, i))
  }

  /** A delivery in flight still matches its row, to the attempt count and the payload. */
  ghost predicate Matches(db: Db, log: seq<Entry>, current: map<Key, nat>, k: Key, f: Flight) {
    && IsPending(db, k) && k.event in db.events && f.snapshot == Snapshot(db, k)
    && k in current && current[k] == f.entry && f.entry < |log|
    && (f.stage.Accepted? ==> log[f.entry].answered)
  }

  ghost predicate Aloft(db: Db, log: seq<Entry>, current: map<Key, nat>, flights: map<Key, Flight>) {
    && (forall k | k in flights :: Matches(db, log, current, k, flights[k]))
    && |flights| <= 50 && |Active(flights)| <= 16
  }

  /** Every request carried the key and the payload committed for its entry. */
  ghost predicate Genuine(log: seq<Entry>, sent: seq<Sent>) {
    forall i | 0 <= i < |sent| ::
      sent[i].entry < |log| && log[sent[i].entry].key == sent[i].key && log[sent[i].entry].payload == sent[i].payload
  }

  ghost predicate Inv(s: System) {
    && Recorded(s.db, s.log, s.current)
    && Aloft(s.db, s.log, s.current, Flights(s))
    && Genuine(s.log, s.sent)
  }

  /** A process start over any database: its rows are the log's open entries. */
  ghost predicate Init(s: System) {
    Recorded(s.db, s.log, s.current) && s.loop.Ready? && !s.permit && s.sent == [] && s.unannounced == {}
  }
}
