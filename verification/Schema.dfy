/** The two SQLite tables of the outbox and the statements the gateway runs on them, on values.
    `T` is the type of a timestamp: instants (`int`) here, RFC 3339 text in the Store module. */
module Schema {
  import opened Wrappers
  import Text

  newtype byte = x: int | 0 <= x < 256
  type Bytes = seq<byte>
  type EventId = string
  type Webhook = string

  datatype Status = Pending | Delivered

  datatype Event<T> = Event(kind: string, board: string, threadId: int, postId: int, payload: Bytes, createdAt: T)

  /** A delivery row; rows written before payloads were per delivery have none of their own. */
  datatype Row<T> = Row(status: Status, attempts: int, nextAttemptAt: T, payload: Option<Bytes>,
                        lastError: Option<string>, deliveredAt: Option<T>)

  datatype Key = Key(event: EventId, webhook: Webhook)

  datatype Tables<T> = Tables(events: map<EventId, Event<T>>, rows: map<Key, Row<T>>)
  type Db = Tables<int>

  /** What `create_event` is asked to insert besides the event. */
  datatype EventDelivery = EventDelivery(webhook: Webhook, payload: Bytes)

  /** A row as a delivery pass sees it. */
  datatype PendingDelivery = PendingDelivery(key: Key, payload: Bytes, attempts: int)

  // ---------------------------------------------------------------- constraints

  /** The foreign key: no delivery row outlives its event. */
  ghost predicate ForeignKeys<T(!new)>(t: Tables<T>) {
    forall k | k in t.rows :: k.event in t.events
  }

  function NewRow<T>(d: EventDelivery, at: T): Row<T> {
    Row(Pending, 0, at, Some(d.payload), None, None)
  }

  /** Inserting the rows one by one; `None` when a row hits the (event id, webhook) key. */
  function InsertRows<T>(rows: map<Key, Row<T>>, id: EventId, at: T, ds: seq<EventDelivery>): Option<map<Key, Row<T>>>
    decreases |ds|
  {
    if ds == [] then Some(rows)
    else if Key(id, ds[0].webhook) in rows then None
    else InsertRows(rows[Key(id, ds[0].webhook) := NewRow(ds[0], at)], id, at, ds[1..])
  }

  /** The transaction of `create_event`: the new tables and whether the event was new; `None` rolls back. */
  function CreateEvent<T>(t: Tables<T>, id: EventId, e: Event<T>, ds: seq<EventDelivery>): Option<(Tables<T>, bool)> {
    if id in t.events then Some((t, false))
    else
      var rows :- InsertRows(t.rows, id, e.createdAt, ds);
      Some((Tables(t.events[id := e], rows), true))
  }

  function MarkDelivered<T>(t: Tables<T>, k: Key, at: T): Tables<T> {
    if k in t.rows then t.(rows := t.rows[k := t.rows[k].(status := Delivered, deliveredAt := Some(at))]) else t
  }

  /** The first `max` characters. */
  function Truncate(value: string, max: nat): string {
    if |value| <= max then value else value[..max]
  }

  function MarkFailed<T>(t: Tables<T>, k: Key, error: string, attempts: int, next: T): Tables<T> {
    if k in t.rows then
      t.(rows := t.rows[k := t.rows[k].(attempts := attempts, nextAttemptAt := next,
                                                lastError := Some(Truncate(error, 500)))])
    else t
  }

  /** Retention's condition: older than the cutoff and no row that is not delivered. */
  predicate Prunable(t: Db, id: EventId, cutoff: int) {
    && id in t.events && t.events[id].createdAt < cutoff
    && forall k | k in t.rows && k.event == id :: t.rows[k].status == Delivered
  }

  /** Deleting the prunable events; their rows go with them. */
  function Prune(t: Db, cutoff: int): Db {
    Tables(map id | id in t.events && !Prunable(t, id, cutoff) :: t.events[id],
           map k | k in t.rows && !Prunable(t, k.event, cutoff) :: t.rows[k])
  }

  function Pow2(e: nat): (p: nat)
    ensures p > e
  {
    if e == 0 then 1 else 2 * Pow2(e - 1)
  }

  function Min(a: int, b: int): int { if a < b then a else b }

  /** `delivery_backoff`, in seconds. */
  function Backoff(attempts: int): int {
    var e := if attempts < 1 then 1 else if attempts > 8 then 8 else attempts;
    Min(Pow2(e), 300)
  }

  /** Two seconds after the first attempt, doubled from each attempt to the next, and 256 from the eighth on. */
  lemma BackoffDoubles(attempts: int)
    ensures attempts <= 1 ==> Backoff(attempts) == 2
    ensures 1 <= attempts < 8 ==> Backoff(attempts + 1) == 2 * Backoff(attempts)
    ensures attempts >= 8 ==> Backoff(attempts) == 256
    ensures 1 <= attempts <= 8 ==> Backoff(attempts) == [2, 4, 8, 16, 32, 64, 128, 256][attempts - 1]
  {
    assert Pow2(1) == 2 && Pow2(2) == 4 && Pow2(3) == 8 && Pow2(4) == 16;
    assert Pow2(5) == 32 && Pow2(6) == 64 && Pow2(7) == 128 && Pow2(8) == 256;
  }

  /** A failed attempt waits at least two seconds and never more than 256: the cap of 300 is out of reach. */
  lemma BackoffBounds(attempts: int)
    ensures 2 <= Backoff(attempts) <= 256
    ensures Backoff(attempts) <= Backoff(attempts + 1)
    ensures Backoff(attempts) == 256 <==> attempts >= 8
  {
    assert Pow2(1) == 2 && Pow2(2) == 4 && Pow2(3) == 8 && Pow2(4) == 16;
    assert Pow2(5) == 32 && Pow2(6) == 64 && Pow2(7) == 128 && Pow2(8) == 256;
  }

  // ---------------------------------------------------------------- queries

  predicate IsPending<T>(t: Tables<T>, k: Key) {
    k in t.rows && t.rows[k].status == Pending
  }

  predicate IsDue(t: Db, k: Key, now: int) {
    IsPending(t, k) && k.event in t.events && t.rows[k].nextAttemptAt <= now
  }

  /** COALESCE(d.payload, e.payload) */
  function PayloadOf<T>(t: Tables<T>, k: Key): Bytes
    requires k in t.rows && k.event in t.events
  {
    match t.rows[k].payload case Some(p) => p case None => t.events[k.event].payload
  }

  function Snapshot<T>(t: Tables<T>, k: Key): PendingDelivery
    requires k in t.rows && k.event in t.events
  {
    PendingDelivery(k, PayloadOf(t, k), t.rows[k].attempts)
  }

  /** ORDER BY next_attempt_at, event_id */
  predicate Before(t: Db, j: Key, k: Key)
    requires j in t.rows && k in t.rows
  {
    || t.rows[j].nextAttemptAt < t.rows[k].nextAttemptAt
    || (t.rows[j].nextAttemptAt == t.rows[k].nextAttemptAt && Text.Less(j.event, k.event))
  }

  /** What the query behind `pending_deliveries` may return: ties are broken any way. */
  ghost predicate Selects(t: Db, limit: nat, now: int, batch: seq<PendingDelivery>) {
    var due := set k | k in t.rows && IsDue(t, k, now);
    && |batch| == (if |due| < limit then |due| else limit)
    && (forall i | 0 <= i < |batch| :: IsDue(t, batch[i].key, now) && batch[i] == Snapshot(t, batch[i].key))
    && (forall i, j | 0 <= i < j < |batch| :: batch[i].key != batch[j].key && !Before(t, batch[j].key, batch[i].key))
    && (forall k, i | IsDue(t, k, now) && (forall j | 0 <= j < |batch| :: batch[j].key != k) && 0 <= i < |batch| ::
          !Before(t, k, batch[i].key))
  }

  /** The instant `next_delivery_delay` looks for: that of some pending row, none earlier. */
  ghost predicate IsNextDue(t: Db, next: Option<int>) {
    match next
    case None => forall k | k in t.rows :: t.rows[k].status == Delivered
    case Some(at) =>
      && (exists k :: IsPending(t, k) && t.rows[k].nextAttemptAt == at)
      && (forall k | IsPending(t, k) :: at <= t.rows[k].nextAttemptAt)
  }

  function Delay(next: Option<int>, now: int): Option<nat> {
    match next
    case None => None
    case Some(at) => Some(if at < now then 0 else at - now)
  }

  // ---------------------------------------------------------------- inserting

  predicate DistinctWebhooks(ds: seq<EventDelivery>) {
    forall i, j | 0 <= i < j < |ds| :: ds[i].webhook != ds[j].webhook
  }

  lemma DistinctFromHead(ds: seq<EventDelivery>)
    requires ds != []
    ensures DistinctWebhooks(ds) <==> DistinctWebhooks(ds[1..]) && forall d | d in ds[1..] :: d.webhook != ds[0].webhook
  {
  }

  /** The keys the inserts need are free. */
  ghost predicate KeysFree<T>(rows: map<Key, Row<T>>, id: EventId, ds: seq<EventDelivery>) {
    forall d | d in ds :: Key(id, d.webhook) !in rows
  }

  /** The inserts go through exactly when no key repeats, in the table or among themselves. */
  lemma {:induction false} InsertRowsExactly<T(!new)>(rows: map<Key, Row<T>>, id: EventId, at: T,
      ds: seq<EventDelivery>)
    ensures InsertRows(rows, id, at, ds).Some? <==> DistinctWebhooks(ds) && KeysFree(rows, id, ds)
    ensures InsertRows(rows, id, at, ds).Some? ==> Inserted(rows, id, at, ds, InsertRows(rows, id, at, ds).value)
    decreases |ds|
  {
    if ds != [] {
      var k := Key(id, ds[0].webhook);
      assert ds[0] in ds && forall d | d in ds :: d == ds[0] || d in ds[1..];
      DistinctFromHead(ds);
      if k !in rows {
        var rows1 := rows[k := NewRow(ds[0], at)];
        InsertRowsExactly(rows1, id, at, ds[1..]);
        assert KeysFree(rows1, id, ds[1..]) <==>
          KeysFree(rows, id, ds[1..]) && forall d | d in ds[1..] :: d.webhook != ds[0].webhook;
        if InsertRows(rows, id, at, ds).Some? {
          InsertedFirst(rows, id, at, ds, InsertRows(rows1, id, at, ds[1..]).value);
        }
      }
    }
  }

  lemma InsertedFirst<T(!new)>(rows: map<Key, Row<T>>, id: EventId, at: T, ds: seq<EventDelivery>,
      rows': map<Key, Row<T>>)
    requires ds != [] && Key(id, ds[0].webhook) !in rows
    requires Inserted(rows[Key(id, ds[0].webhook) := NewRow(ds[0], at)], id, at, ds[1..], rows')
    ensures Inserted(rows, id, at, ds, rows')
  {
  }

  ghost predicate IsNew(id: EventId, ds: seq<EventDelivery>, k: Key) {
    k.event == id && exists d :: d in ds && d.webhook == k.webhook
  }

  ghost predicate Inserted<T(!new)>(rows: map<Key, Row<T>>, id: EventId, at: T, ds: seq<EventDelivery>,
      rows': map<Key, Row<T>>) {
    && (forall k :: k in rows' <==> k in rows || IsNew(id, ds, k))
    && (forall k | k in rows :: rows'[k] == rows[k])
    && (forall d | d in ds :: rows'[Key(id, d.webhook)] == Row(Pending, 0, at, Some(d.payload), None, None))
  }

  /** `create_event` never hits the delivery key when webhook names are distinct and rows have their events;
      a known event changes nothing, a new one comes with all its rows. */
  lemma CreateEventCommits<T(!new)>(t: Tables<T>, id: EventId, e: Event<T>, ds: seq<EventDelivery>)
    requires ForeignKeys(t) && DistinctWebhooks(ds)
    ensures var r := CreateEvent(t, id, e, ds);
            && r.Some? && ForeignKeys(r.value.0)
            && r.value.1 == (id !in t.events)
            && (id in t.events ==> r.value.0 == t)
            && (id !in t.events ==>
                  r.value.0.events == t.events[id := e] && Inserted(t.rows, id, e.createdAt, ds, r.value.0.rows))
  {
    InsertRowsExactly(t.rows, id, e.createdAt, ds);
  }

  /** When it does commit, whatever the names, the tables stay well formed and nothing stored before changes. */
  lemma CreateEventIsFirstWriteWins<T(!new)>(t: Tables<T>, id: EventId, e: Event<T>, ds: seq<EventDelivery>)
    requires ForeignKeys(t) && CreateEvent(t, id, e, ds).Some?
    ensures var t' := CreateEvent(t, id, e, ds).value.0;
            && ForeignKeys(t')
            && (forall i | i in t.events :: i in t'.events && t'.events[i] == t.events[i])
            && (forall k | k in t.rows :: k in t'.rows && t'.rows[k] == t.rows[k])
            && (forall k | k in t'.rows && k !in t.rows :: id !in t.events && k.event == id && IsPending(t', k))
    ensures id !in t.events ==> DistinctWebhooks(ds)
  {
    InsertRowsExactly(t.rows, id, e.createdAt, ds);
  }

  // ---------------------------------------------------------------- pruning

  /** Retention removes whole events with their rows, all of them delivered, and nothing else. */
  lemma PruneRemovesOnlyDelivered(t: Db, cutoff: int)
    requires ForeignKeys(t)
    ensures var t' := Prune(t, cutoff);
            && ForeignKeys(t')
            && (forall k | k in t'.rows :: k in t.rows && t'.rows[k] == t.rows[k])
            && (forall id | id in t'.events :: id in t.events && t'.events[id] == t.events[id])
            && (forall k | IsPending(t, k) :: k in t'.rows && k.event in t'.events)
            && (forall k | k in t.rows && k !in t'.rows ::
                  t.rows[k].status == Delivered && t.events[k.event].createdAt < cutoff)
            && (forall k | k in t.rows :: k in t'.rows <==> k.event in t'.events)
  {
  }

  // ---------------------------------------------------------------- the selection order

  lemma BeforeIsStrictOrder(t: Db, i: Key, j: Key, k: Key)
    requires i in t.rows && j in t.rows && k in t.rows
    ensures Before(t, i, j) ==> !Before(t, j, i)
    ensures !Before(t, i, j) && !Before(t, j, k) ==> !Before(t, i, k)
  {
    Text.LessIsStrict(i.event, j.event);
    Text.LessIsStrict(j.event, k.event);
    Text.LessIsStrict(i.event, k.event);
    if Text.Less(i.event, k.event) && Text.Less(k.event, j.event) {
      Text.LessIsTransitive(i.event, k.event, j.event);
    }
    if Text.Less(j.event, i.event) && Text.Less(i.event, k.event) {
      Text.LessIsTransitive(j.event, i.event, k.event);
    }
  }

  /** A nonempty set of rows has a first one. */
  lemma {:induction false} FirstExists(t: Db, s: set<Key>) returns (first: Key)
    requires s != {} && forall k | k in s :: k in t.rows
    ensures first in s && forall k | k in s :: !Before(t, k, first)
    decreases |s|
  {
    first :| first in s;
    BeforeIsStrictOrder(t, first, first, first);
    var rest := s - {first};
    if rest != {} {
      var f := FirstExists(t, rest);
      if Before(t, f, first) {
        forall k | k in s ensures !Before(t, k, f) {
          BeforeIsStrictOrder(t, first, f, f);
        }
        first := f;
      } else {
        forall k | k in s ensures !Before(t, k, first) {
          if k != first { BeforeIsStrictOrder(t, k, f, first); }
        }
      }
    }
  }
}
