/** The SQLite store: tables whose timestamps are RFC 3339 text compared as text. Every statement is proved
    to do, on the instants those texts denote, what the Schema module says. */
module Store {
  import opened Wrappers
  import opened Schema
  import opened Rfc3339
  import Calendar
  import Text

  /** A text the gateway itself wrote for an instant of the years 0 to 9999. */
  ghost predicate Stamped(s: string) {
    exists n :: InRange(n) && s == Render(n)
  }

  /** The instant a stored text denotes. */
  function Time(s: string): int {
    match Parse(s) case Some(n) => n case None => 0
  }

  function RowInTime(r: Row<string>): Row<int> {
    Row(r.status, r.attempts, Time(r.nextAttemptAt), r.payload, r.lastError,
        match r.deliveredAt case Some(s) => Some(Time(s)) case None => None)
  }

  function EventInTime(e: Event<string>): Event<int> {
    Event(e.kind, e.board, e.threadId, e.postId, e.payload, Time(e.createdAt))
  }

  function RowsInTime(rows: map<Key, Row<string>>): map<Key, Row<int>> {
    map k | k in rows :: RowInTime(rows[k])
  }

  function InTime(t: Tables<string>): Db {
    Tables(map id | id in t.events :: EventInTime(t.events[id]), RowsInTime(t.rows))
  }

  lemma TimeOfRender(n: int)
    requires InRange(n)
    ensures Stamped(Render(n)) && Time(Render(n)) == n
  {
    hide Rfc3339.Render, Rfc3339.Parse, Rfc3339.InRange, Calendar.YearInstant, Text.Less;
    ParseRender(n);
  }

  /** Comparing a stored text with the text of an instant, and two stored texts with each other. */
  lemma StampedOrder(s: string, n: int)
    requires Stamped(s) && n < Calendar.YearInstant(10_000)
    ensures Text.Less(s, Render(n)) <==> Time(s) < n
    ensures Text.Less(Render(n), s) <==> n < Time(s)
  {
    hide Rfc3339.Render, Rfc3339.Parse, Rfc3339.InRange, Calendar.YearInstant, Text.Less;
    var m :| InRange(m) && s == Render(m);
    TimeOfRender(m);
    TextOrderIsTime(m, n);
  }

  lemma TimeIsStamp(s: string)
    requires Stamped(s)
    ensures InRange(Time(s)) && Render(Time(s)) == s
  {
    hide Rfc3339.Render, Rfc3339.Parse, Rfc3339.InRange, Calendar.YearInstant, Text.Less;
    var m :| InRange(m) && s == Render(m);
    TimeOfRender(m);
  }

  lemma StampedPairOrder(s: string, t: string)
    requires Stamped(s) && Stamped(t)
    ensures Text.Less(s, t) <==> Time(s) < Time(t)
    ensures s == t <==> Time(s) == Time(t)
  {
    hide Rfc3339.Render, Rfc3339.Parse, Calendar.YearInstant, Text.Less;
    TimeIsStamp(s);
    TimeIsStamp(t);
    StampedOrder(s, Time(t));
  }

  /** Inserting rows commutes with reading their timestamps. */
  lemma {:induction false} InsertRowsInTime(rows: map<Key, Row<string>>, id: EventId, at: int, ds: seq<EventDelivery>)
    requires InRange(at)
    ensures var text := InsertRows(rows, id, Render(at), ds);
            var time := InsertRows(RowsInTime(rows), id, at, ds);
            if text.Some? then time == Some(RowsInTime(text.value)) else time.None?
    decreases |ds|
  {
    hide Rfc3339.Render, Rfc3339.Parse, Rfc3339.InRange, Calendar.YearInstant, Text.Less;
    if ds != [] && Key(id, ds[0].webhook) !in rows {
      var k := Key(id, ds[0].webhook);
      TimeOfRender(at);
      var rows1 := rows[k := NewRow(ds[0], Render(at))];
      assert RowsInTime(rows1) == RowsInTime(rows)[k := NewRow(ds[0], at)];
      InsertRowsInTime(rows1, id, at, ds[1..]);
    }
  }

  /** A selection under way: `batch` holds the first rows of `due`, `remaining` the others. */
  ghost predicate Chosen(m: Db, due: set<Key>, remaining: set<Key>, batch: seq<PendingDelivery>) {
    && remaining <= due && |batch| + |remaining| == |due|
    && (forall k | k in due :: k in m.rows && k.event in m.events)
    && (forall i | 0 <= i < |batch| :: batch[i].key in due - remaining && batch[i] == Snapshot(m, batch[i].key))
    && (forall k | k in due - remaining :: exists i :: 0 <= i < |batch| && batch[i].key == k)
    && (forall i, j | 0 <= i < j < |batch| :: batch[i].key != batch[j].key && !Before(m, batch[j].key, batch[i].key))
    && (forall k, i | k in remaining && 0 <= i < |batch| :: !Before(m, k, batch[i].key))
  }

  lemma ChooseNext(m: Db, due: set<Key>, remaining: set<Key>, batch: seq<PendingDelivery>, k: Key)
    requires Chosen(m, due, remaining, batch) && k in remaining
    requires forall j | j in remaining :: !Before(m, j, k)
    ensures Chosen(m, due, remaining - {k}, batch + [Snapshot(m, k)])
  {
    hide Before, PayloadOf;
    var batch' := batch + [Snapshot(m, k)];
    assert batch'[|batch|].key == k && forall i | 0 <= i < |batch| :: batch'[i] == batch[i];
    forall j | j in due - (remaining - {k}) ensures exists i :: 0 <= i < |batch'| && batch'[i].key == j {
      if j != k {
        assert j in due - remaining;
        var i :| 0 <= i < |batch| && batch[i].key == j;
        assert batch'[i].key == j;
      }
    }
  }

  lemma ChosenSelects(m: Db, limit: nat, now: int, remaining: set<Key>, batch: seq<PendingDelivery>)
    requires Chosen(m, (set k | k in m.rows && IsDue(m, k, now)), remaining, batch)
    requires |batch| == limit || (remaining == {} && |batch| <= limit)
    ensures Selects(m, limit, now, batch)
  {
    hide Before, PayloadOf;
    var due := set k | k in m.rows && IsDue(m, k, now);
    forall k, i | IsDue(m, k, now) && (forall j | 0 <= j < |batch| :: batch[j].key != k) && 0 <= i < |batch|
      ensures !Before(m, k, batch[i].key)
    {
      assert k in due;
      assert k !in due - remaining;
    }
  }

  lemma SelectedRows(t: Tables<string>, limit: nat, now: int, batch: seq<PendingDelivery>)
    requires Selects(InTime(t), limit, now, batch)
    ensures forall d | d in batch :: d.key in t.rows && d.key.event in t.events
              && d.attempts == t.rows[d.key].attempts
              && match t.rows[d.key].payload
                 case Some(own) => d.payload == own
                 case None => d.payload == t.events[d.key.event].payload
  {
    hide Before;
    forall d | d in batch ensures IsDue(InTime(t), d.key, now) && d == Snapshot(InTime(t), d.key) {
      var i :| 0 <= i < |batch| && batch[i] == d;
    }
  }

  /** The time from `now` to `at`, none once that has passed. */
  predicate IsWait(d: nat, now: int, at: int) { if at > now then now + d == at else d == 0 }

  class Store {
    var events: map<EventId, Event<string>>
    var rows: map<Key, Row<string>>

    ghost predicate Valid()
      reads this
    {
      && (forall k | k in rows :: k.event in events)
      && (forall id | id in events :: Stamped(events[id].createdAt))
      && (forall k | k in rows :: Stamped(rows[k].nextAttemptAt))
    }

    /** The tables with their timestamps read as instants. */
    ghost function Model(): Db
      reads this
    {
      InTime(Tables(events, rows))
    }

    /** A fresh database after `migrate`. */
    constructor ()
      ensures Valid() && Model() == Tables(map[], map[])
    {
      events, rows := map[], map[];
    }

    /** `fault` is a failing database call: the transaction rolls back. */
    method CreateEvent(id: EventId, kind: string, board: string, threadId: int, postId: int, payload: Bytes,
                       observedAt: int, deliveries: seq<EventDelivery>, fault: bool)
      returns (r: Result<bool, ()>)
      requires Valid() && InRange(observedAt)
      modifies this
      ensures Valid()
      ensures var e := Event(kind, board, threadId, postId, payload, observedAt);
              var spec := Schema.CreateEvent(old(Model()), id, e, deliveries);
              if fault || spec.None? then r.Err? && Model() == old(Model())
              else r == Ok(spec.value.1) && Model() == spec.value.0
    {
      hide Rfc3339.Render, Rfc3339.Parse, Rfc3339.InRange, Calendar.YearInstant, Text.Less;
      if fault { return Err(()); }
      TimeOfRender(observedAt);
      InsertRowsInTime(rows, id, observedAt, deliveries);
      if id in events {
        return Ok(false);
      }
      var createdAt := Render(observedAt);
      var txRows := rows;
      var i := 0;
      while i < |deliveries|
        invariant i <= |deliveries|
        invariant InsertRows(rows, id, createdAt, deliveries) == InsertRows(txRows, id, createdAt, deliveries[i..])
        invariant forall k | k in txRows :: Stamped(txRows[k].nextAttemptAt) && (k.event in events || k.event == id)
      {
        var k := Key(id, deliveries[i].webhook);
        if k in txRows {
          return Err(());
        }
        txRows := txRows[k := NewRow(deliveries[i], createdAt)];
        i := i + 1;
      }
      events := events[id := Event(kind, board, threadId, postId, payload, createdAt)];
      rows := txRows;
      return Ok(true);
    }

    predicate TextBefore(j: Key, k: Key)
      reads this
      requires j in rows && k in rows
    {
      || Text.Less(rows[j].nextAttemptAt, rows[k].nextAttemptAt)
      || (rows[j].nextAttemptAt == rows[k].nextAttemptAt && Text.Less(j.event, k.event))
    }

    lemma TextBeforeIsBefore(j: Key, k: Key)
      requires Valid() && j in rows && k in rows
      ensures TextBefore(j, k) <==> Before(Model(), j, k)
    {
      StampedPairOrder(rows[j].nextAttemptAt, rows[k].nextAttemptAt);
    }

    /** The rows the WHERE clause of `pending_deliveries` keeps. */
    function DueByText(now: string): set<Key>
      reads this
    {
      set k | k in rows && k.event in events && rows[k].status == Pending && !Text.Less(now, rows[k].nextAttemptAt)
    }

    lemma DueByTextIsDue(now: int)
      requires Valid() && now < Calendar.YearInstant(10_000)
      ensures DueByText(Render(now)) == set k | k in Model().rows && IsDue(Model(), k, now)
    {
      hide Rfc3339.Render, Rfc3339.Parse, Rfc3339.InRange, Calendar.YearInstant, Text.Less;
      forall k | k in rows
        ensures Text.Less(Render(now), rows[k].nextAttemptAt) <==> now < Time(rows[k].nextAttemptAt)
      {
        StampedOrder(rows[k].nextAttemptAt, now);
      }
    }

    lemma FirstByTextExists(s: set<Key>)
      requires Valid() && s != {} && forall k | k in s :: k in rows
      ensures exists k :: k in s && forall j | j in s :: !TextBefore(j, k)
    {
      var k := FirstExists(Model(), s);
      forall j | j in s ensures !TextBefore(j, k) {
        TextBeforeIsBefore(j, k);
      }
    }

    /** ORDER BY ... LIMIT is carried out by taking first rows, ties in any order. */
    method PendingDeliveries(limit: nat, now: int, fault: bool) returns (r: Result<seq<PendingDelivery>, ()>)
      requires Valid() && now < Calendar.YearInstant(10_000)
      ensures r.Err? <==> fault
      ensures r.Ok? ==> Selects(Model(), limit, now, r.value)
      ensures r.Ok? ==> forall d | d in r.value :: d.key in rows && d.key.event in events
                          && d.attempts == rows[d.key].attempts
                          && match rows[d.key].payload
                             case Some(own) => d.payload == own
                             case None => d.payload == events[d.key.event].payload
    {
      hide Rfc3339.Render, Rfc3339.Parse, Rfc3339.InRange, Calendar.YearInstant, Text.Less;
      if fault { return Err(()); }
      DueByTextIsDue(now);
      var remaining := DueByText(Render(now));
      ghost var m, due := Model(), remaining;
      var batch: seq<PendingDelivery> := [];
      while |batch| < limit && remaining != {}
        invariant remaining <= due && |batch| <= limit
        invariant Chosen(m, due, remaining, batch)
      {
        FirstByTextExists(remaining);
        var k :| k in remaining && forall j | j in remaining :: !TextBefore(j, k);
        forall j | j in remaining ensures !Before(m, j, k) { TextBeforeIsBefore(j, k); }
        ChooseNext(m, due, remaining, batch, k);
        batch := batch + [Snapshot(Tables(events, rows), k)];
        remaining := remaining - {k};
      }
      ChosenSelects(m, limit, now, remaining, batch);
      SelectedRows(Tables(events, rows), limit, now, batch);
      return Ok(batch);
    }

    method MarkDelivered(k: Key, now: int, fault: bool)
      requires Valid() && InRange(now)
      modifies this
      ensures Valid()
      ensures Model() == if fault then old(Model()) else Schema.MarkDelivered(old(Model()), k, now)
    {
      hide Rfc3339.Render, Rfc3339.Parse, Rfc3339.InRange, Calendar.YearInstant, Text.Less;
      TimeOfRender(now);
      if !fault && k in rows {
        rows := rows[k := rows[k].(status := Delivered, deliveredAt := Some(Render(now)))];
      }
    }

    method MarkFailed(k: Key, error: string, attempts: int, nextAttemptAt: int, fault: bool)
      requires Valid() && InRange(nextAttemptAt)
      modifies this
      ensures Valid()
      ensures Model() == if fault then old(Model())
                         else Schema.MarkFailed(old(Model()), k, error, attempts, nextAttemptAt)
    {
      hide Rfc3339.Render, Rfc3339.Parse, Rfc3339.InRange, Calendar.YearInstant, Text.Less;
      TimeOfRender(nextAttemptAt);
      if !fault && k in rows {
        rows := rows[k := rows[k].(attempts := attempts, nextAttemptAt := Render(nextAttemptAt),
                                   lastError := Some(Truncate(error, 500)))];
      }
    }

    /** The time until the first pending row falls due, none without pending rows, zero once it is overdue. */
    method NextDeliveryDelay(now: int, fault: bool) returns (r: Result<Option<nat>, ()>)
      requires Valid()
      ensures r.Err? <==> fault
      ensures r.Ok? ==> exists next :: IsNextDue(Model(), next) && r.value == Delay(next, now)
      ensures r.Ok? && r.value.None? ==> forall k | k in Model().rows :: !IsPending(Model(), k)
      ensures r.Ok? && r.value.Some? ==>
                && (exists k :: IsPending(Model(), k) && IsWait(r.value.value, now, Model().rows[k].nextAttemptAt))
                && forall k | IsPending(Model(), k) ::
                     Model().rows[k].nextAttemptAt > now ==> now + r.value.value <= Model().rows[k].nextAttemptAt
    {
      hide Rfc3339.Render, Rfc3339.Parse, Rfc3339.InRange, Calendar.YearInstant, Text.Less;
      if fault { return Err(()); }
      var pending := set k | k in rows && rows[k].status == Pending;
      if pending == {} {
        assert IsNextDue(Model(), None) by {
          forall k | k in Model().rows ensures Model().rows[k].status == Delivered { assert k !in pending; }
        }
        return Ok(None);
      }
      FirstByTextExists(pending);
      var k :| k in pending && forall j | j in pending :: !Text.Less(rows[j].nextAttemptAt, rows[k].nextAttemptAt);
      var next := Time(rows[k].nextAttemptAt);
      assert IsNextDue(Model(), Some(next)) by {
        assert IsPending(Model(), k);
        forall j | IsPending(Model(), j) ensures next <= Model().rows[j].nextAttemptAt {
          assert j in pending;
          StampedPairOrder(rows[j].nextAttemptAt, rows[k].nextAttemptAt);
        }
      }
      return Ok(Delay(Some(next), now));
    }

    /** The events the DELETE's WHERE clause picks. */
    function DoomedByText(cutoff: string): set<EventId>
      reads this
    {
      set id | id in events && Text.Less(events[id].createdAt, cutoff)
               && forall k | k in rows && k.event == id :: rows[k].status == Delivered
    }

    lemma DoomedByTextIsPrunable(cutoff: int)
      requires Valid() && cutoff < Calendar.YearInstant(10_000)
      ensures forall id :: id in DoomedByText(Render(cutoff)) <==> Prunable(Model(), id, cutoff)
    {
      hide Rfc3339.Render, Rfc3339.Parse, Rfc3339.InRange, Calendar.YearInstant, Text.Less;
      forall id | id in events
        ensures Text.Less(events[id].createdAt, Render(cutoff)) <==> Time(events[id].createdAt) < cutoff
      {
        StampedOrder(events[id].createdAt, cutoff);
      }
      assert forall k | k in rows :: Model().rows[k].status == rows[k].status;
    }

    /** Deletes old fully delivered events and, through the cascade, their rows; reports how many events went. */
    method PruneDeliveredEvents(cutoff: int, fault: bool) returns (r: Result<nat, ()>)
      requires Valid() && cutoff < Calendar.YearInstant(10_000)
      modifies this
      ensures Valid()
      ensures r.Err? <==> fault
      ensures Model() == if fault then old(Model()) else Prune(old(Model()), cutoff)
      ensures r.Ok? ==> r.value + |events| == |old(events)|
    {
      hide Rfc3339.Render, Rfc3339.Parse, Rfc3339.InRange, Calendar.YearInstant, Text.Less;
      if fault { return Err(()); }
      var stamp := Render(cutoff);
      var doomed := DoomedByText(stamp);
      DoomedByTextIsPrunable(cutoff);
      CardinalityOfRemoval(events, doomed);
      PruneInTime(Tables(events, rows), doomed, cutoff);
      events := events - doomed;
      rows := map k | k in rows && k.event !in doomed :: rows[k];
      return Ok(|doomed|);
    }
  }

  lemma PruneInTime(t: Tables<string>, doomed: set<EventId>, cutoff: int)
    requires forall id :: id in doomed <==> Prunable(InTime(t), id, cutoff)
    ensures InTime(Tables(t.events - doomed, map k | k in t.rows && k.event !in doomed :: t.rows[k])) ==
            Prune(InTime(t), cutoff)
  {
  }

  lemma CardinalityOfRemoval<V>(m: map<EventId, V>, gone: set<EventId>)
    requires gone <= m.Keys
    ensures |gone| + |m - gone| == |m|
  {
  }
}
