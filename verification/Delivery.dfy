/** What the outbox promises over whole runs: durability, at-least-once delivery, no loss to retention. */
module Delivery {
  import opened Wrappers
  import opened Schema
  import opened Outbox
  import opened OutboxInvariant

  /** `acts` can happen one after the other from `s`. */
  ghost predicate Runs(s: System, acts: seq<Action>)
    decreases |acts|
  {
    acts == [] || (Enabled(s, acts[0]) && Runs(Next(s, acts[0]), acts[1..]))
  }

  ghost function End(s: System, acts: seq<Action>): System
    requires Runs(s, acts)
    decreases |acts|
  {
    if acts == [] then s else End(Next(s, acts[0]), acts[1..])
  }

  lemma {:induction false} RunKeeps(s: System, acts: seq<Action>)
    requires Inv(s) && Runs(s, acts)
    ensures Inv(End(s, acts))
    decreases |acts|
  {
    hide Inv;
    if acts != [] {
      StepKeeps(s, acts[0]);
      RunKeeps(Next(s, acts[0]), acts[1..]);
    }
  }

  // ---------------------------------------------------------------- entries are for ever

  /** An entry keeps its key and payload, stays answered once answered, and never loses a failure. */
  ghost predicate Persists(log: seq<Entry>, log': seq<Entry>) {
    && |log| <= |log'|
    && forall i | 0 <= i < |log| ::
         && log'[i].key == log[i].key && log'[i].payload == log[i].payload
         && (log[i].answered ==> log'[i].answered) && log[i].failures <= log'[i].failures
  }

  lemma StepPersists(s: System, a: Action)
    requires Inv(s) && Enabled(s, a)
    ensures Persists(s.log, Next(s, a).log)
  {
    hide Recorded, Aloft, Genuine, Selects, CreateEvent;
    match a
    case Ingest(id, e, ds) => if id !in s.db.events { LogGrows(s.log, id, ds, s.log + NewEntries(id, ds)); }
    case Accept(k) =>
    case WriteFailed(k, applied) => FlightFacts(s, k);
    case _ =>
  }

  lemma {:induction false} RunPersists(s: System, acts: seq<Action>)
    requires Inv(s) && Runs(s, acts)
    ensures Persists(s.log, End(s, acts).log)
    decreases |acts|
  {
    hide Inv;
    if acts != [] {
      StepKeeps(s, acts[0]);
      StepPersists(s, acts[0]);
      RunPersists(Next(s, acts[0]), acts[1..]);
    }
  }

  // ---------------------------------------------------------------- the promise

  /** The row of entry `i` is still there: pending, with its event and the payload committed for it. */
  ghost predicate StillPending(s: System, i: nat)
    requires i < |s.log|
  {
    var k := s.log[i].key;
    && IsPending(s.db, k) && k.event in s.db.events && k in s.current && s.current[k] == i
    && PayloadOf(s.db, k) == s.log[i].payload
  }

  /** At-least-once, over every run with failing writes, pruning, crashes and restarts: a delivery row committed at any
      point is at every later point either answered with 2xx or still pending, with its event and its payload. */
  lemma AtLeastOnce(s0: System, before: seq<Action>, after: seq<Action>, i: nat)
    requires Init(s0) && Runs(s0, before) && Runs(End(s0, before), after)
    requires i < |End(s0, before).log|
    ensures var s1, s2 := End(s0, before), End(End(s0, before), after);
            && i < |s2.log| && s2.log[i].key == s1.log[i].key && s2.log[i].payload == s1.log[i].payload
            && (s2.log[i].answered || StillPending(s2, i))
  {
    InitHolds(s0);
    RunKeeps(s0, before);
    var s1 := End(s0, before);
    RunKeeps(s1, after);
    RunPersists(s1, after);
    var s2 := End(s1, after);
    assert Kept(s2.db, s2.log, s2.current, i);
    if !s2.log[i].answered {
      assert Tracked(s2.db, s2.log, s2.current, s2.log[i].key);
    }
  }

  /** A delivery being sent or accepted has a request on record for its entry, with the entry's payload. */
  ghost predicate Asked(s: System) {
    forall k | k in Flights(s) && (Flights(s)[k].stage.Sending? || Flights(s)[k].stage.Accepted?) ::
      Sent(Flights(s)[k].entry, k, Flights(s)[k].snapshot.payload) in s.sent
  }

  lemma StepAsks(s: System, a: Action)
    requires Asked(s) && Enabled(s, a)
    ensures Asked(Next(s, a))
  {
    hide Selects, IsNextDue, CreateEvent, Prune, Backoff;
    var s' := Next(s, a);
    assert forall x | x in s.sent :: x in s'.sent;
    if a.Start? && a.key.webhook in s.endpoints {
      var f := Flights(s)[a.key];
      assert s'.sent[|s.sent|] == Sent(f.entry, a.key, f.snapshot.payload);
    }
    forall k | k in Flights(s') && (Flights(s')[k].stage.Sending? || Flights(s')[k].stage.Accepted?)
      ensures Sent(Flights(s')[k].entry, k, Flights(s')[k].snapshot.payload) in s'.sent
    {
      assert (a.Start? && a.key == k) || (k in Flights(s) &&
        (Flights(s)[k].stage.Sending? || Flights(s)[k].stage.Accepted?));
    }
  }

  lemma {:induction false} RunAsks(s: System, acts: seq<Action>)
    requires Asked(s) && Runs(s, acts)
    ensures Asked(End(s, acts))
    decreases |acts|
  {
    hide Asked;
    if acts != [] {
      StepAsks(s, acts[0]);
      RunAsks(Next(s, acts[0]), acts[1..]);
    }
  }

  /** An entry becomes answered only by a 2xx answer to a request that was sent for this very entry, to its own webhook
      and with its own payload. */
  lemma AnswersComeFromEndpoints(s0: System, before: seq<Action>, acts: seq<Action>, i: nat) returns (j: nat)
    requires Init(s0) && Runs(s0, before) && Runs(End(s0, before), acts)
    requires var s := End(s0, before);
             && i < |s.log| && !s.log[i].answered && i < |End(s, acts).log| && End(s, acts).log[i].answered
    ensures var s := End(s0, before); var e := s.log[i];
            && j < |acts| && acts[j] == Accept(e.key) && Runs(s, acts[..j])
            && Sent(i, e.key, e.payload) in End(s, acts[..j]).sent
  {
    InitHolds(s0);
    RunKeeps(s0, before);
    RunAsks(s0, before);
    hide Init, Inv, Asked;
    j := AnsweredAlong(End(s0, before), acts, i);
  }

  lemma {:induction false} AnsweredAlong(s: System, acts: seq<Action>, i: nat) returns (j: nat)
    requires Inv(s) && Asked(s) && Runs(s, acts) && i < |s.log| && !s.log[i].answered
    requires i < |End(s, acts).log| && End(s, acts).log[i].answered
    ensures j < |acts| && acts[j] == Accept(s.log[i].key) && Runs(s, acts[..j])
    ensures Sent(i, s.log[i].key, s.log[i].payload) in End(s, acts[..j]).sent
    decreases |acts|
  {
    var a := acts[0];
    var s' := Next(s, a);
    StepKeeps(s, a);
    StepPersists(s, a);
    if s'.log[i].answered {
      AnsweredByStep(s, a, i);
      j := 0;
    } else {
      StepAsks(s, a);
      hide Inv, Asked, Next, Enabled;
      var n := AnsweredAlong(s', acts[1..], i);
      j := n + 1;
      assert acts[..j][0] == a && acts[..j][1..] == acts[1..][..n];
    }
  }

  lemma AnsweredByStep(s: System, a: Action, i: nat)
    requires Inv(s) && Asked(s) && Enabled(s, a) && i < |s.log| && !s.log[i].answered
    requires i < |Next(s, a).log| && Next(s, a).log[i].answered
    ensures a == Accept(s.log[i].key) && Sent(i, s.log[i].key, s.log[i].payload) in s.sent
  {
    hide Recorded, Aloft, Genuine, Selects, CreateEvent;
    match a
    case Accept(k) => FlightFacts(s, k);
    case Ingest(id, e, ds) => if id !in s.db.events { LogGrows(s.log, id, ds, s.log + NewEntries(id, ds)); }
    case _ =>
  }

  /** Every request ever sent for an entry, first attempt or retry, carries the same event id and the same bytes. */
  lemma RetriesAreIdentical(s0: System, acts: seq<Action>, i: nat, j: nat)
    requires Init(s0) && Runs(s0, acts)
    requires i < |End(s0, acts).sent| && j < |End(s0, acts).sent|
    requires End(s0, acts).sent[i].entry == End(s0, acts).sent[j].entry
    ensures var sent := End(s0, acts).sent; sent[i].key == sent[j].key && sent[i].payload == sent[j].payload
  {
    InitHolds(s0);
    RunKeeps(s0, acts);
  }

  /** While a batch is in flight, whatever ingest and retention do, each unfinished delivery still matches a pending row
      with its attempts and payload, and the row's attempts are exactly the failures written for it. */
  lemma FlightsStayCurrent(s0: System, acts: seq<Action>, k: Key)
    requires Init(s0) && Runs(s0, acts) && k in Flights(End(s0, acts))
    ensures var s := End(s0, acts); var f := Flights(s)[k];
            && IsPending(s.db, k) && k.event in s.db.events && f.snapshot == Snapshot(s.db, k)
            && f.entry < |s.log| && s.log[f.entry].failures == s.db.rows[k].attempts
            && |Flights(s)| <= 50 && |Active(Flights(s))| <= 16
  {
    InitHolds(s0);
    RunKeeps(s0, acts);
    FlightFacts(End(s0, acts), k);
    var s := End(s0, acts);
    assert Matches(s.db, s.log, s.current, k, Flights(s)[k]);
  }

  // ---------------------------------------------------------------- any database is a start

  /** Every database with sound foreign keys is the start of a run: nothing above is vacuous. */
  lemma AnyDatabaseStarts(db: Db, clock: int, endpoints: set<Webhook>) returns (s: System)
    requires ForeignKeys(db)
    ensures Init(s) && s.db == db && s.clock == clock && s.endpoints == endpoints
  {
    var log, current := Recording(db, db.rows.Keys);
    s := System(db, clock, endpoints, Ready, false, log, current, [], {});
  }

  lemma {:induction false} Recording(db: Db, keys: set<Key>) returns (log: seq<Entry>, current: map<Key, nat>)
    requires ForeignKeys(db) && keys <= db.rows.Keys
    ensures current.Keys == keys
    ensures forall k | k in keys :: Tracked(db, log, current, k)
    ensures forall i: nat | i < |log| :: Kept(db, log, current, i)
    decreases |keys|
  {
    if keys == {} {
      return [], map[];
    }
    var k :| k in keys;
    var log0, current0 := Recording(db, keys - {k});
    var row := db.rows[k];
    log := log0 + [Entry(k, PayloadOf(db, k), row.status == Delivered, row.attempts)];
    current := current0[k := |log0|];
    forall j | j in keys ensures Tracked(db, log, current, j) {
      if j != k { assert Tracked(db, log0, current0, j); }
    }
    forall i: nat | i < |log| ensures Kept(db, log, current, i) {
      if i < |log0| { assert Kept(db, log0, current0, i); }
    }
  }
}
