/** A delivery pass and a retention pass over the store, run one step after the other. */
module Webhook {
  import opened Wrappers
  import opened Schema
  import opened Store
  import opened Confluence
  import opened OutboxInvariant
  import opened Delivery
  import Outbox
  import Rfc3339
  import Calendar
  import Text

  /** What the world does to one delivery: the answer to its request, the clock when the outcome is written and
      whether that write fails. */
  datatype Turn = Turn(accepted: bool, error: string, clock: int, fault: bool)

  /** Room for the longest backoff. */
  ghost predicate ClockInRange(t: Turn) {
    Rfc3339.InRange(t.clock) && t.clock + 256 * Outbox.SECOND < Calendar.YearInstant(10_000)
  }

  /** The seconds a row waits after its first failed attempt, its second, and so on; the last one stays. */
  const WAITS := [2, 4, 8, 16, 32, 64, 128, 256]

  /** The row is now delivered, or pushed back with one more attempt, for as long as that attempt demands. */
  ghost predicate Settled(before: Row<int>, after: Row<int>, configured: bool, t: Turn) {
    if configured && t.accepted then after == before.(status := Delivered, deliveredAt := Some(t.clock))
    else
      var attempts := before.attempts + 1;
      var wait := WAITS[if attempts < 1 then 0 else if attempts > 8 then 7 else attempts - 1];
      var error := if configured then t.error else "webhook is not configured";
      after == before.(attempts := attempts, nextAttemptAt := t.clock + wait * 1_000_000_000,
                       lastError := Some(if |error| <= 500 then error else error[..500]))
  }

  /** The mark the outcome of one delivery calls for. */
  function Outcome(d: PendingDelivery, endpoints: set<Webhook>, t: Turn): Mark {
    if d.key.webhook in endpoints && t.accepted then Done(d.key, t.clock)
    else
      var error := if d.key.webhook in endpoints then t.error else "webhook is not configured";
      Missed(d.key, error, d.attempts + 1, t.clock + Backoff(d.attempts + 1) * Outbox.SECOND)
  }

  method MarkFailed(store: Store, d: PendingDelivery, error: string, t: Turn)
    requires store.Valid() && ClockInRange(t)
    modifies store
    ensures store.Valid()
    ensures store.Model() ==
            if t.fault then old(store.Model())
            else
              var next := t.clock + Backoff(d.attempts + 1) * Outbox.SECOND;
              ApplyMark(old(store.Model()), Missed(d.key, error, d.attempts + 1, next))
  {
    hide Rfc3339.Render, Rfc3339.Parse, Calendar.YearInstant, Text.Less;
    var attempts := d.attempts + 1;
    BackoffBounds(attempts);
    store.MarkFailed(d.key, error, attempts, t.clock + Backoff(attempts) * Outbox.SECOND, t.fault);
  }

  method DeliverOne(store: Store, endpoints: set<Webhook>, d: PendingDelivery, t: Turn)
    requires store.Valid() && ClockInRange(t)
    modifies store
    ensures store.Valid()
    ensures store.Model() ==
            if t.fault then old(store.Model()) else ApplyMark(old(store.Model()), Outcome(d, endpoints, t))
  {
    hide Rfc3339.Render, Rfc3339.Parse, Calendar.YearInstant, Text.Less;
    if d.key.webhook !in endpoints {
      MarkFailed(store, d, "webhook is not configured", t);
      return;
    }
    if t.accepted {
      store.MarkDelivered(d.key, t.clock, t.fault);
    } else {
      MarkFailed(store, d, t.error, t);
    }
  }

  /** The marks of a batch, in its order: those whose writes went through. */
  function Marks(batch: seq<PendingDelivery>, endpoints: set<Webhook>, turns: seq<Turn>): seq<Mark>
    requires |batch| <= |turns|
  {
    if batch == [] then []
    else
      var n := |batch| - 1;
      var rest := Marks(batch[..n], endpoints, turns);
      if turns[n].fault then rest else rest + [Outcome(batch[n], endpoints, turns[n])]
  }

  ghost predicate OutcomeAt(batch: seq<PendingDelivery>, endpoints: set<Webhook>, turns: seq<Turn>, m: Mark, i: nat) {
    i < |batch| && i < |turns| && !turns[i].fault && m == Outcome(batch[i], endpoints, turns[i])
  }

  lemma {:induction false} MarksAreOutcomes(batch: seq<PendingDelivery>, endpoints: set<Webhook>, turns: seq<Turn>)
    requires |batch| <= |turns|
    ensures forall m :: m in Marks(batch, endpoints, turns) <==>
            exists i: nat :: OutcomeAt(batch, endpoints, turns, m, i)
  {
    if batch != [] {
      var n := |batch| - 1;
      MarksAreOutcomes(batch[..n], endpoints, turns);
      hide Outcome;
      forall m
        ensures m in Marks(batch, endpoints, turns) <==> exists i: nat :: OutcomeAt(batch, endpoints, turns, m, i)
      {
        if i: nat :| OutcomeAt(batch, endpoints, turns, m, i) {
          assert i < n ==> OutcomeAt(batch[..n], endpoints, turns, m, i);
        }
        if m in Marks(batch[..n], endpoints, turns) {
          var i: nat :| OutcomeAt(batch[..n], endpoints, turns, m, i);
          assert OutcomeAt(batch, endpoints, turns, m, i);
        } else if m in Marks(batch, endpoints, turns) {
          assert OutcomeAt(batch, endpoints, turns, m, n);
        }
      }
    }
  }

  lemma {:induction false} MarksAreDistinct(batch: seq<PendingDelivery>, endpoints: set<Webhook>, turns: seq<Turn>)
    requires |batch| <= |turns|
    requires forall i, j | 0 <= i < j < |batch| :: batch[i].key != batch[j].key
    ensures DistinctKeys(Marks(batch, endpoints, turns))
  {
    if batch != [] {
      var n := |batch| - 1;
      MarksAreDistinct(batch[..n], endpoints, turns);
      MarksAreOutcomes(batch[..n], endpoints, turns);
      var rest := Marks(batch[..n], endpoints, turns);
      forall m | m in rest ensures m.key != batch[n].key {
        var i: nat :| OutcomeAt(batch[..n], endpoints, turns, m, i);
      }
      assert forall i | 0 <= i < |rest| :: rest[i] in rest;
    }
  }

  /** One delivery after the other. */
  method DeliverBatch(store: Store, endpoints: set<Webhook>, batch: seq<PendingDelivery>, turns: seq<Turn>)
    requires store.Valid() && |batch| <= |turns| && forall i | 0 <= i < |turns| :: ClockInRange(turns[i])
    modifies store
    ensures store.Valid()
    ensures PassMarks(old(store.Model()), store.Model(), batch, endpoints, turns)
  {
    hide *;
    ghost var t := store.Model();
    NothingSettles(t, endpoints, turns);
    var i := 0;
    assert batch[..0] == [];
    while i < |batch|
      invariant i <= |batch| && store.Valid()
      invariant store.Model() == ApplyMarks(t, Marks(batch[..i], endpoints, turns))
    {
      DeliverOne(store, endpoints, batch[i], turns[i]);
      MarksStep(t, batch, endpoints, turns, i);
      i := i + 1;
    }
    assert batch[..i] == batch;
    AreMarks(t, batch, endpoints, turns);
  }

  lemma AreMarks(t: Db, batch: seq<PendingDelivery>, endpoints: set<Webhook>, turns: seq<Turn>)
    requires |batch| <= |turns|
    ensures PassMarks(t, ApplyMarks(t, Marks(batch, endpoints, turns)), batch, endpoints, turns)
  {
  }

  /** `deliver_pending`: one batch of due rows, each sent and then marked. Afterwards every row of the batch is
      delivered or pushed back, unless its write failed, and every other row is untouched. */
  method DeliverPending(store: Store, endpoints: set<Webhook>, now: int, loadFault: bool, turns: seq<Turn>)
    returns (batch: seq<PendingDelivery>)
    requires store.Valid() && WorldInRange(now, turns)
    modifies store
    ensures store.Valid()
    ensures Loads(old(store.Model()), now, loadFault, batch)
    ensures PassMarks(old(store.Model()), store.Model(), batch, endpoints, turns)
    ensures PassSettles(old(store.Model()), store.Model(), batch, endpoints, turns)
  {
    WorldFacts(now, turns);
    hide *;
    ghost var t := store.Model();
    NothingSettles(t, endpoints, turns);
    NothingLoads(t, now);
    var loaded := store.PendingDeliveries(Outbox.BATCH_SIZE, now, loadFault);
    if loaded.Err? {
      return [];
    }
    batch := loaded.value;
    SelectedSize(t, now, batch);
    MarksSettle(t, now, batch, endpoints, turns);
    DeliverBatch(store, endpoints, batch, turns);
  }

  /** Enough turns for a batch, at times the store can write. */
  ghost predicate WorldInRange(now: int, turns: seq<Turn>) {
    now < Calendar.YearInstant(10_000) && |turns| == Outbox.BATCH_SIZE && forall i | 0 <= i < |turns| ::
      ClockInRange(turns[i])
  }

  lemma WorldFacts(now: int, turns: seq<Turn>)
    requires WorldInRange(now, turns)
    ensures now < Calendar.YearInstant(10_000) && |turns| == Outbox.BATCH_SIZE
    ensures forall i | 0 <= i < |turns| :: ClockInRange(turns[i])
  {
  }

  /** The batch is the first fifty due rows, or nothing when they cannot be loaded. */
  ghost predicate Loads(t: Db, now: int, fault: bool, batch: seq<PendingDelivery>) {
    if fault then batch == [] else Selects(t, 50, now, batch)
  }

  lemma NothingLoads(t: Db, now: int)
    ensures Loads(t, now, true, [])
    ensures forall batch | Selects(t, Outbox.BATCH_SIZE, now, batch) :: Loads(t, now, false, batch)
  {
  }

  /** What a pass does to the tables, mark by mark. */
  ghost predicate PassMarks(t: Db, t': Db, batch: seq<PendingDelivery>, endpoints: set<Webhook>, turns: seq<Turn>) {
    |batch| <= |turns| && t' == ApplyMarks(t, Marks(batch, endpoints, turns))
  }

  lemma NothingSettles(t: Db, endpoints: set<Webhook>, turns: seq<Turn>)
    ensures PassSettles(t, t, [], endpoints, turns) && PassMarks(t, t, [], endpoints, turns)
    ensures ApplyMarks(t, Marks([], endpoints, turns)) == t
  {
  }

  lemma SelectedSize(t: Db, now: int, batch: seq<PendingDelivery>)
    requires Selects(t, Outbox.BATCH_SIZE, now, batch)
    ensures |batch| <= Outbox.BATCH_SIZE
  {
  }

  lemma MarksStep(t: Db, batch: seq<PendingDelivery>, endpoints: set<Webhook>, turns: seq<Turn>, i: nat)
    requires i < |batch| <= |turns|
    ensures ApplyMarks(t, Marks(batch[..i + 1], endpoints, turns)) ==
            var before := ApplyMarks(t, Marks(batch[..i], endpoints, turns));
            if turns[i].fault then before else ApplyMark(before, Outcome(batch[i], endpoints, turns[i]))
  {
    hide Outcome;
    assert batch[..i + 1][..i] == batch[..i];
    var ms := Marks(batch[..i], endpoints, turns);
    if !turns[i].fault {
      assert (ms + [Outcome(batch[i], endpoints, turns[i])])[..|ms|] == ms;
    }
  }

  /** What a pass does to the rows, said without marks. */
  ghost predicate PassSettles(t: Db, t': Db, batch: seq<PendingDelivery>, endpoints: set<Webhook>, turns: seq<Turn>) {
    && t'.events == t.events && t'.rows.Keys == t.rows.Keys
    && (forall i: nat | i < |batch| && i < |turns| && batch[i].key in t.rows ::
          if turns[i].fault then t'.rows[batch[i].key] == t.rows[batch[i].key]
          else Settled(t.rows[batch[i].key], t'.rows[batch[i].key], batch[i].key.webhook in endpoints, turns[i]))
    && (forall k | k in t.rows && k !in Outbox.Keys(batch) :: t'.rows[k] == t.rows[k])
  }

  lemma MarksSettle(t: Db, now: int, batch: seq<PendingDelivery>, endpoints: set<Webhook>, turns: seq<Turn>)
    requires |batch| <= |turns| && Selects(t, Outbox.BATCH_SIZE, now, batch)
    ensures forall t' | PassMarks(t, t', batch, endpoints, turns) :: PassSettles(t, t', batch, endpoints, turns)
  {
    var ms := Marks(batch, endpoints, turns);
    MarksAreDistinct(batch, endpoints, turns);
    ApplyMarksMarks(t, ms);
    hide Selects, Settled, Outcome, Marks, MarkedBy;
    forall i: nat | i < |batch|
      ensures batch[i].key in t.rows && batch[i].key in ApplyMarks(t, ms).rows
      ensures if turns[i].fault then ApplyMarks(t, ms).rows[batch[i].key] == t.rows[batch[i].key]
              else Settled(t.rows[batch[i].key], ApplyMarks(t, ms).rows[batch[i].key],
                           batch[i].key.webhook in endpoints, turns[i])
    {
      MarkSettles(t, now, batch, endpoints, turns, i);
    }
    OthersStay(t, batch, endpoints, turns);
    hide ApplyMarks;
  }

  lemma OthersStay(t: Db, batch: seq<PendingDelivery>, endpoints: set<Webhook>, turns: seq<Turn>)
    requires |batch| <= |turns|
    requires MarkedBy(t, SetOf(Marks(batch, endpoints, turns)), ApplyMarks(t, Marks(batch, endpoints, turns)))
    ensures var t' := ApplyMarks(t, Marks(batch, endpoints, turns));
            && t'.events == t.events && t'.rows.Keys == t.rows.Keys
            && forall k | k in t.rows && k !in Outbox.Keys(batch) :: t'.rows[k] == t.rows[k]
  {
    MarksAreOutcomes(batch, endpoints, turns);
    hide MarkRow, Marks, ApplyMarks;
    forall k, m | k !in Outbox.Keys(batch) && m in SetOf(Marks(batch, endpoints, turns)) ensures m.key != k {
      var i: nat :| OutcomeAt(batch, endpoints, turns, m, i);
      assert batch[i].key in Outbox.Keys(batch);
    }
  }

  lemma MarkSettles(t: Db, now: int, batch: seq<PendingDelivery>, endpoints: set<Webhook>, turns: seq<Turn>, i: nat)
    requires i < |batch| <= |turns| && Selects(t, Outbox.BATCH_SIZE, now, batch)
    requires MarkedBy(t, SetOf(Marks(batch, endpoints, turns)), ApplyMarks(t, Marks(batch, endpoints, turns)))
    ensures var k, t' := batch[i].key, ApplyMarks(t, Marks(batch, endpoints, turns));
            && k in t.rows && k in t'.rows
            && if turns[i].fault then t'.rows[k] == t.rows[k]
               else Settled(t.rows[k], t'.rows[k], k.webhook in endpoints, turns[i])
  {
    var k, ms := batch[i].key, Marks(batch, endpoints, turns);
    SelectedRow(t, now, batch, i);
    hide Selects, Marks, ApplyMarks, Settled, Outcome, MarkedBy, MarkRow, Snapshot;
    MarksAreOutcomes(batch, endpoints, turns);
    forall m | m in ms && m.key == k ensures !turns[i].fault && m == Outcome(batch[i], endpoints, turns[i]) {
      var j: nat :| OutcomeAt(batch, endpoints, turns, m, j);
      OutcomeHasKey(batch[j], endpoints, turns[j]);
    }
    OutcomeHasKey(batch[i], endpoints, turns[i]);
    if !turns[i].fault {
      assert OutcomeAt(batch, endpoints, turns, Outcome(batch[i], endpoints, turns[i]), i);
      OutcomeSettles(t.rows[k], batch[i], endpoints, turns[i]);
    }
    RowIsMarked(t, ms, ApplyMarks(t, ms), k);
  }

  lemma SelectedRow(t: Db, now: int, batch: seq<PendingDelivery>, i: nat)
    requires i < |batch| && Selects(t, Outbox.BATCH_SIZE, now, batch)
    ensures batch[i].key in t.rows && batch[i].attempts == t.rows[batch[i].key].attempts
    ensures forall j | 0 <= j < |batch| && j != i :: batch[j].key != batch[i].key
  {
    hide Before, PayloadOf;
    assert forall j | 0 <= j < i :: batch[j].key != batch[i].key;
  }

  lemma RowIsMarked(t: Db, ms: seq<Mark>, t': Db, k: Key)
    requires MarkedBy(t, SetOf(ms), t') && k in t.rows
    ensures k in t'.rows
    ensures forall m | m in ms && m.key == k :: t'.rows[k] == MarkRow(t.rows[k], m)
    ensures (forall m | m in ms :: m.key != k) ==> t'.rows[k] == t.rows[k]
  {
    hide MarkRow;
    assert forall m | m in ms :: m in SetOf(ms);
  }

  lemma OutcomeHasKey(d: PendingDelivery, endpoints: set<Webhook>, turn: Turn)
    ensures Outcome(d, endpoints, turn).key == d.key
  {
  }

  lemma OutcomeSettles(row: Row<int>, d: PendingDelivery, endpoints: set<Webhook>, turn: Turn)
    requires d.attempts == row.attempts
    ensures Settled(row, MarkRow(row, Outcome(d, endpoints, turn)), d.key.webhook in endpoints, turn)
  {
    BackoffDoubles(d.attempts + 1);
    hide Backoff;
  }

  // ---------------------------------------------------------------- concurrent passes

  /** Only configured webhooks are asked, and the others fail with the one error. */
  ghost predicate Fits(s: Outbox.System, snaps: map<Key, PendingDelivery>) {
    forall k | k in Outbox.Flights(s) :: FitsOne(s, snaps, k)
  }

  ghost predicate FitsOne(s: Outbox.System, snaps: map<Key, PendingDelivery>, k: Key)
    requires k in Outbox.Flights(s)
  {
    && k in snaps && snaps[k].key == k && Outbox.Flights(s)[k].snapshot == snaps[k]
    && match Outbox.Flights(s)[k].stage
       case Queued => true
       case Sending => k.webhook in s.endpoints
       case Accepted(_) => k.webhook in s.endpoints
       case Refused(_, error) => k.webhook in s.endpoints || error == "webhook is not configured"
  }

  /** The turn a mark tells of. */
  function TurnOf(m: Mark, d: PendingDelivery): Turn {
    match m
    case Done(_, at) => Turn(true, "", at, false)
    case Missed(_, error, _, next) => Turn(false, error, next - Backoff(d.attempts + 1) * Outbox.SECOND, false)
  }

  ghost predicate Told(m: Mark, snaps: map<Key, PendingDelivery>, endpoints: set<Webhook>) {
    m.key in snaps && m == Outcome(snaps[m.key], endpoints, TurnOf(m, snaps[m.key]))
  }

  lemma StepFits(s: Outbox.System, a: Outbox.Action, snaps: map<Key, PendingDelivery>)
    requires s.loop.Delivering? && Outbox.Enabled(s, a) && !a.Crash? && !a.Finish? && Fits(s, snaps)
    ensures Fits(Outbox.Next(s, a), snaps) && Outbox.Next(s, a).endpoints == s.endpoints
    ensures forall op | op in OpOf(s, a) && op.Write? :: Told(op.mark, snaps, s.endpoints)
  {
    hide Selects, IsNextDue, CreateEvent, Backoff, Prune, OpOf, Told;
    StepTells(s, a, snaps);
    var s' := Outbox.Next(s, a);
    assert s'.endpoints == s.endpoints;
    forall k | k in Outbox.Flights(s') ensures FitsOne(s', snaps, k) {
      assert k in Outbox.Flights(s) && FitsOne(s, snaps, k);
    }
  }

  lemma StepTells(s: Outbox.System, a: Outbox.Action, snaps: map<Key, PendingDelivery>)
    requires s.loop.Delivering? && Outbox.Enabled(s, a) && !a.Crash? && !a.Finish? && Fits(s, snaps)
    ensures forall op | op in OpOf(s, a) && op.Write? :: Told(op.mark, snaps, s.endpoints)
  {
    hide Selects, IsNextDue, CreateEvent, Backoff, Prune;
  }

  lemma {:induction false} RunFits(s: Outbox.System, acts: seq<Outbox.Action>, snaps: map<Key, PendingDelivery>)
    requires s.loop.Delivering? && Runs(s, acts) && WithinPass(acts) && Fits(s, snaps)
    ensures forall op | op in OpsOf(s, acts) && op.Write? :: Told(op.mark, snaps, s.endpoints)
    decreases |acts|
  {
    if acts != [] {
      assert !acts[0].Crash? && !acts[0].Finish?;
      StepFits(s, acts[0], snaps);
      PassStep(s, acts[0]);
      assert forall i | 0 <= i < |acts[1..]| :: acts[1..][i] == acts[i + 1];
      hide Outbox.Enabled, Outbox.Next, OpOf, Fits, Told;
      RunFits(Outbox.Next(s, acts[0]), acts[1..], snaps);
      assert forall op | op in OpsOf(s, acts) ::
        op in OpOf(s, acts[0]) || op in OpsOf(Outbox.Next(s, acts[0]), acts[1..]);
    }
  }

  /** The turn of one delivery of the batch: what its mark tells, or a write that failed. */
  ghost function TurnIn(ops: seq<DbOp>, d: PendingDelivery): Turn {
    if m :| Write(m) in ops && m.key == d.key then TurnOf(m, d) else Turn(false, "", 0, true)
  }

  ghost function TurnsIn(ops: seq<DbOp>, batch: seq<PendingDelivery>): seq<Turn> {
    seq(|batch|, i requires 0 <= i < |batch| => TurnIn(ops, batch[i]))
  }

  lemma TurnsTell(ops: seq<DbOp>, batch: seq<PendingDelivery>, snaps: map<Key, PendingDelivery>,
      endpoints: set<Webhook>)
    requires forall i, j | 0 <= i < j < |batch| :: batch[i].key != batch[j].key
    requires forall i, j | 0 <= i < j < |ops| && ops[i].Write? && ops[j].Write? :: ops[i].mark.key != ops[j].mark.key
    requires snaps.Keys == Outbox.Keys(batch) && forall i | 0 <= i < |batch| :: snaps[batch[i].key] == batch[i]
    requires forall op | op in ops && op.Write? :: Told(op.mark, snaps, endpoints)
    ensures Lists(Marks(batch, endpoints, TurnsIn(ops, batch)), ops)
  {
    var turns := TurnsIn(ops, batch);
    MarksAreDistinct(batch, endpoints, turns);
    MarksAreOutcomes(batch, endpoints, turns);
    forall m, m' | Write(m) in ops && Write(m') in ops && m.key == m'.key ensures m == m' {
      var i :| 0 <= i < |ops| && ops[i] == Write(m);
      var j :| 0 <= j < |ops| && ops[j] == Write(m');
      assert i < j || j < i || i == j;
    }
    hide Marks, Outcome, TurnOf;
    forall m ensures m in Marks(batch, endpoints, turns) <==> Write(m) in ops {
      if Write(m) in ops {
        assert Told(Write(m).mark, snaps, endpoints);
        var i :| 0 <= i < |batch| && batch[i].key == m.key;
        assert turns[i] == TurnIn(ops, batch[i]);
        ToldTurn(ops, batch[i], m);
        assert OutcomeAt(batch, endpoints, turns, m, i);
      }
      if m in Marks(batch, endpoints, turns) {
        var i: nat :| OutcomeAt(batch, endpoints, turns, m, i);
        var w := WrittenFor(ops, batch[i]);
        assert Told(Write(w).mark, snaps, endpoints);
      }
    }
  }

  lemma ToldTurn(ops: seq<DbOp>, d: PendingDelivery, m: Mark)
    requires Write(m) in ops && m.key == d.key && forall x | Write(x) in ops && x.key == d.key :: x == m
    ensures TurnIn(ops, d) == TurnOf(m, d) && !TurnIn(ops, d).fault
  {
  }

  lemma WrittenFor(ops: seq<DbOp>, d: PendingDelivery) returns (m: Mark)
    requires !TurnIn(ops, d).fault
    ensures Write(m) in ops && m.key == d.key && TurnIn(ops, d) == TurnOf(m, d)
  {
    m :| Write(m) in ops && m.key == d.key && TurnIn(ops, d) == TurnOf(m, d);
  }

  /** Every pass of the machine over a batch, whatever the interleaving, has turns with which `DeliverBatch`, run
      after the pass's ingest and retention, leaves its tables: the same without a cleanup in the pass, and otherwise
      the same to the next cleanup unless an event with a mark of the pass is stored again. */
  lemma ConcurrentPassIsDeliverBatch(s: Outbox.System, batch: seq<PendingDelivery>, acts: seq<Outbox.Action>,
      c: int) returns (turns: seq<Turn>)
    requires Outbox.Inv(s) && Outbox.Enabled(s, Outbox.Load(batch))
    requires var s1 := Outbox.Next(s, Outbox.Load(batch));
             Runs(s1, acts) && WithinPass(acts) && CutsUpTo(OpsOf(s1, acts), c)
    ensures |turns| == |batch|
    ensures var s1 := Outbox.Next(s, Outbox.Load(batch)); var ops, db := OpsOf(s1, acts), End(s1, acts).db;
            var before, after := ApplyAll(s.db, Others(ops)), Sequential(s.db, ops, Marks(batch, s.endpoints, turns));
            && PassMarks(before, after, batch, s.endpoints, turns)
            && (Unrestored(ops) ==> Prune(db, c) == Prune(after, c))
            && ((forall i | 0 <= i < |acts| :: !acts[i].PruneOld?) ==> db == after)
  {
    var s1 := Outbox.Next(s, Outbox.Load(batch));
    var ops := OpsOf(s1, acts);
    turns := TurnsIn(ops, batch);
    StepKeeps(s, Outbox.Load(batch));
    var snaps := LoadFits(s, batch);
    RunFits(s1, acts, snaps);
    PassWrites(s1, acts);
    hide Outbox.Inv, Outbox.Enabled, Outbox.Next, Runs, Selects, Fits, Told, CutsUpTo, Marks, Sequential, Unrestored,
        ApplyMarks;
    TurnsTell(ops, batch, snaps, s.endpoints);
    PassIsSequential(s1, acts, Marks(batch, s.endpoints, turns), c);
    IsPassMarks(s.db, ops, batch, s.endpoints, turns);
  }

  lemma IsPassMarks(t: Db, ops: seq<DbOp>, batch: seq<PendingDelivery>, endpoints: set<Webhook>, turns: seq<Turn>)
    requires |batch| <= |turns|
    ensures PassMarks(ApplyAll(t, Others(ops)), Sequential(t, ops, Marks(batch, endpoints, turns)), batch, endpoints,
                      turns)
  {
  }

  lemma LoadFits(s: Outbox.System, batch: seq<PendingDelivery>) returns (snaps: map<Key, PendingDelivery>)
    requires Outbox.Inv(s) && Outbox.Enabled(s, Outbox.Load(batch))
    ensures var s1 := Outbox.Next(s, Outbox.Load(batch));
            && Fits(s1, snaps) && s1.loop.Delivering? && s1.db == s.db && s1.endpoints == s.endpoints
    ensures snaps.Keys == Outbox.Keys(batch) && forall i | 0 <= i < |batch| :: snaps[batch[i].key] == batch[i]
    ensures forall i, j | 0 <= i < j < |batch| :: batch[i].key != batch[j].key
  {
    hide Outbox.Inv, Selects, Before, PayloadOf, Outbox.Keys;
    LoadKeeps(s, batch);
    SelectedDiffer(s.db, s.clock, batch);
    var flights := Outbox.TakeOff(s, batch);
    snaps := map k | k in flights :: flights[k].snapshot;
    forall i | 0 <= i < |batch| ensures batch[i].key in flights && snaps[batch[i].key] == batch[i] {
      BatchHasKey(batch, i);
      SelectedIsSnapshot(s.db, s.clock, batch, i);
    }
  }

  lemma BatchHasKey(batch: seq<PendingDelivery>, i: nat)
    requires i < |batch|
    ensures batch[i].key in Outbox.Keys(batch)
  {
  }

  lemma SelectedIsSnapshot(t: Db, now: int, batch: seq<PendingDelivery>, i: nat)
    requires Selects(t, Outbox.BATCH_SIZE, now, batch) && i < |batch|
    ensures var k := batch[i].key; k in t.rows && k.event in t.events && batch[i] == Snapshot(t, k)
  {
    hide Before, PayloadOf;
  }

  lemma ModelHasForeignKeys(store: Store)
    requires store.Valid()
    ensures ForeignKeys(store.Model())
  {
  }

  /** `ChronoDuration::from_std` refuses more milliseconds than an i64 holds. */
  const MAX_RETENTION := 0x7FFF_FFFF_FFFF_FFFF * 1_000_000

  /** `prune_once`: a retention too large to convert, and a failing delete, leave the tables alone; a cutoff before
      `earliest`, the first instant chrono can hold, panics, which ends the cleanup task. */
  method PruneOnce(store: Store, now: int, retention: nat, earliest: int, fault: bool) returns (panicked: bool)
    requires store.Valid() && now < Calendar.YearInstant(10_000)
    modifies store
    ensures store.Valid()
    ensures panicked <==> retention <= 0x7FFF_FFFF_FFFF_FFFF * 1_000_000 && now - retention < earliest
    ensures store.Model() == if panicked || retention > MAX_RETENTION || fault then old(store.Model())
                             else Prune(old(store.Model()), now - retention)
    ensures forall k | IsPending(old(store.Model()), k) ::
            k in store.Model().rows && store.Model().rows[k] == old(store.Model()).rows[k]
    ensures forall k | k in old(store.Model()).rows && k !in store.Model().rows ::
              old(store.Model()).rows[k].status == Delivered &&
                old(store.Model()).events[k.event].createdAt < now - retention
  {
    hide Rfc3339.Render, Rfc3339.Parse, Rfc3339.InRange, Calendar.YearInstant, Text.Less, InTime, Prune;
    ModelHasForeignKeys(store);
    PruneRemovesOnlyDelivered(store.Model(), now - retention);
    if retention > MAX_RETENTION {
      return false;
    }
    if now - retention < earliest {
      return true;
    }
    var _ := store.PruneDeliveredEvents(now - retention, fault);
    return false;
  }
}
