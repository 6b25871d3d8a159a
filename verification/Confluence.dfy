/** The order in which one batch's concurrent deliveries finish does not matter: interleaved with ingest and
    retention, they leave the tables that sequential processing with the same outcomes leaves. */
module Confluence {
  import opened Wrappers
  import opened Schema
  import opened Outbox
  import opened OutboxInvariant
  import opened Delivery

  /** The outcome written for one delivery. */
  datatype Mark =
    | Done(key: Key, at: int)
    | Missed(key: Key, error: string, attempts: int, next: int)

  datatype DbOp =
    | Put(id: EventId, event: Event<int>, deliveries: seq<EventDelivery>)
    | Write(mark: Mark)
    | Cut(cutoff: int)

  function ApplyMark(t: Db, m: Mark): Db {
    match m
    case Done(k, at) => MarkDelivered(t, k, at)
    case Missed(k, error, attempts, next) => MarkFailed(t, k, error, attempts, next)
  }

  function ApplyPut(t: Db, id: EventId, e: Event<int>, ds: seq<EventDelivery>): Db {
    match CreateEvent(t, id, e, ds) case Some((t', _)) => t' case None => t
  }

  function Apply(t: Db, op: DbOp): Db {
    match op
    case Put(id, e, ds) => ApplyPut(t, id, e, ds)
    case Write(m) => ApplyMark(t, m)
    case Cut(cutoff) => Prune(t, cutoff)
  }

  function ApplyAll(t: Db, ops: seq<DbOp>): Db {
    if ops == [] then t else Apply(ApplyAll(t, ops[..|ops| - 1]), ops[|ops| - 1])
  }

  // ---------------------------------------------------------------- the sequential pass

  function ApplyMarks(t: Db, ms: seq<Mark>): Db {
    if ms == [] then t else ApplyMark(ApplyMarks(t, ms[..|ms| - 1]), ms[|ms| - 1])
  }

  /** What happens besides the marks, in its order. */
  function Others(ops: seq<DbOp>): seq<DbOp> {
    if ops == [] then []
    else Others(ops[..|ops| - 1]) + if ops[|ops| - 1].Write? then [] else [ops[|ops| - 1]]
  }

  /** Ingest and retention as they came, then one delivery after the other. */
  function Sequential(t: Db, ops: seq<DbOp>, ms: seq<Mark>): Db {
    ApplyMarks(ApplyAll(t, Others(ops)), ms)
  }

  predicate DistinctKeys(ms: seq<Mark>) {
    forall i, j | 0 <= i < j < |ms| :: ms[i].key != ms[j].key
  }

  /** `ms` lists the marks written in `ops`, in any order. */
  ghost predicate Lists(ms: seq<Mark>, ops: seq<DbOp>) {
    DistinctKeys(ms) && forall m :: m in ms <==> Write(m) in ops
  }

  // ---------------------------------------------------------------- the order of marks

  function MarkRow(row: Row<int>, m: Mark): Row<int> {
    match m
    case Done(k, at) => row.(status := Delivered, deliveredAt := Some(at))
    case Missed(k, error, attempts, next) =>
      row.(attempts := attempts, nextAttemptAt := next, lastError := Some(Truncate(error, 500)))
  }

  /** `t'` is `p` with exactly the rows that have a mark in `marked` changed, each by its own mark. */
  ghost predicate MarkedBy(p: Db, marked: iset<Mark>, t': Db) {
    && t'.events == p.events && t'.rows.Keys == p.rows.Keys
    && (forall m | m in marked && m.key in p.rows :: t'.rows[m.key] == MarkRow(p.rows[m.key], m))
    && (forall k | k in p.rows && (forall m | m in marked :: m.key != k) :: t'.rows[k] == p.rows[k])
  }

  lemma MarkOneMore(p: Db, marked: iset<Mark>, t: Db, m: Mark)
    requires MarkedBy(p, marked, t) && forall x | x in marked :: x.key != m.key
    ensures MarkedBy(p, marked + iset{m}, ApplyMark(t, m))
  {
  }

  ghost function MarksOf(ops: seq<DbOp>): iset<Mark> { iset m | Write(m) in ops }

  ghost function SetOf(ms: seq<Mark>): iset<Mark> { iset m | m in ms }

  lemma {:induction false} ApplyMarksMarks(p: Db, ms: seq<Mark>)
    requires DistinctKeys(ms)
    ensures MarkedBy(p, SetOf(ms), ApplyMarks(p, ms))
  {
    if ms != [] {
      var o, m := ms[..|ms| - 1], ms[|ms| - 1];
      ApplyMarksMarks(p, o);
      assert SetOf(ms) == SetOf(o) + iset{m} by { assert ms == o + [m]; }
      MarkOneMore(p, SetOf(o), ApplyMarks(p, o), m);
    }
  }

  /** The marks written in `ops`, in their order. */
  function Written(ops: seq<DbOp>): seq<Mark> {
    if ops == [] then []
    else Written(ops[..|ops| - 1]) + if ops[|ops| - 1].Write? then [ops[|ops| - 1].mark] else []
  }

  // ---------------------------------------------------------------- the operations of a pass

  /** Marks hit distinct rows pending at the start. */
  ghost predicate MarksOnce(t: Db, ops: seq<DbOp>) {
    && (forall i | 0 <= i < |ops| && ops[i].Write? :: IsPending(t, ops[i].mark.key))
    && (forall i, j | 0 <= i < j < |ops| && ops[i].Write? && ops[j].Write? :: ops[i].mark.key != ops[j].mark.key)
  }

  /** An event is stored only when the tables do not have it, under distinct webhooks. */
  ghost predicate PutsAreNew(t: Db, ops: seq<DbOp>) {
    forall i | 0 <= i < |ops| && ops[i].Put? ::
      DistinctWebhooks(ops[i].deliveries) && ops[i].id !in ApplyAll(t, ops[..i]).events
  }

  ghost predicate CutsUpTo(ops: seq<DbOp>, c: int) {
    forall i | 0 <= i < |ops| && ops[i].Cut? :: ops[i].cutoff <= c
  }

  ghost predicate OnePass(t: Db, ops: seq<DbOp>, c: int) {
    ForeignKeys(t) && MarksOnce(t, ops) && PutsAreNew(t, ops) && CutsUpTo(ops, c)
  }

  lemma OnePassPrefix(t: Db, ops: seq<DbOp>, n: nat, c: int)
    requires OnePass(t, ops, c) && n <= |ops|
    ensures OnePass(t, ops[..n], c)
  {
    var o := ops[..n];
    assert forall i | 0 <= i < n :: o[i] == ops[i];
    forall i | 0 <= i < n && o[i].Put?
      ensures DistinctWebhooks(o[i].deliveries) && o[i].id !in ApplyAll(t, o[..i]).events
    {
      assert ops[i].Put? && o[..i] == ops[..i];
    }
  }

  ghost predicate IsPut(op: DbOp, id: EventId) { op.Put? && op.id == id }

  ghost predicate IsMark(op: DbOp, id: EventId) { op.Write? && op.mark.key.event == id }

  /** Event `id` is stored, or has a row marked, in `ops`. */
  ghost predicate Stores(ops: seq<DbOp>, id: EventId) { exists i :: 0 <= i < |ops| && IsPut(ops[i], id) }

  ghost predicate Touches(ops: seq<DbOp>, id: EventId) { exists i :: 0 <= i < |ops| && IsMark(ops[i], id) }

  /** No event with a mark of the pass is stored during it. */
  ghost predicate Unrestored(ops: seq<DbOp>) { forall id | Stores(ops, id) :: !Touches(ops, id) }

  // ---------------------------------------------------------------- one event at a time

  /** The two tables agree on event `id` and its rows. */
  ghost predicate SameAt(a: Db, b: Db, id: EventId) {
    && (id in a.events <==> id in b.events) && (id in a.events ==> a.events[id] == b.events[id])
    && forall k: Key | k.event == id :: (k in a.rows <==> k in b.rows) && (k in a.rows ==> a.rows[k] == b.rows[k])
  }

  lemma SamePrunable(a: Db, b: Db, id: EventId, c: int)
    requires SameAt(a, b, id)
    ensures Prunable(a, id, c) <==> Prunable(b, id, c)
  {
  }

  lemma PutElsewhere(t: Db, op: DbOp, id: EventId)
    requires ForeignKeys(t) && op.Put? && op.id != id && DistinctWebhooks(op.deliveries)
    ensures SameAt(Apply(t, op), t, id)
  {
    CreateEventCommits(t, op.id, op.event, op.deliveries);
    hide CreateEvent, DistinctWebhooks;
  }

  lemma PutKnown(t: Db, op: DbOp)
    requires op.Put? && op.id in t.events
    ensures Apply(t, op) == t
  {
  }

  lemma ApplyKeepsKeys(t: Db, op: DbOp)
    requires ForeignKeys(t) && (op.Put? ==> DistinctWebhooks(op.deliveries))
    ensures ForeignKeys(Apply(t, op))
  {
    if op.Put? {
      CreateEventCommits(t, op.id, op.event, op.deliveries);
      hide CreateEvent, DistinctWebhooks;
    }
  }

  lemma PutHere(a: Db, b: Db, op: DbOp)
    requires ForeignKeys(a) && ForeignKeys(b) && op.Put? && DistinctWebhooks(op.deliveries) && SameAt(a, b, op.id)
    ensures SameAt(Apply(a, op), Apply(b, op), op.id)
  {
    CreateEventCommits(a, op.id, op.event, op.deliveries);
    CreateEventCommits(b, op.id, op.event, op.deliveries);
    hide CreateEvent, DistinctWebhooks;
    if op.id !in a.events {
      var a', b' := Apply(a, op), Apply(b, op);
      forall k: Key | k.event == op.id && k in a'.rows ensures k in b'.rows && a'.rows[k] == b'.rows[k] {
        assert IsNew(op.id, op.deliveries, k);
        var d :| d in op.deliveries && d.webhook == k.webhook;
        assert Key(op.id, d.webhook) == k;
      }
    }
  }

  lemma MarkIsLocal(a: Db, b: Db, m: Mark, id: EventId)
    requires SameAt(a, b, id)
    ensures SameAt(ApplyMark(a, m), ApplyMark(b, m), id)
  {
    if m.key.event != id {
      MarkElsewhere(a, Write(m), id);
      MarkElsewhere(b, Write(m), id);
      hide ApplyMark;
    }
  }

  lemma CutIsLocal(a: Db, b: Db, cutoff: int, id: EventId)
    requires SameAt(a, b, id)
    ensures SameAt(Prune(a, cutoff), Prune(b, cutoff), id)
  {
    SamePrunable(a, b, id, cutoff);
    hide Prunable;
  }

  /** An operation does the same to an event in tables that agree on it. */
  lemma ApplyIsLocal(a: Db, b: Db, op: DbOp, id: EventId)
    requires ForeignKeys(a) && ForeignKeys(b) && SameAt(a, b, id) && (op.Put? ==> DistinctWebhooks(op.deliveries))
    ensures SameAt(Apply(a, op), Apply(b, op), id)
  {
    hide SameAt, ForeignKeys, DistinctWebhooks, ApplyPut, ApplyMark, Prune;
    match op
    case Put(i, e, ds) =>
      if i == id {
        PutHere(a, b, op);
      } else {
        PutElsewhere(a, op, id);
        PutElsewhere(b, op, id);
        SameThrough(Apply(a, op), a, b, Apply(b, op), id);
      }
    case Write(m) => MarkIsLocal(a, b, m, id);
    case Cut(cutoff) => CutIsLocal(a, b, cutoff, id);
  }

  lemma SameAsItself(a: Db, id: EventId)
    ensures SameAt(a, a, id)
  {
  }

  lemma SameThrough(a': Db, a: Db, b: Db, b': Db, id: EventId)
    requires SameAt(a', a, id) && SameAt(a, b, id) && SameAt(b', b, id)
    ensures SameAt(a', b', id)
  {
  }

  lemma {:induction false} RunKeepsKeys(t: Db, ops: seq<DbOp>)
    requires ForeignKeys(t) && forall i | 0 <= i < |ops| && ops[i].Put? :: DistinctWebhooks(ops[i].deliveries)
    ensures ForeignKeys(ApplyAll(t, ops))
  {
    if ops != [] {
      RunKeepsKeys(t, ops[..|ops| - 1]);
      ApplyKeepsKeys(ApplyAll(t, ops[..|ops| - 1]), ops[|ops| - 1]);
    }
  }

  lemma {:induction false} OthersAreOthers(ops: seq<DbOp>)
    ensures forall i | 0 <= i < |Others(ops)| :: !Others(ops)[i].Write? && Others(ops)[i] in ops
    ensures (forall i | 0 <= i < |ops| && ops[i].Put? :: DistinctWebhooks(ops[i].deliveries)) ==>
              forall i | 0 <= i < |Others(ops)| && Others(ops)[i].Put? :: DistinctWebhooks(Others(ops)[i].deliveries)
  {
    hide DistinctWebhooks;
    if ops != [] { OthersAreOthers(ops[..|ops| - 1]); }
  }

  /** Both sides keep the foreign key all along. */
  lemma PassKeepsKeys(t: Db, ops: seq<DbOp>, c: int)
    requires OnePass(t, ops, c)
    ensures ForeignKeys(ApplyAll(t, ops)) && ForeignKeys(ApplyAll(t, Others(ops)))
  {
    OthersAreOthers(ops);
    RunKeepsKeys(t, ops);
    RunKeepsKeys(t, Others(ops));
  }

  lemma OthersStep(t: Db, ops: seq<DbOp>)
    requires ops != []
    ensures var o, op := ops[..|ops| - 1], ops[|ops| - 1];
            ApplyAll(t, Others(ops)) == if op.Write? then ApplyAll(t, Others(o)) else Apply(ApplyAll(t, Others(o)), op)
  {
    var o, op := ops[..|ops| - 1], ops[|ops| - 1];
    if op.Write? { assert Others(ops) == Others(o); } else { assert Others(ops)[..|Others(ops)| - 1] == Others(o); }
  }

  // ---------------------------------------------------------------- events without marks

  /** An event none of whose rows is marked fares the same with the marks and without. */
  lemma {:induction false} UnmarkedEvent(t: Db, ops: seq<DbOp>, id: EventId, c: int)
    requires OnePass(t, ops, c) && !Touches(ops, id)
    ensures SameAt(ApplyAll(t, ops), ApplyAll(t, Others(ops)), id)
  {
    if ops != [] {
      var n := |ops| - 1;
      var o, op := ops[..n], ops[n];
      OnePassPrefix(t, ops, n, c);
      assert !IsMark(ops[n], id) && forall i | 0 <= i < n :: o[i] == ops[i];
      PassKeepsKeys(t, o, c);
      UnmarkedEvent(t, o, id, c);
      assert op.Put? ==> DistinctWebhooks(op.deliveries);
      hide OnePass, Others, DistinctWebhooks, SameAt, Apply, ForeignKeys;
      OthersStep(t, ops);
      if op.Write? {
        MarkElsewhere(ApplyAll(t, o), op, id);
        SameThrough(Apply(ApplyAll(t, o), op), ApplyAll(t, o), ApplyAll(t, Others(o)), ApplyAll(t, Others(o)), id) by {
          SameAsItself(ApplyAll(t, Others(o)), id);
        }
      } else {
        ApplyIsLocal(ApplyAll(t, o), ApplyAll(t, Others(o)), op, id);
      }
    }
  }

  lemma MarkElsewhere(t: Db, op: DbOp, id: EventId)
    requires op.Write? && op.mark.key.event != id
    ensures SameAt(Apply(t, op), t, id)
  {
  }

  lemma {:induction false} MarksElsewhere(t: Db, ms: seq<Mark>, id: EventId)
    requires forall i | 0 <= i < |ms| :: ms[i].key.event != id
    ensures SameAt(ApplyMarks(t, ms), t, id)
  {
    if ms != [] {
      MarksElsewhere(t, ms[..|ms| - 1], id);
      MarkElsewhere(ApplyMarks(t, ms[..|ms| - 1]), Write(ms[|ms| - 1]), id);
    }
  }

  // ---------------------------------------------------------------- events with marks

  /** A pending row keeps its event from retention, and the event keeps out another of its id. */
  lemma {:induction false} PendingEventStays(t: Db, ops: seq<DbOp>, k: Key)
    requires ForeignKeys(t) && IsPending(t, k)
    requires forall i | 0 <= i < |ops| :: !ops[i].Write? && (ops[i].Put? ==> DistinctWebhooks(ops[i].deliveries))
    ensures SameAt(ApplyAll(t, ops), t, k.event)
  {
    if ops != [] {
      var o, op := ops[..|ops| - 1], ops[|ops| - 1];
      PendingEventStays(t, o, k);
      RunKeepsKeys(t, o);
      var a := ApplyAll(t, o);
      match op
      case Put(id, e, ds) => if id == k.event { PutKnown(a, op); } else { PutElsewhere(a, op, k.event); }
      case Cut(cutoff) => assert !Prunable(a, k.event, cutoff);
    }
  }

  lemma {:induction false} WrittenMarks(ops: seq<DbOp>)
    ensures SetOf(Written(ops)) == MarksOf(ops)
    ensures (forall i, j | 0 <= i < j < |ops| && ops[i].Write? && ops[j].Write? :: ops[i].mark.key != ops[j].mark.key)
            ==> DistinctKeys(Written(ops))
  {
    if ops != [] {
      var n := |ops| - 1;
      var o := ops[..n];
      WrittenMarks(o);
      assert ops == o + [ops[n]];
      forall i | 0 <= i < |Written(o)| ensures Written(o)[i] in SetOf(Written(o)) {}
      assert forall m | m in MarksOf(o) :: exists i :: 0 <= i < n && ops[i] == Write(m);
    }
  }

  /** The start with only the marks of `ops` on it. */
  function Marked(t: Db, ops: seq<DbOp>): Db { ApplyMarks(t, Written(ops)) }

  lemma MarkedRow(t: Db, ops: seq<DbOp>, k: Key, c: int)
    requires OnePass(t, ops, c) && k in t.rows && forall i | 0 <= i < |ops| && ops[i].Write? :: ops[i].mark.key != k
    ensures k in Marked(t, ops).rows && Marked(t, ops).rows[k] == t.rows[k]
  {
    WrittenMarks(ops);
    ApplyMarksMarks(t, Written(ops));
    assert forall m | m in MarksOf(ops) :: m.key != k;
  }

  lemma MarkedStep(t: Db, ops: seq<DbOp>)
    requires ops != []
    ensures var o, op := ops[..|ops| - 1], ops[|ops| - 1];
            Marked(t, ops) == if op.Write? then ApplyMark(Marked(t, o), op.mark) else Marked(t, o)
  {
    var o, op := ops[..|ops| - 1], ops[|ops| - 1];
    if op.Write? {
      assert Written(ops)[..|Written(ops)| - 1] == Written(o);
    } else {
      assert Written(ops) == Written(o);
    }
  }

  /** On event `id`, `a` is `n`; or `n` has it old and fully delivered and `a`, after a cleanup, not at all. */
  ghost predicate Follows(a: Db, n: Db, id: EventId, c: int) {
    SameAt(a, n, id) || (id !in a.events && Prunable(n, id, c))
  }

  lemma FollowsMark(a: Db, n: Db, id: EventId, c: int, m: Mark)
    requires ForeignKeys(a) && ForeignKeys(n) && Follows(a, n, id, c)
    requires m.key.event == id ==> IsPending(n, m.key)
    ensures Follows(ApplyMark(a, m), ApplyMark(n, m), id, c)
  {
    if SameAt(a, n, id) {
      ApplyIsLocal(a, n, Write(m), id);
    } else {
      MarkElsewhere(a, Write(m), id);
      MarkElsewhere(n, Write(m), id);
      SamePrunable(n, ApplyMark(n, m), id, c);
    }
  }

  lemma FollowsCut(a: Db, n: Db, id: EventId, c: int, cutoff: int)
    requires Follows(a, n, id, c) && cutoff <= c && ForeignKeys(a)
    ensures Follows(Prune(a, cutoff), n, id, c)
  {
    if SameAt(a, n, id) { SamePrunable(a, n, id, cutoff); }
  }

  /** As long as it is not stored again, a marked event has the marks, unless a cleanup has taken it. */
  lemma {:induction false} MarkedEvent(t: Db, ops: seq<DbOp>, id: EventId, c: int)
    requires OnePass(t, ops, c) && !Stores(ops, id)
    ensures Follows(ApplyAll(t, ops), Marked(t, ops), id, c)
  {
    if ops != [] {
      var n := |ops| - 1;
      var o, op := ops[..n], ops[n];
      OnePassPrefix(t, ops, n, c);
      assert !IsPut(ops[n], id) && forall i | 0 <= i < n :: o[i] == ops[i];
      MarkedEvent(t, o, id, c);
      PassKeepsKeys(t, o, c);
      MarkedKeys(t, o, c);
      MarkedStep(t, ops);
      match op
      case Put(i, e, ds) =>
        assert DistinctWebhooks(ds);
        hide OnePass, Marked;
        PutElsewhere(ApplyAll(t, o), op, id);
      case Write(m) =>
        MarkedRow(t, o, m.key, c);
        hide OnePass, Marked, Follows;
        FollowsMark(ApplyAll(t, o), Marked(t, o), id, c, m);
      case Cut(cutoff) =>
        hide Marked, Follows;
        FollowsCut(ApplyAll(t, o), Marked(t, o), id, c, cutoff);
    }
  }

  lemma MarkedKeys(t: Db, ops: seq<DbOp>, c: int)
    requires OnePass(t, ops, c)
    ensures ForeignKeys(Marked(t, ops))
  {
    WrittenMarks(ops);
    ApplyMarksMarks(t, Written(ops));
  }

  /** The sequential side has the marks on a marked event, whatever is stored or cleaned up. */
  lemma SequentialMarks(t: Db, ops: seq<DbOp>, ms: seq<Mark>, id: EventId, c: int)
    requires OnePass(t, ops, c) && Lists(ms, ops) && Touches(ops, id)
    ensures SameAt(Sequential(t, ops, ms), Marked(t, ops), id)
  {
    MarkedStaysInOthers(t, ops, id, c);
    assert DistinctKeys(Written(ops)) && SetOf(Written(ops)) == MarksOf(ops) by { WrittenMarks(ops); }
    assert SetOf(ms) == MarksOf(ops);
    hide OnePass, Lists, SameAt, MarkedBy, Touches, SetOf, MarksOf;
    ApplyMarksMarks(t, Written(ops));
    assert DistinctKeys(ms) by { ListsDistinct(ms, ops); }
    ApplyMarksMarks(ApplyAll(t, Others(ops)), ms);
    MarkedAlike(t, ApplyAll(t, Others(ops)), MarksOf(ops), Marked(t, ops), Sequential(t, ops, ms), id);
  }

  lemma ListsDistinct(ms: seq<Mark>, ops: seq<DbOp>)
    requires Lists(ms, ops)
    ensures DistinctKeys(ms)
  {
  }

  lemma MarkedStaysInOthers(t: Db, ops: seq<DbOp>, id: EventId, c: int)
    requires OnePass(t, ops, c) && Touches(ops, id)
    ensures SameAt(ApplyAll(t, Others(ops)), t, id)
  {
    var i :| 0 <= i < |ops| && IsMark(ops[i], id);
    assert IsPending(t, ops[i].mark.key);
    OthersAreOthers(ops);
    hide DistinctWebhooks, SameAt;
    PendingEventStays(t, Others(ops), ops[i].mark.key);
  }

  lemma MarkedAlike(p: Db, q: Db, marked: iset<Mark>, p': Db, q': Db, id: EventId)
    requires SameAt(q, p, id) && MarkedBy(p, marked, p') && MarkedBy(q, marked, q')
    ensures SameAt(q', p', id)
  {
    forall k: Key | k.event == id && k in p.rows ensures p'.rows[k] == q'.rows[k] {
      if m :| m in marked && m.key == k { assert p'.rows[k] == MarkRow(p.rows[m.key], m); }
    }
  }

  // ---------------------------------------------------------------- the whole tables

  /** Seen from the next cleanup the two agree on every event. */
  lemma AgreeingPrunesEqual(a: Db, s: Db, c: int)
    requires ForeignKeys(a) && ForeignKeys(s) && forall id :: Follows(a, s, id, c)
    ensures Prune(a, c) == Prune(s, c)
  {
    var p, q := Prune(a, c), Prune(s, c);
    forall id ensures SameAt(p, q, id) {
      assert Follows(a, s, id, c);
      if SameAt(a, s, id) { SamePrunable(a, s, id, c); }
    }
    SameEverywhere(p, q);
  }

  lemma SameEverywhere(a: Db, b: Db)
    requires forall id :: SameAt(a, b, id)
    ensures a == b
  {
    forall k: Key ensures (k in a.rows <==> k in b.rows) && (k in a.rows ==> a.rows[k] == b.rows[k]) {
      assert SameAt(a, b, k.event);
    }
    forall id ensures (id in a.events <==> id in b.events) && (id in a.events ==> a.events[id] == b.events[id]) {
      assert SameAt(a, b, id);
    }
    assert a.events == b.events && a.rows == b.rows;
  }

  lemma SequentialFollows(t: Db, ops: seq<DbOp>, ms: seq<Mark>, id: EventId, c: int)
    requires OnePass(t, ops, c) && Lists(ms, ops) && (Touches(ops, id) ==> !Stores(ops, id))
    ensures Follows(ApplyAll(t, ops), Sequential(t, ops, ms), id, c)
    ensures !Touches(ops, id) ==> SameAt(ApplyAll(t, ops), Sequential(t, ops, ms), id)
  {
    if Touches(ops, id) {
      MarkedEvent(t, ops, id, c);
      SequentialMarks(t, ops, ms, id, c);
      hide OnePass, Lists, Marked, Sequential, Touches;
      if Prunable(Marked(t, ops), id, c) { SamePrunable(Sequential(t, ops, ms), Marked(t, ops), id, c); }
    } else {
      UnmarkedEvent(t, ops, id, c);
      forall i | 0 <= i < |ms| ensures ms[i].key.event != id {
        assert ms[i] in ms;
        var j :| 0 <= j < |ops| && ops[j] == Write(ms[i]);
        assert !IsMark(ops[j], id);
      }
      MarksElsewhere(ApplyAll(t, Others(ops)), ms, id);
      hide OnePass, Lists, Touches;
    }
  }

  lemma {:induction false} MarksKeepKeys(t: Db, ms: seq<Mark>)
    requires ForeignKeys(t)
    ensures ForeignKeys(ApplyMarks(t, ms))
  {
    if ms != [] { MarksKeepKeys(t, ms[..|ms| - 1]); }
  }

  /** Without a cleanup in the pass no event goes, so none with a mark is stored again. */
  lemma {:induction false} NothingGoes(t: Db, ops: seq<DbOp>, id: EventId, c: int)
    requires OnePass(t, ops, c) && id in t.events && forall i | 0 <= i < |ops| :: !ops[i].Cut?
    ensures id in ApplyAll(t, ops).events
  {
    if ops != [] {
      var n := |ops| - 1;
      OnePassPrefix(t, ops, n, c);
      NothingGoes(t, ops[..n], id, c);
      PassKeepsKeys(t, ops[..n], c);
      assert ops[n].Put? ==> ops[n].id !in ApplyAll(t, ops[..n]).events && DistinctWebhooks(ops[n].deliveries);
      hide OnePass, DistinctWebhooks, ForeignKeys, Apply;
      UncutStep(ApplyAll(t, ops[..n]), ops[n], id);
    }
  }

  lemma NothingRestored(t: Db, ops: seq<DbOp>, id: EventId, c: int)
    requires OnePass(t, ops, c) && id in t.events && forall i | 0 <= i < |ops| :: !ops[i].Cut?
    ensures !Stores(ops, id)
  {
    if Stores(ops, id) {
      var i :| 0 <= i < |ops| && IsPut(ops[i], id);
      OnePassPrefix(t, ops, i, c);
      assert id !in ApplyAll(t, ops[..i]).events;
      hide OnePass, Stores;
      NothingGoes(t, ops[..i], id, c);
      assert false;
    }
  }

  lemma UncutStep(t: Db, op: DbOp, id: EventId)
    requires ForeignKeys(t) && id in t.events && !op.Cut?
    requires (op.Put? ==> DistinctWebhooks(op.deliveries) && op.id !in t.events)
    ensures id in Apply(t, op).events
  {
    if op.Put? { PutElsewhere(t, op, id); }
  }

  lemma TouchedIsThere(t: Db, ops: seq<DbOp>, id: EventId, c: int)
    requires OnePass(t, ops, c) && Touches(ops, id)
    ensures id in t.events
  {
    var i :| 0 <= i < |ops| && IsMark(ops[i], id);
  }

  // ---------------------------------------------------------------- a marked event stored again

  lemma {:induction false} FirstPut(ops: seq<DbOp>, id: EventId) returns (j: nat)
    requires Stores(ops, id)
    ensures j < |ops| && IsPut(ops[j], id) && !Stores(ops[..j], id)
  {
    var n := |ops| - 1;
    if Stores(ops[..n], id) {
      j := FirstPut(ops[..n], id);
      assert ops[..n][..j] == ops[..j];
    } else {
      j := n;
      assert forall i | 0 <= i < n :: ops[..n][i] == ops[i];
    }
  }

  /** By then the event has all its marks. */
  lemma AllMarkedBefore(t: Db, ops: seq<DbOp>, id: EventId, c: int, j: nat)
    requires OnePass(t, ops, c) && j < |ops| && IsPut(ops[j], id) && !Stores(ops[..j], id) && id in t.events
    ensures Prunable(Marked(t, ops[..j]), id, c)
    ensures forall i | j <= i < |ops| :: !IsMark(ops[i], id)
  {
    OnePassPrefix(t, ops, j, c);
    MarkedEvent(t, ops[..j], id, c);
    MarkedEvents(t, Written(ops[..j]));
    forall i | j <= i < |ops| ensures !IsMark(ops[i], id) {
      if IsMark(ops[i], id) {
        MarkedRow(t, ops[..j], ops[i].mark.key, c);
        assert false;
      }
    }
  }

  lemma {:induction false} MarkedEvents(t: Db, ms: seq<Mark>)
    ensures ApplyMarks(t, ms).events == t.events
  {
    if ms != [] { MarkedEvents(t, ms[..|ms| - 1]); }
  }

  /** Rows of the event stored again stay pending to the end of the pass. */
  lemma {:induction false} StaysPending(t: Db, ops: seq<DbOp>, k: Key)
    requires ForeignKeys(t) && IsPending(t, k)
    requires forall i | 0 <= i < |ops| ::
            !IsMark(ops[i], k.event) && (ops[i].Put? ==> DistinctWebhooks(ops[i].deliveries))
    ensures IsPending(ApplyAll(t, ops), k)
  {
    if ops != [] {
      var o, op := ops[..|ops| - 1], ops[|ops| - 1];
      StaysPending(t, o, k);
      RunKeepsKeys(t, o);
      var a := ApplyAll(t, o);
      match op
      case Put(id, e, ds) => if id == k.event { PutKnown(a, op); } else { PutElsewhere(a, op, k.event); }
      case Write(m) => MarkElsewhere(a, op, k.event);
      case Cut(cutoff) => assert !Prunable(a, k.event, cutoff);
    }
  }

  lemma NewRowsPend(t: Db, op: DbOp)
    requires ForeignKeys(t) && op.Put? && DistinctWebhooks(op.deliveries) && op.deliveries != [] && op.id !in t.events
    ensures IsPending(Apply(t, op), Key(op.id, op.deliveries[0].webhook)) && ForeignKeys(Apply(t, op))
  {
    CreateEventCommits(t, op.id, op.event, op.deliveries);
    hide CreateEvent, DistinctWebhooks;
    assert op.deliveries[0] in op.deliveries;
    assert IsNew(op.id, op.deliveries, Key(op.id, op.deliveries[0].webhook));
  }

  /** Nothing more is marked on the event, so its marks are those before it was stored again. */
  lemma {:induction false} MarksAreDone(t: Db, ops: seq<DbOp>, j: nat, id: EventId)
    requires j <= |ops| && forall i | j <= i < |ops| :: !IsMark(ops[i], id)
    ensures SameAt(Marked(t, ops), Marked(t, ops[..j]), id)
    decreases |ops|
  {
    if j == |ops| {
      assert ops[..j] == ops;
    } else {
      var o, op := ops[..|ops| - 1], ops[|ops| - 1];
      assert o[..j] == ops[..j];
      MarksAreDone(t, o, j, id);
      MarkedStep(t, ops);
      if op.Write? { MarkElsewhere(Marked(t, o), op, id); }
      hide Marked;
    }
  }

  lemma {:induction false} ApplyAllAppends(t: Db, a: seq<DbOp>, b: seq<DbOp>)
    ensures ApplyAll(t, a + b) == ApplyAll(ApplyAll(t, a), b)
    decreases |b|
  {
    if b == [] {
      assert a + b == a;
    } else {
      assert (a + b)[..|a + b| - 1] == a + b[..|b| - 1];
      ApplyAllAppends(t, a, b[..|b| - 1]);
    }
  }

  /** The concurrent side ends with the event stored again, its rows pending. */
  lemma ConcurrentHasIt(t: Db, ops: seq<DbOp>, c: int, j: nat)
    requires OnePass(t, ops, c) && j < |ops| && ops[j].Put? && ops[j].deliveries != []
    requires forall i | j <= i < |ops| :: !IsMark(ops[i], ops[j].id)
    ensures IsPending(ApplyAll(t, ops), Key(ops[j].id, ops[j].deliveries[0].webhook))
  {
    hide *;
    var rest := ops[j + 1..];
    StoredPends(t, ops, c, j);
    RestLeavesIt(t, ops, c, j);
    StaysPending(ApplyAll(t, ops[..j + 1]), rest, Key(ops[j].id, ops[j].deliveries[0].webhook));
    ApplyAllAppends(t, ops[..j + 1], rest);
    assert ops == ops[..j + 1] + rest;
  }

  lemma StoredPends(t: Db, ops: seq<DbOp>, c: int, j: nat)
    requires OnePass(t, ops, c) && j < |ops| && ops[j].Put? && ops[j].deliveries != []
    ensures var a := ApplyAll(t, ops[..j + 1]);
            ForeignKeys(a) && IsPending(a, Key(ops[j].id, ops[j].deliveries[0].webhook))
  {
    assert DistinctWebhooks(ops[j].deliveries) && ops[j].id !in ApplyAll(t, ops[..j]).events;
    hide OnePass, DistinctWebhooks, Apply, ForeignKeys, IsPending, ApplyAll;
    OnePassPrefix(t, ops, j, c);
    PassKeepsKeys(t, ops[..j], c);
    NewRowsPend(ApplyAll(t, ops[..j]), ops[j]);
    OneMoreApplied(t, ops, j);
  }

  lemma RestLeavesIt(t: Db, ops: seq<DbOp>, c: int, j: nat)
    requires OnePass(t, ops, c) && j < |ops| && ops[j].Put? && forall i | j <= i < |ops| :: !IsMark(ops[i], ops[j].id)
    ensures var rest := ops[j + 1..];
            forall i | 0 <= i < |rest| ::
              !IsMark(rest[i], ops[j].id) && (rest[i].Put? ==> DistinctWebhooks(rest[i].deliveries))
  {
    hide DistinctWebhooks, IsMark, ApplyAll;
    var rest := ops[j + 1..];
    assert forall i | 0 <= i < |rest| :: rest[i] in rest && rest[i] == ops[j + 1 + i];
  }

  lemma OneMoreApplied(t: Db, ops: seq<DbOp>, j: nat)
    requires j < |ops|
    ensures ApplyAll(t, ops[..j + 1]) == Apply(ApplyAll(t, ops[..j]), ops[j])
  {
    hide Apply;
    assert ops[..j + 1][..j] == ops[..j];
  }

  lemma RestoredDiffers(t: Db, ops: seq<DbOp>, ms: seq<Mark>, c: int, id: EventId)
    requires OnePass(t, ops, c) && Lists(ms, ops) && Stores(ops, id) && Touches(ops, id)
    requires forall i | 0 <= i < |ops| && ops[i].Put? :: ops[i].deliveries != []
    ensures Prune(ApplyAll(t, ops), c) != Prune(Sequential(t, ops, ms), c)
  {
    TouchedIsThere(t, ops, id, c);
    var j := FirstPut(ops, id);
    AllMarkedBefore(t, ops, id, c, j);
    ConcurrentHasIt(t, ops, c, j);
    MarksAreDone(t, ops, j, id);
    SequentialMarks(t, ops, ms, id, c);
    SamePrunable(Marked(t, ops), Marked(t, ops[..j]), id, c);
    SamePrunable(Sequential(t, ops, ms), Marked(t, ops), id, c);
    var k := Key(id, ops[j].deliveries[0].webhook);
    hide OnePass, Sequential, Marked, ApplyAll, Stores, Touches, SameAt;
    assert Prunable(Sequential(t, ops, ms), k.event, c) && k !in Prune(Sequential(t, ops, ms), c).rows;
    assert !Prunable(ApplyAll(t, ops), k.event, c) && k in Prune(ApplyAll(t, ops), c).rows;
  }

  /** Operations of one pass, in any order, against the sequential pass with the marks in any order: seen from the next
      cleanup they leave the same tables exactly when no event with a mark of the pass is stored during it, and without
      a cleanup in the pass the very same tables. */
  lemma OpsAreSequential(t: Db, ops: seq<DbOp>, ms: seq<Mark>, c: int)
    requires OnePass(t, ops, c) && Lists(ms, ops)
    ensures Unrestored(ops) ==> Prune(ApplyAll(t, ops), c) == Prune(Sequential(t, ops, ms), c)
    ensures (forall i | 0 <= i < |ops| && ops[i].Put? :: ops[i].deliveries != []) ==>
              (Prune(ApplyAll(t, ops), c) == Prune(Sequential(t, ops, ms), c) <==> Unrestored(ops))
    ensures (forall i | 0 <= i < |ops| :: !ops[i].Cut?) ==> ApplyAll(t, ops) == Sequential(t, ops, ms)
  {
    PassKeepsKeys(t, ops, c);
    MarksKeepKeys(ApplyAll(t, Others(ops)), ms);
    if Unrestored(ops) {
      forall id ensures Follows(ApplyAll(t, ops), Sequential(t, ops, ms), id, c) {
        SequentialFollows(t, ops, ms, id, c);
      }
      AgreeingPrunesEqual(ApplyAll(t, ops), Sequential(t, ops, ms), c);
    } else if forall i | 0 <= i < |ops| && ops[i].Put? :: ops[i].deliveries != [] {
      var id :| Stores(ops, id) && Touches(ops, id);
      RestoredDiffers(t, ops, ms, c, id);
    }
    if forall i | 0 <= i < |ops| :: !ops[i].Cut? {
      forall id ensures SameAt(ApplyAll(t, ops), Sequential(t, ops, ms), id) { UncutIsSequential(t, ops, ms, id, c); }
      SameEverywhere(ApplyAll(t, ops), Sequential(t, ops, ms));
    }
  }

  lemma UncutIsSequential(t: Db, ops: seq<DbOp>, ms: seq<Mark>, id: EventId, c: int)
    requires OnePass(t, ops, c) && Lists(ms, ops) && forall i | 0 <= i < |ops| :: !ops[i].Cut?
    ensures SameAt(ApplyAll(t, ops), Sequential(t, ops, ms), id)
  {
    if Touches(ops, id) {
      TouchedIsThere(t, ops, id, c);
      NothingGoes(t, ops, id, c);
      NothingRestored(t, ops, id, c);
    }
    hide OnePass, Lists, Touches, Stores, Sequential, ApplyAll, SameAt;
    SequentialFollows(t, ops, ms, id, c);
  }

  // ---------------------------------------------------------------- the machine's passes

  /** The database operation an action performs, if any. */
  ghost function OpOf(s: System, a: Action): seq<DbOp>
    requires Enabled(s, a)
  {
    match a
    case Ingest(id, e, ds) => if id in s.db.events then [] else [Put(id, e, ds)]
    case WriteDelivered(k, applied) => if applied then [Write(Done(k, Flights(s)[k].stage.at))] else []
    case WriteFailed(k, applied) =>
      var f := Flights(s)[k];
      if applied then [Write(Missed(k, f.stage.error, f.snapshot.attempts + 1, f.stage.next))] else []
    case PruneOld(cutoff) => [Cut(cutoff)]
    case _ => []
  }

  ghost function OpsOf(s: System, acts: seq<Action>): seq<DbOp>
    requires Runs(s, acts)
    decreases |acts|
  {
    if acts == [] then [] else OpOf(s, acts[0]) + OpsOf(Next(s, acts[0]), acts[1..])
  }

  lemma OpIsApplied(s: System, a: Action)
    requires Enabled(s, a)
    ensures |OpOf(s, a)| <= 1
    ensures Next(s, a).db == ApplyAll(s.db, OpOf(s, a))
  {
  }

  lemma {:induction false} OpsAreApplied(s: System, acts: seq<Action>)
    requires Runs(s, acts)
    ensures End(s, acts).db == ApplyAll(s.db, OpsOf(s, acts))
    decreases |acts|
  {
    hide Enabled, Next, OpOf;
    if acts != [] {
      OpIsApplied(s, acts[0]);
      OpsAreApplied(Next(s, acts[0]), acts[1..]);
      ApplyAllAppends(s.db, OpOf(s, acts[0]), OpsOf(Next(s, acts[0]), acts[1..]));
    }
  }

  /** No action of `acts` leaves the pass. */
  ghost predicate WithinPass(acts: seq<Action>) {
    forall i | 0 <= i < |acts| :: !acts[i].Crash? && !acts[i].Finish?
  }

  lemma PassStep(s: System, a: Action)
    requires s.loop.Delivering? && Enabled(s, a) && !a.Crash? && !a.Finish?
    ensures Next(s, a).loop.Delivering?
    ensures forall op | op in OpOf(s, a) && op.Write? ::
            op.mark.key in Flights(s) && op.mark.key !in Flights(Next(s, a))
    ensures forall k | k in Flights(Next(s, a)) :: k in Flights(s)
  {
    hide Selects, IsNextDue;
  }

  /** Every mark hits a key of `keys`, no two the same; what is stored has distinct webhooks. */
  ghost predicate WritesOnce(ops: seq<DbOp>, keys: set<Key>) {
    && (forall i | 0 <= i < |ops| && ops[i].Write? :: ops[i].mark.key in keys)
    && (forall i, j | 0 <= i < j < |ops| && ops[i].Write? && ops[j].Write? :: ops[i].mark.key != ops[j].mark.key)
    && (forall i | 0 <= i < |ops| && ops[i].Put? :: DistinctWebhooks(ops[i].deliveries))
  }

  lemma WritesOnceMore(here: seq<DbOp>, rest: seq<DbOp>, keys: set<Key>, left: set<Key>)
    requires |here| <= 1 && WritesOnce(rest, left) && left <= keys
    requires forall op | op in here && op.Write? :: op.mark.key in keys - left
    requires forall op | op in here && op.Put? :: DistinctWebhooks(op.deliveries)
    ensures WritesOnce(here + rest, keys)
  {
  }

  lemma StoredAreDistinct(s: System, a: Action)
    requires Enabled(s, a) && Recorded(s.db, s.log, s.current)
    ensures forall op | op in OpOf(s, a) && op.Put? :: DistinctWebhooks(op.deliveries)
  {
    hide Selects, IsNextDue, CreateEvent;
    if a.Ingest? { CreateEventIsFirstWriteWins(s.db, a.id, a.event, a.deliveries); }
  }

  /** Within a pass every delivery of the batch is written at most once. */
  lemma {:induction false} PassWrites(s: System, acts: seq<Action>)
    requires Inv(s) && s.loop.Delivering? && Runs(s, acts) && WithinPass(acts)
    ensures WritesOnce(OpsOf(s, acts), Flights(s).Keys)
    decreases |acts|
  {
    if acts != [] {
      var s' := Next(s, acts[0]);
      assert !acts[0].Crash? && !acts[0].Finish?;
      PassStep(s, acts[0]);
      OpIsApplied(s, acts[0]);
      StoredAreDistinct(s, acts[0]);
      StepKeeps(s, acts[0]);
      hide Enabled, Next, OpOf, Inv, WritesOnce, Recorded;
      assert forall i | 0 <= i < |acts[1..]| :: acts[1..][i] == acts[i + 1];
      PassWrites(s', acts[1..]);
      WritesOnceMore(OpOf(s, acts[0]), OpsOf(s', acts[1..]), Flights(s).Keys, Flights(s').Keys);
    }
  }

  lemma PutsAreNewMore(t: Db, here: seq<DbOp>, rest: seq<DbOp>)
    requires |here| <= 1 && PutsAreNew(t, here) && PutsAreNew(ApplyAll(t, here), rest)
    ensures PutsAreNew(t, here + rest)
  {
    var ops := here + rest;
    hide DistinctWebhooks;
    forall i | 0 <= i < |ops| && ops[i].Put?
      ensures DistinctWebhooks(ops[i].deliveries) && ops[i].id !in ApplyAll(t, ops[..i]).events
    {
      if i < |here| {
        assert ops[..i] == here[..i] && ops[i] == here[i];
      } else {
        assert ops[..i] == here + rest[..i - |here|] && ops[i] == rest[i - |here|];
        ApplyAllAppends(t, here, rest[..i - |here|]);
      }
    }
  }

  lemma StepPutsAreNew(s: System, a: Action)
    requires Inv(s) && Enabled(s, a)
    ensures PutsAreNew(s.db, OpOf(s, a))
  {
    StoredAreDistinct(s, a);
    hide Inv, Selects, IsNextDue, DistinctWebhooks, CreateEvent;
  }

  /** The machine stores an event only when it is new. */
  lemma {:induction false} PassStoresNew(s: System, acts: seq<Action>)
    requires Inv(s) && Runs(s, acts)
    ensures PutsAreNew(s.db, OpsOf(s, acts))
    decreases |acts|
  {
    if acts != [] {
      StepKeeps(s, acts[0]);
      StepPutsAreNew(s, acts[0]);
      OpIsApplied(s, acts[0]);
      hide Enabled, Next, OpOf, Inv, PutsAreNew;
      PassStoresNew(Next(s, acts[0]), acts[1..]);
      PutsAreNewMore(s.db, OpOf(s, acts[0]), OpsOf(Next(s, acts[0]), acts[1..]));
    }
  }

  lemma {:induction false} OpsComeFromActions(s: System, acts: seq<Action>)
    requires Runs(s, acts)
    ensures (forall i | 0 <= i < |acts| :: !acts[i].PruneOld?) ==> forall op | op in OpsOf(s, acts) :: !op.Cut?
    ensures (forall i | 0 <= i < |acts| && acts[i].Ingest? :: acts[i].deliveries != []) ==>
              forall op | op in OpsOf(s, acts) && op.Put? :: op.deliveries != []
    decreases |acts|
  {
    if acts != [] {
      OpsComeFromActions(Next(s, acts[0]), acts[1..]);
      assert forall i | 0 <= i < |acts[1..]| :: acts[1..][i] == acts[i + 1];
      StepComesFromAction(s, acts[0]);
      hide Enabled, Next, OpOf;
      assert forall op | op in OpsOf(s, acts) :: op in OpOf(s, acts[0]) || op in OpsOf(Next(s, acts[0]), acts[1..]);
    }
  }

  lemma StepComesFromAction(s: System, a: Action)
    requires Enabled(s, a)
    ensures forall op | op in OpOf(s, a) ::
            (op.Cut? ==> a.PruneOld?) && (op.Put? ==> a.Ingest? && op.deliveries == a.deliveries)
  {
    hide Selects, IsNextDue, CreateEvent;
  }

  /** A delivery pass under any interleaving with ingest and retention, against ingest and retention as they came and
      then the same outcomes one after the other in any order. Seen from the next cleanup the tables agree exactly
      when no event with a mark of the pass is stored during it; without a cleanup in the pass they are the very
      same. */
  lemma PassIsSequential(s: System, acts: seq<Action>, ms: seq<Mark>, c: int)
    requires Inv(s) && s.loop.Delivering? && Runs(s, acts) && WithinPass(acts)
    requires Lists(ms, OpsOf(s, acts)) && CutsUpTo(OpsOf(s, acts), c)
    ensures var ops := OpsOf(s, acts); var db, seqDb := End(s, acts).db, Sequential(s.db, ops, ms);
            && (Unrestored(ops) ==> Prune(db, c) == Prune(seqDb, c))
            && ((forall i | 0 <= i < |acts| && acts[i].Ingest? :: acts[i].deliveries != []) ==>
                  (Prune(db, c) == Prune(seqDb, c) <==> Unrestored(ops)))
            && ((forall i | 0 <= i < |acts| :: !acts[i].PruneOld?) ==> db == seqDb)
  {
    hide *;
    var ops := OpsOf(s, acts);
    OpsAreApplied(s, acts);
    PassIsOnePass(s, acts, c);
    OpsComeFromActions(s, acts);
    OpsAreSequential(s.db, ops, ms, c);
    assert forall i | 0 <= i < |ops| :: ops[i] in ops;
  }

  lemma PassIsOnePass(s: System, acts: seq<Action>, c: int)
    requires Inv(s) && s.loop.Delivering? && Runs(s, acts) && WithinPass(acts) && CutsUpTo(OpsOf(s, acts), c)
    ensures OnePass(s.db, OpsOf(s, acts), c)
  {
    var ops := OpsOf(s, acts);
    PassWrites(s, acts);
    PassStoresNew(s, acts);
    RecordedKeys(s);
    forall i | 0 <= i < |ops| && ops[i].Write? ensures IsPending(s.db, ops[i].mark.key) {
      FlightFacts(s, ops[i].mark.key);
    }
    hide Inv, PutsAreNew, CutsUpTo, Runs;
  }

  // ---------------------------------------------------------------- the failing pass

  /** One old event with one row, due. */
  function OldTables(k: Key, former: Event<int>, p: Bytes, due: int): Db {
    Tables(map[k.event := former], map[k := Row(Pending, 0, due, Some(p), None, None)])
  }

  lemma OneRowLoads(k: Key, former: Event<int>, p: Bytes, due: int, clock: int)
    requires due <= clock
    ensures Selects(OldTables(k, former, p, due), BATCH_SIZE, clock, [PendingDelivery(k, p, 0)])
  {
    var t := OldTables(k, former, p, due);
    assert (set j | j in t.rows && IsDue(t, j, clock)) == {k};
  }

  /** From a start over those tables, the row is loaded, sent and accepted. */
  lemma UntilAccepted(s0: System, k: Key, former: Event<int>, p: Bytes, due: int) returns (before: seq<Action>)
    requires Init(s0) && s0.db == OldTables(k, former, p, due) && due <= s0.clock && k.webhook in s0.endpoints
    ensures Runs(s0, before)
    ensures var s := End(s0, before);
            s.db == s0.db && s.loop.Delivering? && k in Flights(s) && Flights(s)[k].stage.Accepted?
  {
    var batch := [PendingDelivery(k, p, 0)];
    before := [Load(batch), Start(k), Accept(k)];
    OneRowLoads(k, former, p, due, s0.clock);
    hide Selects;
    assert k in Keys(batch) by { assert batch[0].key == k; }
    assert k in s0.current && k in s0.db.rows && k.event in s0.db.events;
    var s1 := Next(s0, Load(batch));
    assert AtStage(s1, k, false) && Active(Flights(s1)) == {};
    var s2 := Next(s1, Start(k));
    assert AtStage(s2, k, true);
    var s3 := Next(s2, Accept(k));
    assert k in Flights(s3) && Flights(s3)[k].stage.Accepted? && s3.db == s0.db;
    hide *;
    ThreeSteps(s0, before, s1, s2, s3);
  }

  lemma ThreeSteps(s0: System, acts: seq<Action>, s1: System, s2: System, s3: System)
    requires |acts| == 3 && Enabled(s0, acts[0]) && s1 == Next(s0, acts[0])
    requires Enabled(s1, acts[1]) && s2 == Next(s1, acts[1]) && Enabled(s2, acts[2]) && s3 == Next(s2, acts[2])
    ensures Runs(s0, acts) && End(s0, acts) == s3
    ensures OpsOf(s0, acts) == OpOf(s0, acts[0]) + (OpOf(s1, acts[1]) + OpOf(s2, acts[2]))
  {
    hide Enabled, Next, OpOf;
    var last := acts[1..][1..];
    assert last[0] == acts[2] && last[1..] == [];
    assert Runs(s3, []) && End(s3, []) == s3 && OpsOf(s3, []) == [];
    assert Runs(s2, last) && End(s2, last) == s3 && OpsOf(s2, last) == OpOf(s2, acts[2]);
    assert acts[1..][0] == acts[1];
    assert Runs(s1, acts[1..]) && End(s1, acts[1..]) == s3 &&
      OpsOf(s1, acts[1..]) == OpOf(s1, acts[1]) + OpOf(s2, acts[2]);
  }

  /** A run in which a delivery's success, a cleanup and the same event again, in this order, leave what no cleanup
      makes equal to the sequential pass: there the pending row keeps the old event, which the new one is then taken
      for. */
  lemma RestoredEventDiffers(k: Key, former: Event<int>, p: Bytes, due: int, clock: int, c: int, again: Event<int>,
      q: Bytes)
    returns (s0: System, before: seq<Action>, acts: seq<Action>, mark: Mark)
    requires former.createdAt < c && due <= clock
    ensures Init(s0) && Runs(s0, before) && Runs(End(s0, before), acts)
    ensures End(s0, before).loop.Delivering? && WithinPass(acts)
    ensures acts == [WriteDelivered(k, true), PruneOld(c), Ingest(k.event, again, [EventDelivery(k.webhook, q)])]
    ensures var s := End(s0, before);
            Lists([mark], OpsOf(s, acts)) &&
              Prune(End(s, acts).db, c) != Prune(Sequential(s.db, OpsOf(s, acts), [mark]), c)
  {
    assert ForeignKeys(OldTables(k, former, p, due));
    hide *;
    s0 := AnyDatabaseStarts(OldTables(k, former, p, due), clock, {k.webhook});
    before := UntilAccepted(s0, k, former, p, due);
    InitHolds(s0);
    RunKeeps(s0, before);
    acts, mark := RestoringPass(End(s0, before), k, former, p, due, c, again, EventDelivery(k.webhook, q));
  }

  lemma RestoringPass(s: System, k: Key, former: Event<int>, p: Bytes, due: int, c: int, again: Event<int>,
      d: EventDelivery)
    returns (acts: seq<Action>, mark: Mark)
    requires Inv(s) && s.loop.Delivering? && s.db == OldTables(k, former, p, due) && former.createdAt < c
    requires k in Flights(s) && Flights(s)[k].stage.Accepted?
    ensures acts == [WriteDelivered(k, true), PruneOld(c), Ingest(k.event, again, [d])]
    ensures Runs(s, acts) && WithinPass(acts) && Lists([mark], OpsOf(s, acts))
    ensures Prune(End(s, acts).db, c) != Prune(Sequential(s.db, OpsOf(s, acts), [mark]), c)
  {
    hide *;
    mark := Done(k, Flights(s)[k].stage.at);
    acts := [WriteDelivered(k, true), PruneOld(c), Ingest(k.event, again, [d])];
    var s1, s2, s3 := RestoringSteps(s, k, former, p, due, c, again, d);
    var ops := [Write(mark), Cut(c), Put(k.event, again, [d])];
    ThreeSteps(s, acts, s1, s2, s3);
    assert OpsOf(s, acts) == ops;
    RestoringOps(k, mark, c, again, d);
    RestoringActs(k, c, again, d);
    PassIsSequential(s, acts, [mark], c);
  }

  lemma RestoringOps(k: Key, mark: Mark, c: int, again: Event<int>, d: EventDelivery)
    requires mark.key == k
    ensures var ops := [Write(mark), Cut(c), Put(k.event, again, [d])];
            Lists([mark], ops) && CutsUpTo(ops, c) && !Unrestored(ops)
  {
    var ops := [Write(mark), Cut(c), Put(k.event, again, [d])];
    assert ops[0] == Write(mark);
    assert IsPut(ops[2], k.event) && IsMark(ops[0], k.event);
    assert Stores(ops, k.event) && Touches(ops, k.event);
  }

  lemma RestoringActs(k: Key, c: int, again: Event<int>, d: EventDelivery)
    ensures var acts := [WriteDelivered(k, true), PruneOld(c), Ingest(k.event, again, [d])];
            WithinPass(acts) && forall i | 0 <= i < |acts| && acts[i].Ingest? :: acts[i].deliveries != []
  {
  }

  lemma RestoringSteps(s: System, k: Key, former: Event<int>, p: Bytes, due: int, c: int, again: Event<int>,
      d: EventDelivery)
    returns (s1: System, s2: System, s3: System)
    requires s.db == OldTables(k, former, p, due) && k in Flights(s) && Flights(s)[k].stage.Accepted?
    requires former.createdAt < c
    ensures var wrote, cut, stored := WriteDelivered(k, true), PruneOld(c), Ingest(k.event, again, [d]);
            && Enabled(s, wrote) && s1 == Next(s, wrote) && Enabled(s1, cut) && s2 == Next(s1, cut)
            && Enabled(s2, stored) && s3 == Next(s2, stored)
            && OpOf(s, wrote) == [Write(Done(k, Flights(s)[k].stage.at))] && OpOf(s1, cut) == [Cut(c)]
            && OpOf(s2, stored) == [Put(k.event, again, [d])]
  {
    s1 := Next(s, WriteDelivered(k, true));
    s2 := Next(s1, PruneOld(c));
    assert s1.db.events == map[k.event := former] && s1.db.rows.Keys == {k} && s1.db.rows[k].status == Delivered;
    assert Prunable(s1.db, k.event, c);
    assert s2.db == Tables(map[], map[]);
    assert DistinctWebhooks([d]);
    CreateEventCommits(s2.db, k.event, again, [d]);
    s3 := Next(s2, Ingest(k.event, again, [d]));
  }
}
