/** How far one endpoint's slowness reaches: sixteen slots and fifty rows are shared by all, in the order of the
    batch. */
module Slots {
  import opened Wrappers
  import opened Schema
  import opened Outbox
  import opened OutboxInvariant
  import opened Delivery
  import opened Confluence
  import Store

  // ---------------------------------------------------------------- the order of a batch

  /** Every delivery has its own place, and those started come before those that wait. */
  ghost predicate InOrder(flights: map<Key, Flight>) {
    && (forall j, k | j in flights && k in flights && j != k :: flights[j].position != flights[k].position)
    && (forall j, k | j in flights && k in flights && !flights[j].stage.Queued? && flights[k].stage.Queued? ::
          flights[j].position < flights[k].position)
  }

  /** What a pass leaves of the deliveries it has: fewer, at their places, none queued again. */
  ghost predicate Remains(flights: map<Key, Flight>, flights': map<Key, Flight>) {
    forall k | k in flights' ::
      && k in flights && flights'[k].position == flights[k].position
      && (flights'[k].stage.Queued? ==> flights[k].stage.Queued?)
  }

  lemma LoadInOrder(s: System, batch: seq<PendingDelivery>)
    requires Inv(s) && Enabled(s, Load(batch))
    ensures var s1 := Next(s, Load(batch)); var flights := Flights(s1);
            && s1.loop.Delivering? && s1.endpoints == s.endpoints
            && flights.Keys == Keys(batch) && InOrder(flights)
            && forall k | k in flights :: flights[k].stage.Queued? && flights[k].position == Position(batch, k)
  {
    hide Inv, Selects, Position, Snapshot, Keys;
    LoadKeeps(s, batch);
    forall j, k | j in Keys(batch) && k in Keys(batch) && j != k ensures Position(batch, j) != Position(batch, k) {}
  }

  /** Leaving the queue from its head, or moving on outside it, keeps the order. */
  lemma StageInOrder(flights: map<Key, Flight>, k: Key, stage: Stage)
    requires InOrder(flights) && k in flights && !stage.Queued?
    requires flights[k].stage.Queued? ==>
               forall j | j in flights && flights[j].stage.Queued? :: flights[k].position <= flights[j].position
    ensures var flights' := flights[k := flights[k].(stage := stage)];
            InOrder(flights') && Remains(flights, flights') && flights'.Keys == flights.Keys
  {
  }

  /** What a start and an answer do to the deliveries. */
  lemma StageOf(s: System, a: Action) returns (stage: Stage)
    requires s.loop.Delivering? && Enabled(s, a) && (a.Start? || a.Accept? || a.Refuse?)
    ensures a.key in Flights(s) && !stage.Queued? && Next(s, a).endpoints == s.endpoints
    ensures Next(s, a).loop == Delivering(Flights(s)[a.key := Flights(s)[a.key].(stage := stage)])
    ensures a.Start? && a.key.webhook in s.endpoints ==> stage == Sending
  {
    hide Backoff;
    match a
    case Start(k) =>
      stage := if k.webhook in s.endpoints then Sending else Retry(s, Flights(s)[k], "webhook is not configured");
    case Accept(_) => stage := Accepted(s.clock);
    case Refuse(k, error) => stage := Retry(s, Flights(s)[k], error);
  }

  lemma StageMoves(s: System, a: Action)
    requires s.loop.Delivering? && Enabled(s, a) && (a.Start? || a.Accept? || a.Refuse?) && InOrder(Flights(s))
    ensures Next(s, a).loop.Delivering? && InOrder(Flights(Next(s, a))) && Remains(Flights(s), Flights(Next(s, a)))
    ensures Flights(Next(s, a)).Keys == Flights(s).Keys
  {
    var stage := StageOf(s, a);
    hide Next, InOrder, Remains;
    StageInOrder(Flights(s), a.key, stage);
  }

  lemma WriteMoves(s: System, a: Action)
    requires s.loop.Delivering? && Enabled(s, a) && (a.WriteDelivered? || a.WriteFailed?) && InOrder(Flights(s))
    ensures Next(s, a).loop.Delivering? && InOrder(Flights(Next(s, a))) && Remains(Flights(s), Flights(Next(s, a)))
    ensures Flights(Next(s, a)) == Flights(s) - {a.key} && a.key in Flights(s) && !Flights(s)[a.key].stage.Queued?
  {
    WriteLands(s, a);
    hide Enabled, Next;
    LandedInOrder(Flights(s), a.key);
  }

  lemma WriteLands(s: System, a: Action)
    requires s.loop.Delivering? && Enabled(s, a) && (a.WriteDelivered? || a.WriteFailed?)
    ensures a.key in Flights(s) && !Flights(s)[a.key].stage.Queued?
    ensures Next(s, a).loop == Delivering(Flights(s) - {a.key})
  {
  }

  lemma LandedInOrder(flights: map<Key, Flight>, k: Key)
    requires InOrder(flights)
    ensures InOrder(flights - {k}) && Remains(flights, flights - {k})
  {
  }

  lemma OtherMoves(s: System, a: Action)
    requires s.loop.Delivering? && Enabled(s, a) && (a.Tick? || a.Ingest? || a.Announce? || a.PruneOld?)
    ensures Next(s, a).loop == s.loop
  {
    hide CreateEvent, Prune;
  }

  ghost predicate Writes(a: Action) { a.WriteDelivered? || a.WriteFailed? }

  lemma PassMoves(s: System, a: Action)
    requires s.loop.Delivering? && Enabled(s, a) && !a.Crash? && !a.Finish? && InOrder(Flights(s))
    ensures Next(s, a).loop.Delivering? && InOrder(Flights(Next(s, a))) && Remains(Flights(s), Flights(Next(s, a)))
    ensures Writes(a) ==>
              a.key in Flights(s) && !Flights(s)[a.key].stage.Queued? &&
                Flights(Next(s, a)).Keys == Flights(s).Keys - {a.key}
    ensures !Writes(a) ==> Flights(Next(s, a)).Keys == Flights(s).Keys
  {
    InPass(s, a);
    hide Enabled, Next, InOrder;
    if a.Start? || a.Accept? || a.Refuse? {
      StageMoves(s, a);
    } else if Writes(a) {
      WriteMoves(s, a);
    } else {
      OtherMoves(s, a);
    }
  }

  lemma InPass(s: System, a: Action)
    requires s.loop.Delivering? && Enabled(s, a) && !a.Crash? && !a.Finish?
    ensures a.Tick? || a.Ingest? || a.Announce? || a.PruneOld? || a.Start? || a.Accept? || a.Refuse? || Writes(a)
  {
    hide CreateEvent;
  }

  lemma {:induction false} RunMoves(s: System, acts: seq<Action>)
    requires s.loop.Delivering? && Runs(s, acts) && WithinPass(acts) && InOrder(Flights(s))
    ensures End(s, acts).loop.Delivering? && InOrder(Flights(End(s, acts)))
    ensures Remains(Flights(s), Flights(End(s, acts)))
    decreases |acts|
  {
    if acts != [] {
      assert !acts[0].Crash? && !acts[0].Finish?;
      assert forall i | 0 <= i < |acts[1..]| :: acts[1..][i] == acts[i + 1];
      hide Enabled, Next, Flights, InOrder;
      PassMoves(s, acts[0]);
      RunMoves(Next(s, acts[0]), acts[1..]);
    }
  }

  // ---------------------------------------------------------------- the bound

  /** How many deliveries of the batch come to their end. */
  ghost function Landings(acts: seq<Action>): nat {
    if acts == [] then 0 else (if Writes(acts[0]) then 1 else 0) + Landings(acts[1..])
  }

  /** The deliveries before `k` in the batch. */
  function Preceding(flights: map<Key, Flight>, k: Key): set<Key>
    requires k in flights
  {
    set j | j in flights && flights[j].position < flights[k].position
  }

  lemma PrecedingStep(s: System, a: Action, k: Key)
    requires s.loop.Delivering? && Enabled(s, a) && !a.Crash? && !a.Finish? && InOrder(Flights(s))
    requires AtStage(Next(s, a), k, false)
    ensures AtStage(s, k, false)
    ensures |Preceding(Flights(Next(s, a)), k)| == |Preceding(Flights(s), k)| - if Writes(a) then 1 else 0
  {
    PassMoves(s, a);
    hide Enabled, Next;
    var f, f' := Flights(s), Flights(Next(s, a));
    hide Flights;
    if Writes(a) {
      assert f[a.key].position < f[k].position;
      assert Preceding(f', k) == Preceding(f, k) - {a.key};
    } else {
      assert Preceding(f', k) == Preceding(f, k);
    }
  }

  lemma {:induction false} PrecedingShrinks(s: System, acts: seq<Action>, k: Key)
    requires s.loop.Delivering? && Runs(s, acts) && WithinPass(acts) && InOrder(Flights(s))
    requires AtStage(End(s, acts), k, false)
    ensures AtStage(s, k, false)
    ensures |Preceding(Flights(End(s, acts)), k)| == |Preceding(Flights(s), k)| - Landings(acts)
    decreases |acts|
  {
    if acts != [] {
      assert !acts[0].Crash? && !acts[0].Finish?;
      assert forall i | 0 <= i < |acts[1..]| :: acts[1..][i] == acts[i + 1];
      PassMoves(s, acts[0]);
      hide Enabled, Next, InOrder, Preceding, Remains;
      PrecedingShrinks(Next(s, acts[0]), acts[1..], k);
      PrecedingStep(s, acts[0], k);
    }
  }

  // ---------------------------------------------------------------- taking slots in order

  function Queued(flights: map<Key, Flight>): set<Key> { set k | k in flights && flights[k].stage.Queued? }

  lemma {:induction false} FirstPlace(flights: map<Key, Flight>, ks: set<Key>) returns (q: Key)
    requires ks != {} && ks <= flights.Keys
    ensures q in ks && forall k | k in ks :: flights[q].position <= flights[k].position
    decreases |ks|
  {
    var any :| any in ks;
    q := any;
    var others := ks - {any};
    assert forall k | k in ks :: k == any || k in others;
    if others != {} {
      var p := FirstPlace(flights, others);
      if flights[p].position < flights[any].position { q := p; }
    }
  }

  lemma FirstInLine(s: System, k: Key) returns (q: Key)
    requires AtStage(s, k, false)
    ensures IsNext(s, q) && Flights(s)[q].position <= Flights(s)[k].position
  {
    q := FirstPlace(Flights(s), Queued(Flights(s)));
  }

  lemma StartOne(s: System, q: Key)
    requires s.loop.Delivering? && IsNext(s, q) && |Active(Flights(s))| < CONCURRENCY && InOrder(Flights(s))
    ensures Enabled(s, Start(q))
    ensures var s' := Next(s, Start(q)); var f, f' := Flights(s), Flights(s');
            && s'.loop.Delivering? && s'.endpoints == s.endpoints && InOrder(f') && f'.Keys == f.Keys
            && Queued(f') == Queued(f) - {q} && Active(f') == Active(f) + {q}
            && (forall k | k in f :: f'[k].position == f[k].position && (k != q ==> f'[k] == f[k]))
            && (q.webhook in s.endpoints ==> f'[q].stage.Sending?)
  {
    var stage := StageOf(s, Start(q));
    StageInOrder(Flights(s), q, stage);
    hide Next, InOrder, Remains;
  }

  lemma OneFewer(a: set<Key>, k: Key)
    requires k in a
    ensures |a - {k}| == |a| - 1
  {
  }

  lemma ActivePrecede(flights: map<Key, Flight>, k: Key)
    requires InOrder(flights) && k in flights && flights[k].stage.Queued?
    ensures Active(flights) <= Preceding(flights, k)
  {
  }

  lemma SamePlaces(flights: map<Key, Flight>, flights': map<Key, Flight>, k: Key)
    requires flights'.Keys == flights.Keys && k in flights
    requires forall j | j in flights :: flights'[j].position == flights[j].position
    ensures Preceding(flights', k) == Preceding(flights, k)
  {
  }

  /** With at most fifteen before it, a queued delivery is started by nothing but starts. */
  lemma {:induction false} StartUpTo(s: System, k: Key) returns (starts: seq<Action>)
    requires s.loop.Delivering? && InOrder(Flights(s)) && AtStage(s, k, false)
    requires |Preceding(Flights(s), k)| < CONCURRENCY
    ensures Runs(s, starts) && starts != [] && starts[|starts| - 1] == Start(k)
    ensures forall i | 0 <= i < |starts| :: starts[i].Start?
    decreases |Queued(Flights(s))|
  {
    hide Enabled, Next, InOrder, Preceding, Flights, Active;
    var q := FirstInLine(s, k);
    ActivePrecede(Flights(s), k);
    SubsetSize(Active(Flights(s)), Preceding(Flights(s), k));
    StartOne(s, q);
    var s' := Next(s, Start(q));
    assert q in Queued(Flights(s));
    OneFewer(Queued(Flights(s)), q);
    if q == k {
      starts := [Start(k)];
      assert starts[1..] == [] && Runs(s', []);
    } else {
      SamePlaces(Flights(s), Flights(s'), k);
      var rest := StartUpTo(s', k);
      starts := [Start(q)] + rest;
      assert starts[0] == Start(q) && starts[1..] == rest;
    }
  }

  lemma PositionIsPlace(batch: seq<PendingDelivery>, i: nat)
    requires i < |batch| && forall j, k | 0 <= j < k < |batch| :: batch[j].key != batch[k].key
    ensures batch[i].key in Keys(batch) && Position(batch, batch[i].key) == i
  {
    assert batch[i].key in Keys(batch);
    hide Keys;
    var j := Position(batch, batch[i].key);
    assert i < j || j < i || i == j;
  }

  /** The keys at the first `p` places. */
  function Front(batch: seq<PendingDelivery>, p: nat): set<Key> { set k | k in Keys(batch) && Position(batch, k) < p }

  lemma FrontKeys(batch: seq<PendingDelivery>, p: nat)
    requires p <= |batch| && forall i, j | 0 <= i < j < |batch| :: batch[i].key != batch[j].key
    ensures |Front(batch, p)| == p
  {
    hide Position;
    var front := batch[..p];
    KeysCount(front);
    forall k ensures k in Keys(front) <==> k in Keys(batch) && Position(batch, k) < p {
      if k in Keys(front) {
        var i :| 0 <= i < p && front[i].key == k;
        PositionIsPlace(batch, i);
      }
      if k in Keys(batch) && Position(batch, k) < p {
        assert front[Position(batch, k)].key == k;
      }
    }
    hide Keys;
    assert Keys(front) == Front(batch, p);
  }

  /** As many come before as its place in the batch says. */
  lemma LoadedPreceding(s: System, batch: seq<PendingDelivery>, k: Key)
    requires Inv(s) && Enabled(s, Load(batch)) && k in Keys(batch)
    ensures var flights := Flights(Next(s, Load(batch)));
            k in flights && |Preceding(flights, k)| == Position(batch, k)
  {
    LoadInOrder(s, batch);
    SelectedDiffer(s.db, s.clock, batch);
    hide Inv, Enabled, Next, Flights, InOrder, Position, Keys;
    FrontKeys(batch, Position(batch, k));
    assert Preceding(Flights(Next(s, Load(batch))), k) == Front(batch, Position(batch, k));
  }

  /** The delivery at place `n` of its batch, counted from zero, waits for at most `n - 15` landings: after them starts
      alone, each taking a free slot, reach it. */
  lemma QueuedStarts(s: System, batch: seq<PendingDelivery>, acts: seq<Action>, k: Key) returns (starts: seq<Action>)
    requires Inv(s) && Enabled(s, Load(batch)) && k in Keys(batch)
    requires var s1 := Next(s, Load(batch)); Runs(s1, acts) && WithinPass(acts) && AtStage(End(s1, acts), k, false)
    requires Landings(acts) > Position(batch, k) - 16
    ensures var s2 := End(Next(s, Load(batch)), acts);
            Runs(s2, starts) && starts != [] && starts[|starts| - 1] == Start(k)
    ensures forall i | 0 <= i < |starts| :: starts[i].Start?
  {
    LoadInOrder(s, batch);
    LoadedPreceding(s, batch, k);
    var s1 := Next(s, Load(batch));
    hide Inv, Enabled, Next, Flights, InOrder, Preceding, Runs, WithinPass, Position, Keys;
    PrecedingShrinks(s1, acts, k);
    RunMoves(s1, acts);
    starts := StartUpTo(End(s1, acts), k);
  }

  // ---------------------------------------------------------------- one endpoint in every slot

  lemma {:induction false} RunsAppend(s: System, a: seq<Action>, b: seq<Action>)
    requires Runs(s, a) && Runs(End(s, a), b)
    ensures Runs(s, a + b) && End(s, a + b) == End(End(s, a), b)
    decreases |a|
  {
    hide Enabled, Next;
    if a == [] {
      assert a + b == b;
    } else {
      assert (a + b)[0] == a[0] && (a + b)[1..] == a[1..] + b;
      RunsAppend(Next(s, a[0]), a[1..], b);
    }
  }

  /** The next delivery taken through to its end. */
  lemma PassOne(s: System, q: Key) returns (acts: seq<Action>)
    requires s.loop.Delivering? && IsNext(s, q) && |Active(Flights(s))| < CONCURRENCY
    ensures Runs(s, acts) && WithinPass(acts)
    ensures End(s, acts).loop == Delivering(Flights(s) - {q}) && End(s, acts).endpoints == s.endpoints
  {
    var s1 := Next(s, Start(q));
    hide Backoff, MarkAnswered;
    if q.webhook in s.endpoints {
      var s2 := Next(s1, Accept(q));
      var s3 := Next(s2, WriteDelivered(q, false));
      acts := [Start(q), Accept(q), WriteDelivered(q, false)];
      assert Flights(s3) == Flights(s) - {q};
      ThreeSteps(s, acts, s1, s2, s3);
    } else {
      var s2 := Next(s1, WriteFailed(q, false));
      acts := [Start(q), WriteFailed(q, false)];
      assert Flights(s2) == Flights(s) - {q};
      assert acts[1..] == [WriteFailed(q, false)] && acts[1..][1..] == [];
      assert Runs(s2, []) && End(s2, []) == s2;
      assert Runs(s1, acts[1..]) && End(s1, acts[1..]) == s2;
    }
  }

  /** The webhook's deliveries before `r`. */
  function SlowAhead(flights: map<Key, Flight>, slow: Webhook, r: Key): set<Key>
    requires r in flights
  {
    set k | k in flights && k.webhook == slow && flights[k].position < flights[r].position
  }

  /** Every slot taken by a request to `slow`, and `r` waiting. */
  ghost predicate HeldUp(s: System, slow: Webhook, r: Key) {
    && AtStage(s, r, false) && |Active(Flights(s))| == CONCURRENCY
    && forall k | k in Active(Flights(s)) :: k.webhook == slow && Flights(s)[k].stage.Sending?
  }

  ghost predicate OnlySlow(s: System, slow: Webhook) {
    forall k | k in Active(Flights(s)) :: k.webhook == slow && Flights(s)[k].stage.Sending?
  }

  lemma NextIsAhead(s: System, slow: Webhook, r: Key) returns (q: Key)
    requires AtStage(s, r, false) && |Active(Flights(s))| < CONCURRENCY <= |SlowAhead(Flights(s), slow, r)|
    ensures IsNext(s, q) && Flights(s)[q].position < Flights(s)[r].position
  {
    var f := Flights(s);
    if SlowAhead(f, slow, r) <= Active(f) { SubsetSize(SlowAhead(f, slow, r), Active(f)); }
    var j :| j in SlowAhead(f, slow, r) && j !in Active(f);
    q := FirstInLine(s, j);
  }

  /** Taking the others through and leaving the slow ones hanging fills the slots, if enough slow ones are ahead. */
  lemma {:induction false} FillWithSlow(s: System, slow: Webhook, r: Key) returns (acts: seq<Action>)
    requires s.loop.Delivering? && InOrder(Flights(s)) && slow in s.endpoints && r.webhook != slow
    requires AtStage(s, r, false)
    requires OnlySlow(s, slow) && |Active(Flights(s))| <= CONCURRENCY <= |SlowAhead(Flights(s), slow, r)|
    ensures Runs(s, acts) && WithinPass(acts) && HeldUp(End(s, acts), slow, r)
    decreases |Queued(Flights(s))|
  {
    if |Active(Flights(s))| == CONCURRENCY {
      acts := [];
    } else {
      var q := NextIsAhead(s, slow, r);
      OneFewer(Queued(Flights(s)), q);
      var first := FirstMove(s, slow, r, q);
      var s' := End(s, first);
      hide InOrder, SlowAhead, Active, Flights, Queued, OnlySlow, HeldUp, AtStage, Runs;
      var rest := FillWithSlow(s', slow, r);
      RunsAppend(s, first, rest);
      acts := first + rest;
    }
  }

  /** One more of the queue: started if it is slow, taken through if not. */
  lemma FirstMove(s: System, slow: Webhook, r: Key, q: Key) returns (acts: seq<Action>)
    requires s.loop.Delivering? && InOrder(Flights(s)) && slow in s.endpoints && r.webhook != slow
    requires AtStage(s, r, false)
    requires OnlySlow(s, slow) && IsNext(s, q) && q != r && |Active(Flights(s))| < CONCURRENCY
    ensures Runs(s, acts) && WithinPass(acts)
    ensures var s' := End(s, acts); var f, f' := Flights(s), Flights(s');
            && s'.loop.Delivering? && InOrder(f') && s'.endpoints == s.endpoints && AtStage(s', r, false) &&
                 OnlySlow(s', slow)
            && Queued(f') == Queued(f) - {q} && |Active(f')| <= |Active(f)| + 1 &&
                 SlowAhead(f', slow, r) == SlowAhead(f, slow, r)
  {
    if q.webhook == slow {
      hide Enabled, Next, InOrder, IsNext;
      StartOne(s, q);
      acts := [Start(q)];
      var s' := Next(s, Start(q));
      assert acts[1..] == [] && Runs(s', []) && End(s', []) == s';
      StartedMoves(s, s', slow, r, q);
    } else {
      assert q in Flights(s) && Flights(s)[q].stage.Queued?;
      hide Runs, End, IsNext, InOrder, OnlySlow, SlowAhead, Active, Queued, AtStage, WithinPass;
      acts := PassOne(s, q);
      assert Flights(End(s, acts)) == Flights(s) - {q};
      LandedLeaves(s, End(s, acts), slow, r, q);
    }
  }

  lemma StartedMoves(s: System, s': System, slow: Webhook, r: Key, q: Key)
    requires AtStage(s, r, false) && OnlySlow(s, slow) && q in Flights(s) && q != r && q.webhook == slow
    requires var f, f' := Flights(s), Flights(s');
             && f'.Keys == f.Keys && Active(f') == Active(f) + {q} && f'[q].stage.Sending?
             && forall k | k in f :: f'[k].position == f[k].position && (k != q ==> f'[k] == f[k])
    ensures var f, f' := Flights(s), Flights(s');
            && AtStage(s', r, false) && OnlySlow(s', slow) && |Active(f')| <= |Active(f)| + 1
            && SlowAhead(f', slow, r) == SlowAhead(f, slow, r)
  {
    var a := Active(Flights(s));
    assert |a + {q}| <= |a| + 1 by { if q in a { assert a + {q} == a; } }
  }

  lemma LandedLeaves(s: System, s': System, slow: Webhook, r: Key, q: Key)
    requires InOrder(Flights(s)) && r.webhook != slow && AtStage(s, r, false) && OnlySlow(s, slow)
    requires q in Flights(s) && Flights(s)[q].stage.Queued? && q != r && q.webhook != slow
    requires Flights(s') == Flights(s) - {q}
    ensures var f, f' := Flights(s), Flights(s');
            && InOrder(f') && AtStage(s', r, false) && OnlySlow(s', slow)
            && Queued(f') == Queued(f) - {q} && |Active(f')| <= |Active(f)| + 1 &&
                 SlowAhead(f', slow, r) == SlowAhead(f, slow, r)
  {
    assert Active(Flights(s')) == Active(Flights(s));
  }

  /** The rows of `slow` that stand before `r` in the batch. */
  function SlowBefore(batch: seq<PendingDelivery>, slow: Webhook, r: Key): set<Key>
    requires r in Keys(batch)
  {
    set k | k in Keys(batch) && k.webhook == slow && Position(batch, k) < Position(batch, r)
  }

  /** One slow endpoint can hold up the others, exactly so: from a freshly loaded batch there is a run of the pass in
      which it has every slot while another's delivery waits, if and only if at least sixteen of its rows stand before
      that delivery in the batch. */
  lemma HeldUpExactly(s: System, batch: seq<PendingDelivery>, slow: Webhook, r: Key)
    requires Inv(s) && Enabled(s, Load(batch)) && slow in s.endpoints && r in Keys(batch) && r.webhook != slow
    ensures var s1 := Next(s, Load(batch));
            (exists acts :: Runs(s1, acts) && WithinPass(acts) && HeldUp(End(s1, acts), slow, r))
            <==> |SlowBefore(batch, slow, r)| >= 16
  {
    LoadInOrder(s, batch);
    var s1 := Next(s, Load(batch));
    hide Inv, Enabled, Next, Position, InOrder;
    assert SlowAhead(Flights(s1), slow, r) == SlowBefore(batch, slow, r);
    assert Active(Flights(s1)) == {};
    if |SlowBefore(batch, slow, r)| >= CONCURRENCY {
      var acts := FillWithSlow(s1, slow, r);
    }
    if acts :| Runs(s1, acts) && WithinPass(acts) && HeldUp(End(s1, acts), slow, r) {
      RunMoves(s1, acts);
      ActiveAreAhead(s1, End(s1, acts), slow, r);
      SubsetSize(Active(Flights(End(s1, acts))), SlowAhead(Flights(s1), slow, r));
    }
  }

  lemma ActiveAreAhead(s: System, s': System, slow: Webhook, r: Key)
    requires InOrder(Flights(s')) && Remains(Flights(s), Flights(s')) && HeldUp(s', slow, r)
    ensures r in Flights(s) && Active(Flights(s')) <= SlowAhead(Flights(s), slow, r)
  {
  }

  // ---------------------------------------------------------------- one endpoint in the batch

  /** The first rows of a set, up to the limit. */
  lemma FirstRows(t: Db, due: set<Key>, limit: nat) returns (batch: seq<PendingDelivery>, remaining: set<Key>)
    requires forall k | k in due :: k in t.rows && k.event in t.events
    ensures Store.Chosen(t, due, remaining, batch) && (|batch| == limit || (remaining == {} && |batch| <= limit))
  {
    remaining := due;
    batch := [];
    while |batch| < limit && remaining != {}
      invariant remaining <= due && |batch| <= limit
      invariant Store.Chosen(t, due, remaining, batch)
    {
      var k := FirstExists(t, remaining);
      Store.ChooseNext(t, due, remaining, batch, k);
      batch := batch + [Snapshot(t, k)];
      remaining := remaining - {k};
    }
  }

  function DueRows(t: Db, now: int): set<Key> { set k | k in t.rows && IsDue(t, k, now) }

  /** The query always has an answer. */
  lemma BatchExists(t: Db, limit: nat, now: int) returns (batch: seq<PendingDelivery>)
    requires ForeignKeys(t)
    ensures Selects(t, limit, now, batch)
  {
    var remaining;
    batch, remaining := FirstRows(t, DueRows(t, now), limit);
    Store.ChosenSelects(t, limit, now, remaining, batch);
  }

  /** The other due rows that do not come after `r`. */
  ghost function Rivals(t: Db, now: int, r: Key): set<Key>
    requires r in t.rows
  {
    set k | k in DueRows(t, now) && k != r && !Before(t, r, k)
  }

  /** A batch without `r` is full of rivals. */
  lemma WithoutIt(t: Db, now: int, r: Key, batch: seq<PendingDelivery>)
    requires Selects(t, BATCH_SIZE, now, batch) && IsDue(t, r, now) && r !in Keys(batch)
    ensures |Rivals(t, now, r)| >= BATCH_SIZE
  {
    KeysCount(batch);
    hide Before, PayloadOf;
    SubsetSize(Keys(batch), DueRows(t, now) - {r});
    assert Keys(batch) <= Rivals(t, now, r);
    SubsetSize(Keys(batch), Rivals(t, now, r));
  }

  /** Fifty rivals make a batch without `r`. */
  lemma AnswerWithoutIt(t: Db, now: int, r: Key) returns (batch: seq<PendingDelivery>)
    requires ForeignKeys(t) && IsDue(t, r, now) && |Rivals(t, now, r)| >= BATCH_SIZE
    ensures Selects(t, BATCH_SIZE, now, batch) && r !in Keys(batch)
  {
    var due := DueRows(t, now) - {r};
    var remaining;
    batch, remaining := FirstRows(t, due, BATCH_SIZE);
    SubsetSize(Rivals(t, now, r), due);
    ChosenAreRivals(t, now, r, batch, remaining);
    ChosenKeys(t, due, remaining, batch);
    SubsetSize(due, DueRows(t, now));
    SelectsBy(t, now, r, batch, remaining);
  }

  lemma SelectsBy(t: Db, now: int, r: Key, batch: seq<PendingDelivery>, remaining: set<Key>)
    requires |batch| == BATCH_SIZE <= |DueRows(t, now)| && Keys(batch) == DueRows(t, now) - {r} - remaining
    requires Store.Chosen(t, DueRows(t, now) - {r}, remaining, batch) && r in t.rows
    requires forall i | 0 <= i < |batch| :: batch[i].key in t.rows && !Before(t, r, batch[i].key)
    ensures Selects(t, BATCH_SIZE, now, batch)
  {
    ChosenShape(t, DueRows(t, now) - {r}, remaining, batch);
    hide Before, PayloadOf, Store.Chosen, Snapshot, Keys;
    forall k, i: nat | IsDue(t, k, now) && (forall j | 0 <= j < |batch| :: batch[j].key != k) && i < |batch|
      ensures !Before(t, k, batch[i].key)
    {
      Outsider(t, now, r, batch, remaining, k, i);
    }
  }

  lemma Outsider(t: Db, now: int, r: Key, batch: seq<PendingDelivery>, remaining: set<Key>, k: Key, i: nat)
    requires Keys(batch) == DueRows(t, now) - {r} - remaining
    requires Store.Chosen(t, DueRows(t, now) - {r}, remaining, batch)
    requires r in t.rows && forall i | 0 <= i < |batch| :: batch[i].key in t.rows && !Before(t, r, batch[i].key)
    requires IsDue(t, k, now) && (forall j | 0 <= j < |batch| :: batch[j].key != k) && i < |batch|
    ensures !Before(t, k, batch[i].key)
  {
    hide Before, PayloadOf, Snapshot;
    assert k !in Keys(batch);
    assert k != r ==> k in remaining;
  }

  lemma ChosenShape(t: Db, due: set<Key>, remaining: set<Key>, batch: seq<PendingDelivery>)
    requires Store.Chosen(t, due, remaining, batch)
    ensures forall i | 0 <= i < |batch| ::
            batch[i].key in due && batch[i].key in t.rows && batch[i].key.event in t.events
    ensures forall i | 0 <= i < |batch| :: batch[i] == Snapshot(t, batch[i].key)
    ensures forall i, j | 0 <= i < j < |batch| :: batch[i].key != batch[j].key && !Before(t, batch[j].key, batch[i].key)
  {
    hide Before, PayloadOf;
  }

  lemma ChosenKeys(t: Db, due: set<Key>, remaining: set<Key>, batch: seq<PendingDelivery>)
    requires Store.Chosen(t, due, remaining, batch)
    ensures Keys(batch) == due - remaining && |Keys(batch)| == |batch|
  {
    hide Before, PayloadOf;
    KeysCount(batch);
  }

  lemma ChosenAreRivals(t: Db, now: int, r: Key, batch: seq<PendingDelivery>, remaining: set<Key>)
    requires ForeignKeys(t) && IsDue(t, r, now) && |Rivals(t, now, r)| >= BATCH_SIZE == |batch|
    requires Store.Chosen(t, DueRows(t, now) - {r}, remaining, batch)
    ensures forall i | 0 <= i < |batch| :: batch[i].key in t.rows && !Before(t, r, batch[i].key)
  {
    ChosenKeys(t, DueRows(t, now) - {r}, remaining, batch);
    hide Before, PayloadOf;
    forall i | 0 <= i < |batch| ensures !Before(t, r, batch[i].key) {
      var b := batch[i].key;
      assert b in Keys(batch);
      if Before(t, r, b) {
        if Rivals(t, now, r) <= Keys(batch) - {b} { SubsetSize(Rivals(t, now, r), Keys(batch) - {b}); }
        var a :| a in Rivals(t, now, r) && a !in Keys(batch);
        assert a in remaining;
        BeforeIsStrictOrder(t, r, a, b);
        assert false;
      }
    }
  }

  /** Its rows can also take the batch, exactly so: every answer of the query holds a due row if and only if fewer
      than fifty other due rows come before it or tie with it. */
  lemma InEveryBatchExactly(t: Db, now: int, r: Key)
    requires ForeignKeys(t) && IsDue(t, r, now)
    ensures (forall batch | Selects(t, BATCH_SIZE, now, batch) :: r in Keys(batch)) <==> |Rivals(t, now, r)| < 50
  {
    hide Selects, Rivals, Keys;
    if |Rivals(t, now, r)| < BATCH_SIZE {
      forall batch | Selects(t, BATCH_SIZE, now, batch) ensures r in Keys(batch) {
        if r !in Keys(batch) { WithoutIt(t, now, r, batch); }
      }
    } else {
      var batch := AnswerWithoutIt(t, now, r);
    }
  }

  // ---------------------------------------------------------------- such a run

  lemma EarlierRowsStandBefore(t: Db, now: int, batch: seq<PendingDelivery>, k: Key, r: Key)
    requires Selects(t, BATCH_SIZE, now, batch) && k in Keys(batch) && r in Keys(batch) && k in t.rows && r in t.rows
    requires Before(t, k, r)
    ensures Position(batch, k) < Position(batch, r)
  {
    BeforeIsStrictOrder(t, k, r, k);
    hide Before, PayloadOf, Keys, Position;
    var i, j := Position(batch, k), Position(batch, r);
    assert batch[i].key == k && batch[j].key == r;
  }

  lemma AllInBatch(t: Db, now: int, batch: seq<PendingDelivery>, k: Key)
    requires Selects(t, BATCH_SIZE, now, batch) && |DueRows(t, now)| <= BATCH_SIZE && IsDue(t, k, now)
    ensures k in Keys(batch)
  {
    if k !in Keys(batch) {
      WithoutIt(t, now, k, batch);
      OneFewer(DueRows(t, now), k);
      SubsetSize(Rivals(t, now, k), DueRows(t, now) - {k});
      assert false;
    }
  }

  /** Over any tables with up to fifty due rows, sixteen of one endpoint before another's row, the code can come to
      where the one has every slot and the other waits. */
  lemma SlowEndpointTakesEverySlot(db: Db, clock: int, endpoints: set<Webhook>, slow: Webhook, r: Key, rows: set<Key>)
    returns (s0: System, batch: seq<PendingDelivery>, acts: seq<Action>)
    requires ForeignKeys(db) && slow in endpoints && r.webhook != slow && IsDue(db, r, clock)
    requires |DueRows(db, clock)| <= BATCH_SIZE && |rows| >= CONCURRENCY
    requires forall k | k in rows :: k.webhook == slow && IsDue(db, k, clock) && Before(db, k, r)
    ensures Init(s0) && s0.db == db && s0.clock == clock && s0.endpoints == endpoints && Runs(s0, [Load(batch)] + acts)
    ensures HeldUp(End(s0, [Load(batch)] + acts), slow, r)
  {
    s0 := AnyDatabaseStarts(db, clock, endpoints);
    InitHolds(s0);
    batch := BatchExists(db, BATCH_SIZE, clock);
    assert Enabled(s0, Load(batch));
    AllInBatch(db, clock, batch, r);
    forall k | k in rows ensures k in SlowBefore(batch, slow, r) {
      AllInBatch(db, clock, batch, k);
      EarlierRowsStandBefore(db, clock, batch, k, r);
    }
    hide Inv, Init, Selects, Enabled, Next, HeldUp, IsDue, Before, Keys;
    SubsetSize(rows, SlowBefore(batch, slow, r));
    HeldUpExactly(s0, batch, slow, r);
    acts :| Runs(Next(s0, Load(batch)), acts) && WithinPass(acts) && HeldUp(End(Next(s0, Load(batch)), acts), slow, r);
    var all := [Load(batch)] + acts;
    assert all[0] == Load(batch) && all[1..] == acts;
  }
}
