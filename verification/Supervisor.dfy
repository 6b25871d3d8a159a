/** The socket supervisor: attempts, the joined flag others see, and the growing wait between attempts. */
module Supervisor {
  import opened Wrappers
  import opened Protocol
  import L = Liveness
  import Schema
  import Json

  const RECONNECT_MIN := 3 * L.SECOND
  const RECONNECT_MAX := 60 * L.SECOND

  /** What cuts an attempt short while its connection is still open. */
  datatype Cut = Refresh | Shutdown

  /** One turn of the supervisor's loop, as the world decides it; `cut` comes at `until`. */
  datatype Turn =
    | Stopped
    | NoAuth
    | Attempt(connects: bool, start: nat, frames: seq<L.Frame>, until: nat, cut: Cut)

  /** What an attempt comes to. */
  datatype Result = Joined | NotJoined | Error | Gone

  function ResultOf(t: Turn, read: JsonReader): Result
    requires t.Attempt?
  {
    if !t.connects then Error
    else match L.RunUntil(t.start, t.frames, t.until, read)
      case Ended(joined) => if joined then Joined else NotJoined
      case TimedOut(joined, _) => if joined then Joined else NotJoined
      case Failed(_) => Error
      case Open(_) => if t.cut == Refresh then Joined else Gone
  }

  predicate Exits(t: Turn, read: JsonReader) { t.Stopped? || (t.Attempt? && ResultOf(t, read) == Gone) }

  /** An attempt the supervisor sleeps after. */
  predicate Counts(t: Turn, read: JsonReader) { t.Attempt? && ResultOf(t, read) != Gone }

  predicate Resets(t: Turn, read: JsonReader) { t.Attempt? && ResultOf(t, read) == Joined }

  // ---------------------------------------------------------------- the loop

  /** Where the supervisor is: in the connection of a turn, this many of whose frames it has handled, or outside. */
  datatype Place = AuthWait | Backoff(sleep: nat) | Exit | Connected(turn: nat, handled: nat)

  /** What another task reading the flag would have seen, where. */
  datatype Sight = Sight(place: Place, joined: bool)

  /** The flag is up only inside a connection that has received a joined message. */
  ghost predicate Honest(s: Sight, turns: seq<Turn>, read: JsonReader) {
    s.joined ==>
      && s.place.Connected? && s.place.turn < |turns| && turns[s.place.turn].Attempt?
      && var frames := turns[s.place.turn].frames;
         exists j :: 0 <= j < s.place.handled && j < |frames| && L.JoinsBy(frames[j].kind, read)
  }

  /** The sleeps among the sights. */
  function BackoffsIn(seen: seq<Sight>): seq<nat> {
    if seen == [] then []
    else
      var last := seen[|seen| - 1].place;
      BackoffsIn(seen[..|seen| - 1]) + if last.Backoff? then [last.sleep] else []
  }

  lemma {:induction false} ConnectionsAreNoBackoffs(seen: seq<Sight>, during: seq<Sight>)
    requires forall i | 0 <= i < |during| :: during[i].place.Connected?
    ensures BackoffsIn(seen + during) == BackoffsIn(seen)
    decreases |during|
  {
    if during == [] {
      assert seen + during == seen;
    } else {
      var n := |during| - 1;
      ConnectionsAreNoBackoffs(seen, during[..n]);
      assert (seen + during)[..|seen + during| - 1] == seen + during[..n];
    }
  }

  lemma NoBackoffs()
    ensures BackoffsIn([]) == []
  {
  }

  lemma OneMoreSight(seen: seq<Sight>, s: Sight)
    ensures BackoffsIn(seen + [s]) == BackoffsIn(seen) + if s.place.Backoff? then [s.place.sleep] else []
  {
  }

  /** One attempt of the supervisor, and what is visible during it. */
  method Attempted(status: L.Status, turns: seq<Turn>, n: nat, read: JsonReader) returns (r: Result, seen: seq<Sight>)
    requires n < |turns| && turns[n].Attempt? && !status.upstreamJoined
    modifies status
    ensures r == ResultOf(turns[n], read)
    ensures forall i | 0 <= i < |seen| :: seen[i].place.Connected? && Honest(seen[i], turns, read)
  {
    seen := [];
    var t := turns[n];
    if !t.connects { return Error, seen; }
    hide L.RunUntil, L.JoinsBy;
    var o, flags := L.RunSocketOnce(status, t.start, t.frames, t.until, read);
    for k := 0 to |flags|
      invariant |seen| == k && forall i | 0 <= i < k :: seen[i].place.Connected? && Honest(seen[i], turns, read)
    {
      seen := seen + [Sight(Connected(n, k), flags[k])];
    }
    r := match o
      case Ended(joined) => (if joined then Joined else NotJoined)
      case TimedOut(joined, _) => (if joined then Joined else NotJoined)
      case Failed(_) => Error
      case Open(_) => (if t.cut == Refresh then Joined else Gone);
  }

  /** The sleeps of a run, attempt after attempt. */
  function Sleeps(turns: seq<Turn>, read: JsonReader): seq<nat> {
    if turns == [] then [] else
    var n := |turns| - 1;
    var before := Sleeps(turns[..n], read);
    if Counts(turns[n], read) then before + [Wait(turns, read)] else before
  }

  /** How many attempts have been made since the last one that joined or was refreshed, or since the first. */
  function Streak(turns: seq<Turn>, read: JsonReader): nat {
    if turns == [] then 0 else
    var n := |turns| - 1;
    if Resets(turns[n], read) then 0
    else if Counts(turns[n], read) then if Fresh(turns[..n], read) then 0 else Streak(turns[..n], read) + 1
    else Streak(turns[..n], read)
  }

  /** No attempt yet. */
  predicate Fresh(turns: seq<Turn>, read: JsonReader) { forall i | 0 <= i < |turns| :: !Counts(turns[i], read) }

  /** Three seconds, doubled for every attempt of the streak, and a minute at most. */
  function Wait(turns: seq<Turn>, read: JsonReader): nat {
    Schema.Min(RECONNECT_MIN * Schema.Pow2(Streak(turns, read)), RECONNECT_MAX)
  }

  /** The delay variable between turns: the wait of the next attempt, if it does not join. */
  ghost predicate DelayIs(delay: nat, turns: seq<Turn>, read: JsonReader) {
    delay == if Fresh(turns, read) then RECONNECT_MIN
             else Schema.Min(RECONNECT_MIN * Schema.Pow2(Streak(turns, read) + 1), RECONNECT_MAX)
  }

  lemma StreakNext(turns: seq<Turn>, t: Turn, read: JsonReader)
    requires Counts(t, read)
    ensures !Fresh(turns + [t], read)
    ensures Streak(turns + [t], read) == if Resets(t, read) || Fresh(turns, read) then 0 else Streak(turns, read) + 1
  {
    hide ResultOf;
    var all := turns + [t];
    assert all[..|all| - 1] == turns && all[|all| - 1] == t;
  }

  lemma SleepAndDouble(delay: nat, turns: seq<Turn>, t: Turn, read: JsonReader)
    requires DelayIs(delay, turns, read) && Counts(t, read)
    ensures var sleep := if Resets(t, read) then RECONNECT_MIN else delay;
            && sleep == Wait(turns + [t], read)
            && DelayIs(Schema.Min(2 * sleep, RECONNECT_MAX), turns + [t], read)
  {
    StreakNext(turns, t, read);
    hide Counts, Resets, Fresh, Streak;
    var n := Streak(turns + [t], read);
    assert Schema.Pow2(0) == 1 && Schema.Pow2(n + 1) == 2 * Schema.Pow2(n);
  }

  lemma Unchanged(delay: nat, turns: seq<Turn>, t: Turn, read: JsonReader)
    requires DelayIs(delay, turns, read) && !Counts(t, read)
    ensures DelayIs(delay, turns + [t], read) && Sleeps(turns + [t], read) == Sleeps(turns, read)
  {
    var all := turns + [t];
    assert all[..|all| - 1] == turns && all[|all| - 1] == t;
    assert Fresh(all, read) <==> Fresh(turns, read) by { assert forall i | 0 <= i < |turns| :: all[i] == turns[i]; }
    hide ResultOf;
  }

  /** `supervise`: the turns it takes until it is stopped, its sleeps, and everything the flag showed. */
  method Supervise(status: L.Status, turns: seq<Turn>, read: JsonReader) returns (sleeps: seq<nat>, seen: seq<Sight>)
    requires !status.upstreamJoined
    modifies status
    ensures exists n ::
            0 <= n <= |turns| && sleeps == Sleeps(turns[..n], read) && (n < |turns| ==> Exits(turns[n], read))
                        && forall i | 0 <= i < n :: !Exits(turns[i], read)
    ensures forall i | 0 <= i < |seen| :: Honest(seen[i], turns, read)
    ensures BackoffsIn(seen) == sleeps
    ensures !status.upstreamJoined
  {
    hide ResultOf, Schema.Pow2, BackoffsIn;
    assert BackoffsIn([]) == [] by { NoBackoffs(); }
    var delay: nat := RECONNECT_MIN;
    sleeps, seen := [], [];
    var i := 0;
    while i < |turns|
      invariant i <= |turns| && !status.upstreamJoined
      invariant sleeps == Sleeps(turns[..i], read) && DelayIs(delay, turns[..i], read)
      invariant forall j | 0 <= j < i :: !Exits(turns[j], read)
      invariant forall j | 0 <= j < |seen| :: Honest(seen[j], turns, read)
      invariant BackoffsIn(seen) == sleeps
    {
      var t := turns[i];
      assert turns[..i + 1] == turns[..i] + [t];
      match t {
      case Stopped =>
        status.upstreamJoined := false;
        OneMoreSight(seen, Sight(Exit, false));
        seen := seen + [Sight(Exit, status.upstreamJoined)];
        return;
      case NoAuth =>
        status.upstreamJoined := false;
        OneMoreSight(seen, Sight(AuthWait, false));
        seen := seen + [Sight(AuthWait, status.upstreamJoined)];
        Unchanged(delay, turns[..i], t, read);
      case Attempt(_, _, _, _, _) =>
        var r, during := Attempted(status, turns, i, read);
        ConnectionsAreNoBackoffs(seen, during);
        seen := seen + during;
        status.upstreamJoined := false;
        if r == Gone {
          OneMoreSight(seen, Sight(Exit, false));
          seen := seen + [Sight(Exit, status.upstreamJoined)];
          return;
        }
        SleepAndDouble(delay, turns[..i], t, read);
        if r == Joined { delay := RECONNECT_MIN; }
        OneMoreSight(seen, Sight(Backoff(delay), false));
        seen := seen + [Sight(Backoff(delay), status.upstreamJoined)];
        sleeps := sleeps + [delay];
        delay := Schema.Min(2 * delay, RECONNECT_MAX);
      }
      i := i + 1;
    }
    assert turns[..i] == turns;
  }

  // ---------------------------------------------------------------- what the waits are

  function Attempts(turns: seq<Turn>, read: JsonReader): nat {
    if turns == [] then 0
    else Attempts(turns[..|turns| - 1], read) + if Counts(turns[|turns| - 1], read) then 1 else 0
  }

  lemma {:induction false} NoAttemptsYet(turns: seq<Turn>, read: JsonReader)
    ensures Fresh(turns, read) <==> Attempts(turns, read) == 0
  {
    if turns != [] {
      hide Counts;
      var o := turns[..|turns| - 1];
      NoAttemptsYet(o, read);
      assert forall i | 0 <= i < |o| :: o[i] == turns[i];
      assert Fresh(turns, read) <==> Fresh(o, read) && !Counts(turns[|turns| - 1], read);
    }
  }

  /** The streak counts the attempts after the last one that joined or was refreshed. */
  lemma {:induction false} StreakAfterReset(turns: seq<Turn>, r: nat, read: JsonReader)
    requires r < |turns| && Resets(turns[r], read) && forall i | r < i < |turns| :: !Resets(turns[i], read)
    ensures Streak(turns, read) == Attempts(turns[r + 1..], read)
  {
    hide ResultOf;
    var n := |turns| - 1;
    if r == n {
      assert turns[r + 1..] == [];
    } else {
      var o := turns[..n];
      assert forall i | 0 <= i < n :: o[i] == turns[i];
      StreakAfterReset(o, r, read);
      assert turns[r + 1..][..|turns[r + 1..]| - 1] == o[r + 1..] && turns[r + 1..][|turns[r + 1..]| - 1] == turns[n];
      assert Counts(o[r], read) && !Fresh(o, read);
    }
  }

  /** Before any of them it counts the attempts after the first. */
  lemma {:induction false} StreakFromStart(turns: seq<Turn>, read: JsonReader)
    requires forall i | 0 <= i < |turns| :: !Resets(turns[i], read)
    ensures Streak(turns, read) == if Attempts(turns, read) == 0 then 0 else Attempts(turns, read) - 1
  {
    if turns != [] {
      hide ResultOf;
      var o := turns[..|turns| - 1];
      assert forall i | 0 <= i < |o| :: o[i] == turns[i];
      StreakFromStart(o, read);
      NoAttemptsYet(o, read);
    }
  }

  /** The waits are 3, 6, 12, 24 and 48 seconds, and a minute exactly from five repeats on. */
  lemma WaitBounds(turns: seq<Turn>, read: JsonReader)
    ensures Wait(turns, read) ==
            [3, 6, 12, 24, 48, 60][if Streak(turns, read) < 5 then Streak(turns, read) else 5] * 1_000_000_000
  {
    var n := Streak(turns, read);
    hide Streak;
    assert Schema.Pow2(0) == 1 && Schema.Pow2(1) == 2 && Schema.Pow2(2) == 4;
    assert Schema.Pow2(3) == 8 && Schema.Pow2(4) == 16 && Schema.Pow2(5) == 32;
    if n > 5 { Pow2AtLeast(n); }
  }

  lemma {:induction false} Pow2AtLeast(n: nat)
    requires n >= 5
    ensures Schema.Pow2(n) >= 32
  {
    if n > 5 { Pow2AtLeast(n - 1); }
  }

  // ---------------------------------------------------------------- which attempts start the waits over

  /** The attempt received a joined message before it ended. */
  predicate HasJoined(t: Turn, read: JsonReader)
    requires t.Attempt?
  {
    t.connects && match L.RunUntil(t.start, t.frames, t.until, read)
      case Ended(joined) => joined
      case TimedOut(joined, _) => joined
      case Failed(joined) => joined
      case Open(c) => c.joined
  }

  /** An attempt that joined starts the waits over exactly when it did not end with a socket error; one that did not
      join does so only by being refreshed. */
  lemma ResetsExactly(t: Turn, read: JsonReader)
    requires Counts(t, read)
    ensures HasJoined(t, read) ==> (Resets(t, read) <==> !L.RunUntil(t.start, t.frames, t.until, read).Failed?)
    ensures !HasJoined(t, read) ==>
            (Resets(t, read) <==> t.connects && L.RunUntil(t.start, t.frames, t.until, read).Open?)
  {
  }

  /** Joining and then losing the connection to a read error leaves the waits growing. */
  lemma JoinedThenErrorDoesNotReset(read: JsonReader)
    requires read("[\"message\",\"joined\"]") == Some(Json.Arr([Json.Str("message"), Json.Str("joined")]))
    ensures var joined := L.Frame(1, L.Text("42[\"message\",\"joined\"]"), 0, false, false, true);
            var lost := L.Frame(2, L.ReadError, 0, false, false, true);
            var t := Attempt(true, 0, [joined, lost], 3, Refresh);
            HasJoined(t, read) && Counts(t, read) && !Resets(t, read)
  {
    var text := "42[\"message\",\"joined\"]";
    var joined := L.Frame(1, L.Text(text), 0, false, false, true);
    var lost := L.Frame(2, L.ReadError, 0, false, false, true);
    var fs := [joined, lost];
    assert text[1..][1..] == "[\"message\",\"joined\"]";
    assert Decode(text, read) == Some(SocketEvent("message", [Json.Str("joined")]));
    var c := L.After(L.Start(0), joined, read);
    assert L.Handle(L.Start(0), joined, read) == L.Continue(c);
    assert fs[1..] == [lost];
    assert L.Run(c, [lost], read) == L.Failed(true);
    assert L.Run(L.Start(0), fs, read) == L.Failed(true);
  }
}
