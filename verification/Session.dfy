/** The schedule of management session refreshes. */
module Session {
  import opened Wrappers

  const SECOND := 1_000_000_000
  const RETRY_INTERVAL := 60 * SECOND
  const MAX_SAFETY_MARGIN := 3600 * SECOND

  function Remaining(expiresAt: int, now: int): nat { if expiresAt < now then 0 else expiresAt - now }

  function SafetyMargin(remaining: nat): nat {
    if remaining / 5 < MAX_SAFETY_MARGIN then remaining / 5 else MAX_SAFETY_MARGIN
  }

  /** `next_refresh_delay`: none without a known expiry. */
  function NextRefreshDelay(expiresAt: Option<int>, now: int): (r: Option<nat>)
    ensures r.Some? <==> expiresAt.Some?
  {
    var at :- expiresAt;
    var remaining := Remaining(at, now);
    Some(remaining - SafetyMargin(remaining))
  }

  /** A refresh is planned no later than expiry: an hour before it where five hours or more are left, and otherwise a
      fifth of what is left before it. */
  lemma RefreshIsInTime(expiresAt: int, now: int)
    ensures var delay := NextRefreshDelay(Some(expiresAt), now).value;
            && (now <= expiresAt ==> now <= now + delay <= expiresAt)
            && (now >= expiresAt ==> delay == 0)
            && (expiresAt - now >= 5 * 3_600_000_000_000 ==> expiresAt - (now + delay) == 3_600_000_000_000)
            && (0 <= expiresAt - now < 5 * 3_600_000_000_000 ==>
                  5 * (expiresAt - (now + delay)) <= expiresAt - now < 5 * (expiresAt - (now + delay) + 1))
  {
  }

  // ---------------------------------------------------------------- the loop

  class AuthFlag {
    var healthy: bool

    constructor ()
      ensures !healthy
    {
      healthy := false;
    }
  }

  /** One refresh: when it is decided, whether it succeeded, and the expiry of the cookies then held. */
  datatype Refresh = Refresh(now: int, succeeded: bool, expiresAt: Option<int>)

  function SleepAfter(r: Refresh): nat {
    if r.succeeded && r.expiresAt.Some? then NextRefreshDelay(r.expiresAt, r.now).value else 60_000_000_000
  }

  /** `refresh_loop` over the refreshes that happen. */
  method RefreshLoop(flag: AuthFlag, refreshes: seq<Refresh>) returns (sleeps: seq<nat>)
    modifies flag
    ensures |sleeps| == |refreshes|
    ensures forall i | 0 <= i < |refreshes| :: sleeps[i] == SleepAfter(refreshes[i])
    ensures refreshes != [] ==>
            flag.healthy == (refreshes[|refreshes| - 1].succeeded && refreshes[|refreshes| - 1].expiresAt.Some?)
    ensures refreshes == [] ==> flag.healthy == old(flag.healthy)
  {
    sleeps := [];
    for i := 0 to |refreshes|
      invariant |sleeps| == i && forall j | 0 <= j < i :: sleeps[j] == SleepAfter(refreshes[j])
      invariant if i > 0 then flag.healthy == (refreshes[i - 1].succeeded && refreshes[i - 1].expiresAt.Some?)
                else flag.healthy == old(flag.healthy)
    {
      var r := refreshes[i];
      var sleep := RETRY_INTERVAL;
      if r.succeeded {
        var delay := NextRefreshDelay(r.expiresAt, r.now);
        match delay
        case Some(d) => flag.healthy := true; sleep := d;
        case None => flag.healthy := false;
      } else {
        flag.healthy := false;
      }
      sleeps := sleeps + [sleep];
    }
  }

  // ---------------------------------------------------------------- without a new cookie

  /** Successful refreshes with the same expiry, each no earlier than the sleep before it allows. */
  ghost predicate Chain(expiresAt: int, rs: seq<Refresh>) {
    && (forall i | 0 <= i < |rs| :: rs[i].succeeded && rs[i].expiresAt == Some(expiresAt))
    && (forall i | 0 <= i < |rs| - 1 :: rs[i + 1].now >= rs[i].now + SleepAfter(rs[i]))
  }

  function Left(r: Refresh): nat { if r.expiresAt.Some? then Remaining(r.expiresAt.value, r.now) else 0 }

  lemma NextLeft(expiresAt: int, a: Refresh, b: Refresh)
    requires a.succeeded && a.expiresAt == Some(expiresAt) == b.expiresAt && b.now >= a.now + SleepAfter(a)
    ensures Left(b) <= SafetyMargin(Left(a))
    ensures b.now == a.now + SleepAfter(a) ==> Left(b) == SafetyMargin(Left(a))
    ensures Left(a) > 0 ==> Left(b) < Left(a)
  {
  }

  function Pow5(k: nat): (p: nat)
    ensures p > 0
  {
    if k == 0 then 1 else 5 * Pow5(k - 1)
  }

  lemma FifthOf(a: nat, b: nat, p: nat)
    requires a * p <= MAX_SAFETY_MARGIN && 5 * b <= a
    ensures b * (5 * p) <= MAX_SAFETY_MARGIN
  {
  }

  /** After the first refresh at most an hour is left, and then a fifth of it each time. */
  lemma {:induction false} LeftShrinks(expiresAt: int, rs: seq<Refresh>, i: nat)
    requires Chain(expiresAt, rs) && 1 <= i < |rs|
    ensures Left(rs[i]) * Pow5(i - 1) <= MAX_SAFETY_MARGIN
  {
    assert rs[i - 1].succeeded && rs[i - 1].expiresAt == Some(expiresAt) == rs[i].expiresAt;
    assert rs[(i - 1) + 1].now >= rs[i - 1].now + SleepAfter(rs[i - 1]);
    NextLeft(expiresAt, rs[i - 1], rs[i]);
    if i == 1 {
      assert Pow5(0) == 1;
    } else {
      LeftShrinks(expiresAt, rs, i - 1);
      hide Left, Chain;
      FifthOf(Left(rs[i - 1]), Left(rs[i]), Pow5(i - 2));
      assert Pow5(i - 1) == 5 * Pow5(i - 2);
    }
  }

  lemma Pow5Of18()
    ensures Pow5(18) > MAX_SAFETY_MARGIN
  {
    assert Pow5(3) == 125;
    assert Pow5(6) == 15_625;
    assert Pow5(9) == 1_953_125;
    assert Pow5(12) == 244_140_625;
    assert Pow5(15) == 30_517_578_125;
  }

  /** A session nobody renews is refreshed to the last moment: nothing is left after nineteen refreshes, and until then
      each one leaves less than the one before. */
  lemma NothingLeftAfterNineteen(expiresAt: int, rs: seq<Refresh>)
    requires Chain(expiresAt, rs)
    ensures forall i | 19 <= i < |rs| :: Left(rs[i]) == 0
    ensures forall i | 0 <= i < |rs| - 1 && Left(rs[i]) > 0 :: Left(rs[i + 1]) < Left(rs[i])
  {
    forall i | 0 <= i < |rs| - 1
      ensures Left(rs[i + 1]) <= SafetyMargin(Left(rs[i])) && (Left(rs[i]) > 0 ==> Left(rs[i + 1]) < Left(rs[i]))
    {
      NextLeft(expiresAt, rs[i], rs[i + 1]);
    }
    if |rs| > 19 {
      LeftShrinks(expiresAt, rs, 19);
      Pow5Of18();
      NoneLeft(Left(rs[19]), Pow5(18));
      StaysEmpty(expiresAt, rs);
    }
  }

  lemma NoneLeft(a: nat, p: nat)
    requires a * p <= MAX_SAFETY_MARGIN < p
    ensures a == 0
  {
  }

  lemma StaysEmpty(expiresAt: int, rs: seq<Refresh>)
    requires |rs| > 19 && Left(rs[19]) == 0 && Chain(expiresAt, rs)
    ensures forall i | 19 <= i < |rs| :: Left(rs[i]) == 0
  {
    var n := 19;
    while n < |rs| - 1
      invariant 19 <= n < |rs| && forall i | 19 <= i <= n :: Left(rs[i]) == 0
    {
      NextLeft(expiresAt, rs[n], rs[n + 1]);
      n := n + 1;
    }
  }

  /** Refreshes that come exactly when planned. */
  function Punctual(left: nat, n: nat): nat { if n == 0 then left else SafetyMargin(Punctual(left, n - 1)) }

  /** Nineteen are needed when more than five hours are left to start with. */
  lemma EighteenAreNotEnough(left: nat)
    requires left >= 5 * MAX_SAFETY_MARGIN
    ensures Punctual(left, 18) > 0 && Punctual(left, 19) == 0
  {
    assert Punctual(left, 1) == 3_600_000_000_000;
    assert Punctual(left, 2) == 720_000_000_000;
    assert Punctual(left, 4) == 28_800_000_000;
    assert Punctual(left, 6) == 1_152_000_000;
    assert Punctual(left, 8) == 46_080_000;
    assert Punctual(left, 10) == 1_843_200;
    assert Punctual(left, 12) == 73_728;
    assert Punctual(left, 14) == 2_949;
    assert Punctual(left, 16) == 117;
    assert Punctual(left, 18) == 4;
  }
}
