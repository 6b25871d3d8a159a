/** Quotas: a limiter as the generic cell rate algorithm, its exact bound, and the two tiers. */
module RateLimit {
  import opened Wrappers
  import Text
  import Config

  /** One request is replenished every `period` nanoseconds, up to `burst` of them. */
  datatype Quota = Quota(period: nat, burst: nat)

  predicate Usable(q: Quota) { q.period > 0 && q.burst > 0 }

  function Max(a: int, b: int): int { if a < b then b else a }

  /** `tat` is the theoretical arrival time of the next request. */
  predicate Admits(q: Quota, tat: int, now: int) { tat - now <= q.period * (q.burst - 1) }

  function Spend(q: Quota, tat: int, now: int): int { if Admits(q, tat, now) then Max(tat, now) + q.period else tat }

  // ---------------------------------------------------------------- the bound over an interval

  predicate Ordered(times: seq<int>) { forall i, j | 0 <= i <= j < |times| :: times[i] <= times[j] }

  function TatAfter(q: Quota, tat: int, times: seq<int>): int {
    if times == [] then tat
    else var n := |times| - 1; Spend(q, TatAfter(q, tat, times[..n]), times[n])
  }

  /** How many of the requests are admitted. */
  function Admitted(q: Quota, tat: int, times: seq<int>): nat {
    if times == [] then 0
    else
      var n := |times| - 1;
      Admitted(q, tat, times[..n]) + if Admits(q, TatAfter(q, tat, times[..n]), times[n]) then 1 else 0
  }

  /** Every admission moves the arrival time a period further, and none happens more than the tolerance ahead of it. */
  lemma {:induction false} ArrivalTime(q: Quota, tat: int, times: seq<int>)
    requires Ordered(times) && times != [] && Usable(q)
    ensures var a := Admitted(q, tat, times);
            a > 0 ==> times[0] + a * q.period <= TatAfter(q, tat, times)
                      && times[0] + (a - 1) * q.period <= times[|times| - 1] + q.period * (q.burst - 1)
  {
    var n := |times| - 1;
    var o := times[..n];
    if n > 0 {
      assert o[0] == times[0] && o[n - 1] == times[n - 1];
      ArrivalTime(q, tat, o);
    }
    assert times[0] <= times[n] && (n > 0 ==> times[n - 1] <= times[n]);
    var last := if n > 0 then times[n - 1] else times[0];
    ArrivalStep(q, times[0], last, times[n], TatAfter(q, tat, o), Admitted(q, tat, o));
  }

  /** One more request: what held of the first `a` admissions holds of them all. */
  lemma ArrivalStep(q: Quota, first: int, last: int, now: int, tat: int, a: nat)
    requires Usable(q) && first <= last <= now
    requires a > 0 ==> first + a * q.period <= tat && first + (a - 1) * q.period <= last + q.period * (q.burst - 1)
    ensures var a' := a + if Admits(q, tat, now) then 1 else 0;
            a' > 0 ==> first + a' * q.period <= Spend(q, tat, now)
                       && first + (a' - 1) * q.period <= now + q.period * (q.burst - 1)
  {
    assert (a + 1) * q.period == a * q.period + q.period;
    assert 0 <= q.period * (q.burst - 1);
  }

  lemma CountFromTime(a: int, p: int, b: int, t: int)
    requires p > 0 && t >= 0 && (a - 1) * p <= t + p * (b - 1)
    ensures a <= b + t / p
  {
    var x := a - b - t / p - 1;
    assert t == p * (t / p) + t % p;
    assert (a - 1) * p - p * (b - 1) == (a - b) * p;
    assert x * p == (a - b) * p - p * (t / p) - p;
    assert x >= 0 ==> x * p >= 0;
  }

  /** Whatever happened before, any requests within `span` nanoseconds of each other get at most the burst and one
      more per full period. */
  lemma RateBound(q: Quota, tat: int, times: seq<int>, span: nat)
    requires Usable(q) && Ordered(times) && (times != [] ==> times[|times| - 1] - times[0] <= span)
    ensures Admitted(q, tat, times) <= q.burst + span / q.period
  {
    assert span / q.period >= 0;
    if times != [] && Admitted(q, tat, times) > 0 {
      ArrivalTime(q, tat, times);
      CountFromTime(Admitted(q, tat, times), q.period, q.burst, span);
    }
  }

  // ---------------------------------------------------------------- the bound is reached

  /** As many requests at once as the burst, then one each period. */
  function GreedyAt(q: Quota, i: nat): int { if i < q.burst then 0 else (i + 1 - q.burst) * q.period }

  function Greedy(q: Quota, n: nat): seq<int> { seq(q.burst + n, i requires 0 <= i < q.burst + n => GreedyAt(q, i)) }

  lemma GreedyRises(q: Quota, i: nat, j: nat)
    requires i <= j
    ensures GreedyAt(q, i) <= GreedyAt(q, j)
  {
  }

  lemma {:induction false} GreedyPrefix(q: Quota, n: nat, k: nat)
    requires Usable(q) && k <= q.burst + n
    ensures TatAfter(q, 0, Greedy(q, n)[..k]) == k * q.period && Admitted(q, 0, Greedy(q, n)[..k]) == k
  {
    if k > 0 {
      var g := Greedy(q, n);
      assert g[..k][..k - 1] == g[..k - 1];
      GreedyPrefix(q, n, k - 1);
      var at := g[k - 1];
      GreedyStep(q, k, at);
    }
  }

  lemma GreedyStep(q: Quota, k: nat, at: int)
    requires Usable(q) && 0 < k && at == if k - 1 < q.burst then 0 else (k - q.burst) * q.period
    ensures Admits(q, (k - 1) * q.period, at) && Max((k - 1) * q.period, at) + q.period == k * q.period
  {
  }

  lemma Monotone(a: int, b: int, p: nat)
    requires a <= b
    ensures a * p <= b * p
  {
  }

  /** A fresh limiter admits the whole greedy schedule, which spans exactly `n` periods. */
  lemma RateBoundIsReached(q: Quota, n: nat)
    requires Usable(q)
    ensures var g := Greedy(q, n);
            && Admitted(q, 0, g) == q.burst + n && Ordered(g)
            && g[0] == 0 && g[|g| - 1] == n * q.period
  {
    var g := Greedy(q, n);
    GreedyPrefix(q, n, q.burst + n);
    assert g[..q.burst + n] == g;
    forall i: nat, j: nat | i <= j ensures GreedyAt(q, i) <= GreedyAt(q, j) { GreedyRises(q, i, j); }
    assert n == 0 ==> GreedyAt(q, q.burst + n - 1) == 0 == n * q.period;
    assert GreedyAt(q, q.burst + n - 1) == n * q.period;
    assert GreedyAt(q, 0) == 0;
    hide GreedyAt, Admitted;
  }

  // ---------------------------------------------------------------- configured buckets

  /** `limiter`: refused for zero requests, a zero burst or a period below one nanosecond. */
  function Limiter(b: Config.Bucket): (r: Option<Quota>)
    ensures r.Some? ==> Usable(r.value)
  {
    if b.requests == 0 || b.burst == 0 || b.window / b.requests == 0 then None
    else Some(Quota(b.window / b.requests, b.burst))
  }

  /** A validated bucket always gives a limiter. */
  lemma ValidBucketsGiveLimiters(b: Config.Bucket)
    requires Config.ValidBucket(b)
    ensures Limiter(b).Some?
  {
  }

  /** Flooring the period lets a window hold more periods than requests: by how many, exactly. */
  lemma PeriodsInWindow(window: nat, requests: nat)
    requires 0 < requests <= window
    ensures var p := window / requests;
            && p > 0 && window / p == requests + window % requests / p
            && window / p < 2 * requests
            && (window / p == requests <==> window % requests < p)
            && (p >= requests ==> window / p == requests)
  {
    var p, r := window / requests, window % requests;
    Config.PeriodIsPositive(window, requests);
    assert window == p * requests + r;
    RemainderPeriods(window, requests, p, r);
  }

  lemma RemainderPeriods(window: nat, requests: nat, p: nat, r: nat)
    requires p > 0 && window == p * requests + r && r < requests
    ensures window / p == requests + r / p && r / p < requests
    ensures r / p == 0 <==> r < p
  {
    QuotientBounds(r, p);
    SumDiv(window, p, requests, r / p, r % p);
  }

  lemma QuotientBounds(r: nat, p: nat)
    requires p > 0
    ensures r == p * (r / p) + r % p && 0 <= r / p <= r && (r / p == 0 <==> r < p)
    ensures (r / p) * p <= r
  {
    var k := r / p;
    assert r == p * k + r % p;
    assert k >= 0;
    Monotone(1, p, k);
    assert k >= 1 ==> p * k >= p;
  }

  lemma SumDiv(window: nat, p: nat, requests: nat, k: nat, m: nat)
    requires p > 0 && window == p * requests + (p * k + m) && m < p
    ensures window / p == requests + k
  {
    assert p * (requests + k) == p * requests + p * k;
    Text.DivUnique(window, p, requests + k, m);
  }

  /** What one configured window admits at most, and when that is no more than the burst and the configured count. */
  lemma WindowBound(b: Config.Bucket, tat: int, times: seq<int>)
    requires Config.ValidBucket(b) && Ordered(times) && (times != [] ==> times[|times| - 1] - times[0] <= b.window)
    ensures Limiter(b).Some?
    ensures var q := Limiter(b).value;
            && Admitted(q, tat, times) <= b.burst + b.requests + b.window % b.requests / q.period
            && Admitted(q, tat, times) < b.burst + 2 * b.requests
            && (b.window % b.requests < q.period ==> Admitted(q, tat, times) <= b.burst + b.requests)
            && (q.period >= b.requests ==> Admitted(q, tat, times) <= b.burst + b.requests)
  {
    ValidBucketsGiveLimiters(b);
    PeriodsInWindow(b.window, b.requests);
    RateBound(Limiter(b).value, tat, times, b.window);
    hide Admitted, Ordered;
  }

  /** That bound is met by requests inside one window, so the configured count is exceeded in every other case. */
  lemma WindowBoundIsReached(b: Config.Bucket) returns (times: seq<int>)
    requires Config.ValidBucket(b)
    ensures Ordered(times) && times != [] && times[|times| - 1] - times[0] <= b.window
    ensures Limiter(b).Some?
    ensures Admitted(Limiter(b).value, 0, times) ==
            b.burst + b.requests + b.window % b.requests / Limiter(b).value.period
  {
    ValidBucketsGiveLimiters(b);
    PeriodsInWindow(b.window, b.requests);
    var q := Limiter(b).value;
    var n := b.window / q.period;
    RateBoundIsReached(q, n);
    times := Greedy(q, n);
    QuotientBounds(b.window, q.period);
    hide Admitted, Ordered, Greedy;
  }

  ghost predicate WithinWindow(times: seq<int>, window: nat) {
    Ordered(times) && (times != [] ==> times[|times| - 1] - times[0] <= window)
  }

  /** No window admits more than the burst and the configured count exactly when the part of the window that flooring
      the period leaves over is shorter than a period. */
  lemma CountHoldsExactly(b: Config.Bucket)
    requires Config.ValidBucket(b)
    ensures Limiter(b).Some?
    ensures var q := Limiter(b).value;
            (forall tat, times | WithinWindow(times, b.window) :: Admitted(q, tat, times) <= b.burst + b.requests)
            <==> b.window % b.requests < b.window / b.requests
  {
    ValidBucketsGiveLimiters(b);
    PeriodsInWindow(b.window, b.requests);
    var q := Limiter(b).value;
    assert q.period == b.window / b.requests;
    hide Admitted, Ordered, Limiter;
    if b.window % b.requests < q.period {
      forall tat, times | WithinWindow(times, b.window) ensures Admitted(q, tat, times) <= b.burst + b.requests {
        WindowBound(b, tat, times);
      }
    } else {
      var times := WindowBoundIsReached(b);
      assert WithinWindow(times, b.window) && Admitted(q, 0, times) > b.burst + b.requests;
    }
  }

  /** 1000 requests in 1999 nanoseconds with a burst of one: almost twice the configured count gets through. */
  lemma ConfiguredCountCanBeExceeded() returns (times: seq<int>)
    ensures Config.ValidBucket(Config.Bucket(1000, 1999, 1))
    ensures Ordered(times) && times != [] && times[|times| - 1] - times[0] <= 1999
    ensures Admitted(Quota(1, 1), 0, times) == 2000
  {
    times := WindowBoundIsReached(Config.Bucket(1000, 1999, 1));
  }
}
