/**
Token buckets, one for each client address, and how their map is pruned
(apps/api/src/rateLimit.guard.ts), in exact arithmetic.
*/
module RateLimits {
  import opened Prelude

  const MILLIS_PER_MINUTE := 60_000
  const PRUNE_FROM := 10_000

  datatype Bucket = Bucket(tokens: real, at: int)

  datatype Verdict = Admitted | Refused(retryAfterSeconds: int)

  type Buckets = map<string, Bucket>

  // ---------------------------------------------------------------- one bucket

  function RefillPerMs(perMinute: nat): real {
    perMinute as real / 60_000.0
  }

  function Elapsed(from: int, to: int): (ms: nat) {
    if to > from then to - from else 0
  }

  function Refilled(perMinute: nat, b: Bucket, now: int): (tokens: real) {
    var grown := b.tokens + Elapsed(b.at, now) as real * RefillPerMs(perMinute);
    if grown > perMinute as real then perMinute as real else grown
  }

  function Ceil(x: real): int {
    -((-x).Floor)
  }

  function RetryAfter(perMinute: nat, refilled: real): (seconds: int)
    requires perMinute >= 1
    ensures seconds >= 1
  {
    var wait := Ceil((1.0 - refilled) / RefillPerMs(perMinute) / 1000.0);
    if wait < 1 then 1 else wait
  }

  /** The bucket a request finds: its own, or a full one. */
  function Found(perMinute: nat, buckets: Buckets, key: string, now: int): Bucket {
    if key in buckets then buckets[key] else Bucket(perMinute as real, now)
  }

  /** One request against one bucket. */
  function Spend(perMinute: nat, b: Bucket, now: int): (Bucket, Verdict)
    requires perMinute >= 1
  {
    var refilled := Refilled(perMinute, b, now);
    if refilled >= 1.0 then (Bucket(refilled - 1.0, now), Admitted)
    else (Bucket(refilled, now), Refused(RetryAfter(perMinute, refilled)))
  }

  /** Buckets idle for more than a minute are full again. */
  predicate Idle(b: Bucket, now: int) {
    now - b.at > MILLIS_PER_MINUTE
  }

  function Forget(buckets: Buckets, now: int): Buckets {
    if |buckets| < PRUNE_FROM then buckets
    else map key | key in buckets && !Idle(buckets[key], now) :: buckets[key]
  }

  /** One request against the map, pruned or not. */
  function Admit(perMinute: nat, buckets: Buckets, key: string, now: int, prunes: bool): (Buckets, Verdict) {
    if perMinute == 0 then (buckets, Admitted)
    else
      var (b, verdict) := Spend(perMinute, Found(perMinute, buckets, key, now), now);
      var spent := buckets[key := b];
      (if prunes && verdict.Admitted? then Forget(spent, now) else spent, verdict)
  }

  class RateLimitGuard {
    const perMinute: nat
    var buckets: Buckets

    constructor (perMinute: nat)
      ensures this.perMinute == perMinute && buckets == map[]
    {
      this.perMinute, buckets := perMinute, map[];
    }

    /** `admit`. */
    method AdmitRequest(key: string, now: int) returns (verdict: Verdict)
      modifies this
      ensures (buckets, verdict) == Admit(perMinute, old(buckets), key, now, true)
    {
      if perMinute == 0 {
        return Admitted;
      }
      var bucket := if key in buckets then buckets[key] else Bucket(perMinute as real, now);
      var refilled := Refilled(perMinute, bucket, now);
      if refilled >= 1.0 {
        buckets := buckets[key := Bucket(refilled - 1.0, now)];
        Prune(now);
        return Admitted;
      }
      buckets := buckets[key := Bucket(refilled, now)];
      return Refused(RetryAfter(perMinute, refilled));
    }

    /** `#forget`. */
    method Prune(now: int)
      modifies this
      ensures buckets == Forget(old(buckets), now)
    {
      if |buckets| < PRUNE_FROM {
        return;
      }
      var left := buckets.Keys;
      while left != {}
        invariant left <= old(buckets).Keys
        invariant buckets == map key | key in old(buckets) && (key in left || !Idle(old(buckets)[key], now)) :: old(buckets)[key]
        decreases |left|
      {
        var key :| key in left;
        left := left - {key};
        if Idle(buckets[key], now) {
          buckets := buckets - {key};
        }
      }
    }
  }

  // ---------------------------------------------------------------- bounds

  predicate InRange(perMinute: nat, b: Bucket) {
    0.0 <= b.tokens <= perMinute as real
  }

  predicate AllInRange(perMinute: nat, buckets: Buckets) {
    forall key :: key in buckets ==> InRange(perMinute, buckets[key])
  }

  lemma Product(ms: nat, rate: real)
    requires rate >= 0.0
    ensures ms as real * rate >= 0.0
  {
  }

  /** Refilling never takes tokens away and never fills past the brim, whatever the clock does. */
  lemma RefilledInRange(perMinute: nat, b: Bucket, now: int)
    requires InRange(perMinute, b)
    ensures b.tokens <= Refilled(perMinute, b, now) <= perMinute as real
  {
    Product(Elapsed(b.at, now), RefillPerMs(perMinute));
  }

  /** Tokens stay between nothing and the capacity over every run, pruned or not, whatever the clock does. */
  lemma AdmitInRange(perMinute: nat, buckets: Buckets, key: string, now: int, prunes: bool)
    requires AllInRange(perMinute, buckets)
    ensures AllInRange(perMinute, Admit(perMinute, buckets, key, now, prunes).0)
  {
    if perMinute > 0 {
      RefilledInRange(perMinute, Found(perMinute, buckets, key, now), now);
    }
  }

  // ---------------------------------------------------------------- how much is admitted

  /** The tokens the clock has added to a bucket since it was written. */
  function Earned(perMinute: nat, ms: nat): real {
    ms as real * RefillPerMs(perMinute)
  }

  lemma EarnedAdds(perMinute: nat, a: nat, b: nat)
    ensures Earned(perMinute, a + b) == Earned(perMinute, a) + Earned(perMinute, b)
    ensures Earned(perMinute, a) >= 0.0
  {
    Product(a, RefillPerMs(perMinute));
    assert (a + b) as real == a as real + b as real;
  }

  /** Requests of one key at these times, one after the other: how many are admitted, and the bucket they leave. */
  function Spree(perMinute: nat, b: Bucket, times: seq<int>): (Bucket, nat)
    requires perMinute >= 1
  {
    if times == [] then (b, 0)
    else
      var (before, n) := Spree(perMinute, b, times[..|times| - 1]);
      var (after, verdict) := Spend(perMinute, before, times[|times| - 1]);
      (after, n + if verdict.Admitted? then 1 else 0)
  }

  function LastOf(from: int, times: seq<int>): int {
    if times == [] then from else times[|times| - 1]
  }

  predicate NonDecreasing(from: int, times: seq<int>) {
    times != [] ==>
      var front := times[..|times| - 1];
      NonDecreasing(from, front) && LastOf(from, front) <= times[|times| - 1]
  }

  lemma {:induction false} Bounds(from: int, times: seq<int>)
    requires NonDecreasing(from, times)
    ensures from <= LastOf(from, times)
    ensures times != [] ==> from <= times[0] && NonDecreasing(times[0], times)
    decreases |times|
  {
    if times != [] {
      Bounds(from, times[..|times| - 1]);
    }
  }

  /** Every admitted request was paid for: out of what was there, or what the clock has earned since. */
  lemma {:induction false} SpreeIsPaid(perMinute: nat, b: Bucket, times: seq<int>)
    requires perMinute >= 1 && InRange(perMinute, b) && NonDecreasing(b.at, times)
    ensures var (after, n) := Spree(perMinute, b, times);
      && InRange(perMinute, after)
      && after.at == LastOf(b.at, times)
      && b.at <= after.at
      && after.tokens + n as real <= b.tokens + Earned(perMinute, after.at - b.at)
    decreases |times|
  {
    if times == [] {
      EarnedAdds(perMinute, 0, 0);
    } else {
      var front, now := times[..|times| - 1], times[|times| - 1];
      SpreeIsPaid(perMinute, b, front);
      var (before, n) := Spree(perMinute, b, front);
      RefilledInRange(perMinute, before, now);
      EarnedAdds(perMinute, before.at - b.at, now - before.at);
      SpendIsPaid(perMinute, before, now);
    }
  }

  lemma SpendIsPaid(perMinute: nat, b: Bucket, now: int)
    requires perMinute >= 1 && InRange(perMinute, b) && b.at <= now
    ensures var (after, verdict) := Spend(perMinute, b, now);
      && InRange(perMinute, after) && after.at == now
      && after.tokens + (if verdict.Admitted? then 1.0 else 0.0) <= b.tokens + Earned(perMinute, now - b.at)
  {
    RefilledInRange(perMinute, b, now);
  }

  /** Any window of W ms admits at most the capacity and what W ms earn. */
  lemma WindowBound(perMinute: nat, b: Bucket, times: seq<int>, window: nat)
    requires perMinute >= 1 && InRange(perMinute, b) && NonDecreasing(b.at, times)
    requires times != [] && times[|times| - 1] - times[0] <= window
    ensures Spree(perMinute, b, times).1 as real <= perMinute as real + Earned(perMinute, window)
  {
    hide Refilled, Spree, Earned, RefillPerMs, NonDecreasing;
    var first := Bucket(Refilled(perMinute, b, times[0]), times[0]);
    RefilledInRange(perMinute, b, times[0]);
    Bounds(b.at, times);
    SpreeFromRefilled(perMinute, b, first, times);
    SpreeIsPaid(perMinute, first, times);
    var spent := times[|times| - 1] - times[0];
    EarnedAdds(perMinute, spent, window - spent);
    EarnedAdds(perMinute, window - spent, 0);
  }

  /** A bucket refilled to the first request is spent like the bucket it was. */
  lemma {:induction false} SpreeFromRefilled(perMinute: nat, b: Bucket, first: Bucket, times: seq<int>)
    requires perMinute >= 1 && InRange(perMinute, b) && times != [] && b.at <= times[0]
    requires first == Bucket(Refilled(perMinute, b, times[0]), times[0])
    ensures Spree(perMinute, first, times) == Spree(perMinute, b, times)
    decreases |times|
  {
    if |times| == 1 {
      RefilledInRange(perMinute, b, times[0]);
      assert Spree(perMinute, b, times[..0]) == (b, 0) && Spree(perMinute, first, times[..0]) == (first, 0);
    } else {
      SpreeFromRefilled(perMinute, b, first, times[..|times| - 1]);
    }
  }

  // ---------------------------------------------------------------- waiting

  /** After a refusal, waiting d ms in silence is admitted exactly when the deficit is earned by then. */
  lemma WaitingIff(perMinute: nat, b: Bucket, now: int, ms: nat)
    requires perMinute >= 1 && InRange(perMinute, b) && Spend(perMinute, b, now).1.Refused?
    ensures var left := Spend(perMinute, b, now).0;
      Spend(perMinute, left, now + ms).1.Admitted? <==> left.tokens + Earned(perMinute, ms) >= 1.0
  {
    RefilledInRange(perMinute, b, now);
  }

  lemma CeilIsLeast(x: real)
    ensures Ceil(x) as real >= x
    ensures (Ceil(x) - 1) as real < x
  {
  }

  /** The deficit over the rate, in whole seconds. */
  lemma DeficitEarned(perMinute: nat, deficit: real, seconds: int)
    requires perMinute >= 1 && seconds >= 0
    ensures seconds as real >= deficit / RefillPerMs(perMinute) / 1000.0
      <==> Earned(perMinute, seconds * 1000) >= deficit
  {
    var rate := RefillPerMs(perMinute);
    assert rate > 0.0;
    var x := deficit / rate;
    assert x * rate == deficit;
    assert (seconds * 1000) as real == seconds as real * 1000.0;
    Scaled(seconds as real * 1000.0, x, rate);
  }

  lemma Scaled(a: real, b: real, rate: real)
    requires rate > 0.0
    ensures a >= b <==> a * rate >= b * rate
  {
    if a >= b {
      assert (a - b) * rate >= 0.0;
    } else {
      assert (b - a) * rate > 0.0;
    }
  }

  /** `Retry-After` is enough, and no fewer whole seconds would be, down to the one second it never goes below. */
  lemma RetryAfterIsExact(perMinute: nat, b: Bucket, now: int)
    requires perMinute >= 1 && InRange(perMinute, b) && Spend(perMinute, b, now).1.Refused?
    ensures var (left, verdict) := Spend(perMinute, b, now);
      && Spend(perMinute, left, now + verdict.retryAfterSeconds * 1000).1.Admitted?
      && (verdict.retryAfterSeconds > 1 ==>
        Spend(perMinute, left, now + (verdict.retryAfterSeconds - 1) * 1000).1.Refused?)
  {
    var (left, verdict) := Spend(perMinute, b, now);
    var deficit, s := 1.0 - left.tokens, verdict.retryAfterSeconds;
    CeilIsLeast(deficit / RefillPerMs(perMinute) / 1000.0);
    DeficitEarned(perMinute, deficit, s);
    WaitingIff(perMinute, b, now, s * 1000);
    if s > 1 {
      DeficitEarned(perMinute, deficit, s - 1);
      WaitingIff(perMinute, b, now, (s - 1) * 1000);
    }
  }

  // ---------------------------------------------------------------- pruning

  /** A pruned map against an unpruned one: what is missing is full again by now. */
  ghost predicate Pruned(kept: Buckets, all: Buckets, now: int) {
    && (forall key :: key in kept ==> key in all && all[key] == kept[key])
    && (forall key :: key in all && key !in kept ==> Idle(all[key], now))
  }

  lemma IdleIsFull(perMinute: nat, b: Bucket, now: int)
    requires InRange(perMinute, b) && Idle(b, now)
    ensures Refilled(perMinute, b, now) == perMinute as real
  {
    var rate := RefillPerMs(perMinute);
    assert 60_000.0 * rate == perMinute as real;
    Scaled2(Elapsed(b.at, now) as real, 60_000.0, rate);
  }

  lemma Scaled2(a: real, b: real, rate: real)
    requires a >= b && rate >= 0.0
    ensures a * rate >= b * rate
  {
    assert (a - b) * rate >= 0.0;
  }

  lemma FullStaysFull(perMinute: nat, now: int)
    ensures Refilled(perMinute, Bucket(perMinute as real, now), now) == perMinute as real
  {
  }

  /** A pruned map tells of every key it kept what an unpruned one does. */
  ghost predicate Agree(kept: Buckets, all: Buckets) {
    forall key :: key in kept ==> key in all && all[key] == kept[key]
  }

  /** The bucket this request would find was forgotten, and is not full again. */
  predicate Missed(perMinute: nat, kept: Buckets, all: Buckets, key: string, now: int) {
    perMinute >= 1 && key in all && key !in kept && Refilled(perMinute, all[key], now) < perMinute as real
  }

  lemma FoundFull(perMinute: nat, buckets: Buckets, key: string, now: int)
    requires key !in buckets
    ensures Refilled(perMinute, Found(perMinute, buckets, key, now), now) == perMinute as real
  {
    FullStaysFull(perMinute, now);
  }

  /** One request, whatever the clock says: exactly when pruning shows in its verdict. */
  lemma VerdictShowsIff(perMinute: nat, kept: Buckets, all: Buckets, key: string, now: int)
    requires perMinute >= 1 && AllInRange(perMinute, all) && Agree(kept, all)
    ensures Admit(perMinute, kept, key, now, true).1 != Admit(perMinute, all, key, now, false).1
      <==> key in all && key !in kept && Refilled(perMinute, all[key], now) < 1.0
  {
    if key !in kept {
      FoundFull(perMinute, kept, key, now);
      if key !in all {
        FoundFull(perMinute, all, key, now);
      }
    }
    hide Refilled, Forget, RetryAfter, AllInRange;
  }

  lemma ForgetAgrees(buckets: Buckets, now: int)
    ensures Agree(Forget(buckets, now), buckets)
    ensures forall key :: key in buckets && !Idle(buckets[key], now) ==> key in Forget(buckets, now)
  {
  }

  /** And exactly when it shows in the verdict or in the buckets it leaves. */
  lemma StepShowsIff(perMinute: nat, kept: Buckets, all: Buckets, key: string, now: int)
    requires AllInRange(perMinute, all) && Agree(kept, all)
    ensures var (k, verdict), (a, plain) := Admit(perMinute, kept, key, now, true), Admit(perMinute, all, key, now, false);
      verdict == plain && Agree(k, a) <==> !Missed(perMinute, kept, all, key, now)
  {
    if perMinute > 0 {
      var (b, verdict) := Spend(perMinute, Found(perMinute, kept, key, now), now);
      var (c, plain) := Spend(perMinute, Found(perMinute, all, key, now), now);
      SpendsAlikeIff(perMinute, kept, all, key, now);
      assert b.at == now;
      hide Refilled, Spend, Found, AllInRange, Missed, Agree;
      WrittenAgree(kept, all, key, b, c, now, verdict.Admitted?);
    }
  }

  /** Both maps written at this key, and one of them perhaps pruned: they agree exactly when one bucket was written. */
  lemma WrittenAgree(kept: Buckets, all: Buckets, key: string, b: Bucket, c: Bucket, now: int, prunes: bool)
    requires Agree(kept, all) && b.at == now
    ensures Agree(if prunes then Forget(kept[key := b], now) else kept[key := b], all[key := c]) <==> b == c
  {
    var written := kept[key := b];
    var left := if prunes then Forget(written, now) else written;
    ForgetAgrees(written, now);
    assert key in left && left[key] == b;
    hide Forget;
  }

  /** The two maps spend alike exactly when nothing was missed. */
  lemma SpendsAlikeIff(perMinute: nat, kept: Buckets, all: Buckets, key: string, now: int)
    requires perMinute >= 1 && AllInRange(perMinute, all) && Agree(kept, all)
    ensures Spend(perMinute, Found(perMinute, kept, key, now), now) == Spend(perMinute, Found(perMinute, all, key, now), now)
      <==> !Missed(perMinute, kept, all, key, now)
  {
    if key !in kept {
      FoundFull(perMinute, kept, key, now);
      if key !in all {
        FoundFull(perMinute, all, key, now);
      } else {
        RefilledInRange(perMinute, all[key], now);
      }
    }
    hide Refilled, RetryAfter, AllInRange;
  }

  datatype Request = Request(key: string, at: int)

  /** A run of requests: the map it leaves, and the verdict on each. */
  function RunAll(perMinute: nat, buckets: Buckets, requests: seq<Request>, prunes: bool): (r: (Buckets, seq<Verdict>))
    ensures |r.1| == |requests|
  {
    if requests == [] then (buckets, [])
    else
      var (before, verdicts) := RunAll(perMinute, buckets, requests[..|requests| - 1], prunes);
      var last := requests[|requests| - 1];
      var (after, verdict) := Admit(perMinute, before, last.key, last.at, prunes);
      (after, verdicts + [verdict])
  }

  function LastTime(from: int, requests: seq<Request>): int {
    if requests == [] then from else requests[|requests| - 1].at
  }

  /** The clock does not go back. */
  predicate InTimeOrder(from: int, requests: seq<Request>) {
    requests != [] ==>
      var front := requests[..|requests| - 1];
      InTimeOrder(from, front) && LastTime(from, front) <= requests[|requests| - 1].at
  }

  lemma {:induction false} RunInRange(perMinute: nat, buckets: Buckets, requests: seq<Request>, prunes: bool)
    requires AllInRange(perMinute, buckets)
    ensures AllInRange(perMinute, RunAll(perMinute, buckets, requests, prunes).0)
    decreases |requests|
  {
    if requests != [] {
      var front, last := requests[..|requests| - 1], requests[|requests| - 1];
      RunInRange(perMinute, buckets, front, prunes);
      AdmitInRange(perMinute, RunAll(perMinute, buckets, front, prunes).0, last.key, last.at, prunes);
    }
  }

  lemma RunOneMore(perMinute: nat, buckets: Buckets, requests: seq<Request>, n: nat, prunes: bool)
    requires n < |requests|
    ensures var before := RunAll(perMinute, buckets, requests[..n], prunes);
      var step := Admit(perMinute, before.0, requests[n].key, requests[n].at, prunes);
      RunAll(perMinute, buckets, requests[..n + 1], prunes) == (step.0, before.1 + [step.1])
  {
    hide Admit;
    assert requests[..n + 1][..n] == requests[..n];
  }

  /** After the first n requests no verdict has told the pruned map from the unpruned one, and no bucket kept does. */
  ghost predicate Unseen(perMinute: nat, kept: Buckets, all: Buckets, requests: seq<Request>, n: nat)
    requires n <= |requests|
  {
    var pruned, plain := RunAll(perMinute, kept, requests[..n], true), RunAll(perMinute, all, requests[..n], false);
    pruned.1 == plain.1 && Agree(pruned.0, plain.0)
  }

  /** Request n finds its bucket forgotten and not full again. */
  ghost predicate MissedAt(perMinute: nat, kept: Buckets, all: Buckets, requests: seq<Request>, n: nat)
    requires n < |requests|
  {
    Missed(perMinute, RunAll(perMinute, kept, requests[..n], true).0, RunAll(perMinute, all, requests[..n], false).0,
           requests[n].key, requests[n].at)
  }

  lemma UnseenStep(perMinute: nat, kept: Buckets, all: Buckets, requests: seq<Request>, n: nat)
    requires AllInRange(perMinute, all) && n < |requests| && Unseen(perMinute, kept, all, requests, n)
    ensures Unseen(perMinute, kept, all, requests, n + 1) <==> !MissedAt(perMinute, kept, all, requests, n)
  {
    hide RunAll, Admit, Agree, Missed, AllInRange;
    var pruned, plain := RunAll(perMinute, kept, requests[..n], true), RunAll(perMinute, all, requests[..n], false);
    RunInRange(perMinute, all, requests[..n], false);
    RunOneMore(perMinute, kept, requests, n, true);
    RunOneMore(perMinute, all, requests, n, false);
    StepShowsIff(perMinute, pruned.0, plain.0, requests[n].key, requests[n].at);
    LastAgrees(pruned.1, Admit(perMinute, pruned.0, requests[n].key, requests[n].at, true).1,
               Admit(perMinute, plain.0, requests[n].key, requests[n].at, false).1);
  }

  lemma LastAgrees(before: seq<Verdict>, a: Verdict, b: Verdict)
    ensures before + [a] == before + [b] <==> a == b
  {
    assert (before + [a])[|before|] == a && (before + [b])[|before|] == b;
  }

  lemma {:induction false} UnseenToIff(perMinute: nat, kept: Buckets, all: Buckets, requests: seq<Request>, n: nat)
    requires AllInRange(perMinute, all) && Agree(kept, all) && n <= |requests|
    ensures (forall i | 0 <= i <= n :: Unseen(perMinute, kept, all, requests, i))
      <==> forall i | 0 <= i < n :: !MissedAt(perMinute, kept, all, requests, i)
    decreases n
  {
    if n == 0 {
      assert Unseen(perMinute, kept, all, requests, 0);
    } else {
      hide AllInRange, Unseen, MissedAt, Agree;
      UnseenToIff(perMinute, kept, all, requests, n - 1);
      if forall i | 0 <= i <= n - 1 :: Unseen(perMinute, kept, all, requests, i) {
        UnseenStep(perMinute, kept, all, requests, n - 1);
      }
    }
  }

  /**
  Over any run, on any clock: pruning shows in no verdict and in no bucket kept, at any point of
  the run, exactly when no request finds its bucket forgotten before it is full again.
  */
  lemma PruningShowsIff(perMinute: nat, kept: Buckets, all: Buckets, requests: seq<Request>)
    requires AllInRange(perMinute, all) && Agree(kept, all)
    ensures (forall n | 0 <= n <= |requests| :: Unseen(perMinute, kept, all, requests, n))
      <==> forall n | 0 <= n < |requests| :: !MissedAt(perMinute, kept, all, requests, n)
  {
    hide *;
    UnseenToIff(perMinute, kept, all, requests, |requests|);
  }

  // ---------------------------------------------------------------- what it takes for pruning to show

  /** The latest the clock has been. */
  function Latest(from: int, requests: seq<Request>): (latest: int)
    ensures latest >= from
  {
    if requests == [] then from
    else
      var before, at := Latest(from, requests[..|requests| - 1]), requests[|requests| - 1].at;
      if at > before then at else before
  }

  /** What was forgotten was idle by then, and what was kept was written when the other was. */
  ghost predicate ForgottenIdle(kept: Buckets, all: Buckets, latest: int) {
    && (forall key :: key in kept ==> key in all && all[key].at == kept[key].at)
    && (forall key :: key in all && key !in kept ==> Idle(all[key], latest))
  }

  lemma ForgottenStep(perMinute: nat, kept: Buckets, all: Buckets, key: string, now: int, latest: int)
    requires ForgottenIdle(kept, all, latest)
    ensures ForgottenIdle(Admit(perMinute, kept, key, now, true).0, Admit(perMinute, all, key, now, false).0,
                          if now > latest then now else latest)
  {
    if perMinute > 0 {
      var b, c := Spend(perMinute, Found(perMinute, kept, key, now), now).0, Spend(perMinute, Found(perMinute, all, key, now), now).0;
      assert b.at == now == c.at;
      hide Spend, Found;
    }
  }

  lemma {:induction false} RunForgetsIdle(perMinute: nat, kept: Buckets, all: Buckets, from: int, requests: seq<Request>, n: nat)
    requires ForgottenIdle(kept, all, from) && n <= |requests|
    ensures ForgottenIdle(RunAll(perMinute, kept, requests[..n], true).0, RunAll(perMinute, all, requests[..n], false).0,
                          Latest(from, requests[..n]))
    decreases n
  {
    if n == 0 {
      hide ForgottenIdle;
    } else {
      hide *;
      RunForgetsIdle(perMinute, kept, all, from, requests, n - 1);
      RunOneMore(perMinute, kept, requests, n - 1, true);
      RunOneMore(perMinute, all, requests, n - 1, false);
      LatestStep(from, requests, n - 1);
      ForgottenStep(perMinute, RunAll(perMinute, kept, requests[..n - 1], true).0,
                    RunAll(perMinute, all, requests[..n - 1], false).0, requests[n - 1].key, requests[n - 1].at,
                    Latest(from, requests[..n - 1]));
    }
  }

  lemma LatestStep(from: int, requests: seq<Request>, n: nat)
    requires n < |requests|
    ensures Latest(from, requests[..n + 1]) ==
      if requests[n].at > Latest(from, requests[..n]) then requests[n].at else Latest(from, requests[..n])
  {
    assert requests[..n + 1][..n] == requests[..n];
  }

  /** A bucket is missed only by a request dated before one already served: the clock has gone back. */
  lemma MissedGoesBack(perMinute: nat, kept: Buckets, all: Buckets, from: int, requests: seq<Request>, n: nat)
    requires AllInRange(perMinute, all) && ForgottenIdle(kept, all, from) && n < |requests|
    requires MissedAt(perMinute, kept, all, requests, n)
    ensures requests[n].at < Latest(from, requests[..n])
  {
    var pruned, plain := RunAll(perMinute, kept, requests[..n], true).0, RunAll(perMinute, all, requests[..n], false).0;
    RunInRange(perMinute, all, requests[..n], false);
    RunForgetsIdle(perMinute, kept, all, from, requests, n);
    var key, now := requests[n].key, requests[n].at;
    hide RunAll, Latest;
    if Idle(plain[key], now) {
      IdleIsFull(perMinute, plain[key], now);
    }
    hide Refilled;
  }

  /** Nor is one missed while the map is small: below the size it is pruned at, nothing is forgotten. */
  lemma {:induction false} SmallMapKeepsAll(perMinute: nat, buckets: Buckets, requests: seq<Request>, n: nat)
    requires n <= |requests| && |RunAll(perMinute, buckets, requests[..n], false).0| < PRUNE_FROM
    ensures RunAll(perMinute, buckets, requests[..n], true) == RunAll(perMinute, buckets, requests[..n], false)
    decreases n
  {
    if n > 0 {
      RunOneMore(perMinute, buckets, requests, n - 1, true);
      RunOneMore(perMinute, buckets, requests, n - 1, false);
      var before := RunAll(perMinute, buckets, requests[..n - 1], false).0;
      hide RunAll, Admit;
      MapGrows(perMinute, before, requests[n - 1].key, requests[n - 1].at);
      SmallMapKeepsAll(perMinute, buckets, requests, n - 1);
      SmallKeeps(perMinute, before, requests[n - 1].key, requests[n - 1].at);
    }
  }

  lemma SmallKeeps(perMinute: nat, buckets: Buckets, key: string, now: int)
    requires |Admit(perMinute, buckets, key, now, false).0| < PRUNE_FROM
    ensures Admit(perMinute, buckets, key, now, true) == Admit(perMinute, buckets, key, now, false)
  {
    hide Spend, Found;
  }

  lemma MapGrows(perMinute: nat, buckets: Buckets, key: string, now: int)
    ensures |buckets| <= |Admit(perMinute, buckets, key, now, false).0|
  {
    hide Spend, Found;
  }

  lemma {:induction false} LatestIsLast(from: int, requests: seq<Request>)
    requires InTimeOrder(from, requests)
    ensures Latest(from, requests) == LastTime(from, requests)
    decreases |requests|
  {
    if requests != [] {
      LatestIsLast(from, requests[..|requests| - 1]);
    }
  }

  lemma {:induction false} PrefixInTimeOrder(from: int, requests: seq<Request>, n: nat)
    requires InTimeOrder(from, requests) && n <= |requests|
    ensures InTimeOrder(from, requests[..n])
    ensures n < |requests| ==> LastTime(from, requests[..n]) <= requests[n].at
    decreases |requests|
  {
    var m := |requests| - 1;
    if n == |requests| {
      assert requests[..n] == requests;
    } else if n < m {
      PrefixInTimeOrder(from, requests[..m], n);
      assert requests[..m][..n] == requests[..n];
    }
  }

  /** So over every run on a clock that does not go back, the pruned map answers as an unpruned one would. */
  lemma {:induction false} PruningNeverShows(perMinute: nat, kept: Buckets, all: Buckets, now: int, requests: seq<Request>)
    requires AllInRange(perMinute, all) && Pruned(kept, all, now) && InTimeOrder(now, requests)
    ensures RunAll(perMinute, kept, requests, true).1 == RunAll(perMinute, all, requests, false).1
    ensures Pruned(RunAll(perMinute, kept, requests, true).0, RunAll(perMinute, all, requests, false).0, LastTime(now, requests))
  {
    hide RunAll, InTimeOrder, LastTime, Latest, MissedAt, AllInRange;
    forall n | 0 <= n < |requests|
      ensures !MissedAt(perMinute, kept, all, requests, n)
    {
      PrefixInTimeOrder(now, requests, n);
      LatestIsLast(now, requests[..n]);
      if MissedAt(perMinute, kept, all, requests, n) {
        MissedGoesBack(perMinute, kept, all, now, requests, n);
      }
    }
    PruningShowsIff(perMinute, kept, all, requests);
    assert Unseen(perMinute, kept, all, requests, |requests|);
    RunForgetsIdle(perMinute, kept, all, now, requests, |requests|);
    LatestIsLast(now, requests);
    assert requests[..|requests|] == requests;
  }

  // ---------------------------------------------------------------- one key of a run

  function TimesOf(requests: seq<Request>, key: string): seq<int> {
    if requests == [] then []
    else
      var last := requests[|requests| - 1];
      TimesOf(requests[..|requests| - 1], key) + if last.key == key then [last.at] else []
  }

  /** How many of a key's requests were admitted. */
  function AdmittedTo(requests: seq<Request>, verdicts: seq<Verdict>, key: string): nat
    requires |verdicts| == |requests|
  {
    if requests == [] then 0
    else
      var n := |requests| - 1;
      AdmittedTo(requests[..n], verdicts[..n], key) + if requests[n].key == key && verdicts[n].Admitted? then 1 else 0
  }

  /** The bucket a key starts a run with: its own, or a full one. */
  predicate StartsWith(perMinute: nat, buckets: Buckets, key: string, b: Bucket) {
    if key in buckets then b == buckets[key] else b.tokens == perMinute as real
  }

  /** In an unpruned map each key is served as if it were alone. */
  lemma {:induction false} KeysDoNotMeet(perMinute: nat, buckets: Buckets, requests: seq<Request>, key: string, b: Bucket)
    requires perMinute >= 1 && StartsWith(perMinute, buckets, key, b)
    ensures var (after, verdicts) := RunAll(perMinute, buckets, requests, false);
      var times := TimesOf(requests, key);
      && AdmittedTo(requests, verdicts, key) == Spree(perMinute, b, times).1
      && StartsWith(perMinute, after, key, Spree(perMinute, b, times).0)
      && (key in after <==> key in buckets || times != [])
    decreases |requests|
  {
    if requests != [] {
      hide Found, Spend, StartsWith, Admit;
      var n := |requests| - 1;
      var front, last := requests[..n], requests[n];
      KeysDoNotMeet(perMinute, buckets, front, key, b);
      var (before, verdicts) := RunAll(perMinute, buckets, front, false);
      var times := TimesOf(front, key);
      OneMore(perMinute, before, last, key, Spree(perMinute, b, times).0);
      RunStep(perMinute, buckets, requests);
      TimesStep(requests, key);
      CountStep(requests, RunAll(perMinute, buckets, requests, false).1, key);
      SpreeStep(perMinute, b, times, last.at);
      hide RunAll, TimesOf, AdmittedTo, Spree;
    }
  }

  lemma RunStep(perMinute: nat, buckets: Buckets, requests: seq<Request>)
    requires requests != []
    ensures var n := |requests| - 1;
      var before := RunAll(perMinute, buckets, requests[..n], false);
      var step := Admit(perMinute, before.0, requests[n].key, requests[n].at, false);
      var after := RunAll(perMinute, buckets, requests, false);
      after.0 == step.0 && after.1[..n] == before.1 && after.1[n] == step.1
  {
    hide Admit;
  }

  lemma TimesStep(requests: seq<Request>, key: string)
    requires requests != []
    ensures var n := |requests| - 1;
      TimesOf(requests, key)
        == if requests[n].key == key then TimesOf(requests[..n], key) + [requests[n].at] else TimesOf(requests[..n], key)
  {
    ConcatUnit(TimesOf(requests[..|requests| - 1], key));
  }

  lemma CountStep(requests: seq<Request>, verdicts: seq<Verdict>, key: string)
    requires requests != [] && |verdicts| == |requests|
    ensures var n := |requests| - 1;
      AdmittedTo(requests, verdicts, key)
        == AdmittedTo(requests[..n], verdicts[..n], key) + if requests[n].key == key && verdicts[n].Admitted? then 1 else 0
  {
  }

  lemma SpreeStep(perMinute: nat, b: Bucket, times: seq<int>, at: int)
    requires perMinute >= 1
    ensures var before := Spree(perMinute, b, times);
      var step := Spend(perMinute, before.0, at);
      Spree(perMinute, b, times + [at]) == (step.0, before.1 + if step.1.Admitted? then 1 else 0)
  {
    hide Spend;
    assert (times + [at])[..|times|] == times;
  }

  /** One request leaves every other key as it was, and serves its own as its bucket says. */
  lemma OneMore(perMinute: nat, buckets: Buckets, last: Request, key: string, b: Bucket)
    requires perMinute >= 1 && StartsWith(perMinute, buckets, key, b)
    ensures var (after, verdict) := Admit(perMinute, buckets, last.key, last.at, false);
      && (last.key != key ==> StartsWith(perMinute, after, key, b) && (key in after <==> key in buckets))
      && (last.key == key ==>
        && verdict == Spend(perMinute, b, last.at).1
        && StartsWith(perMinute, after, key, Spend(perMinute, b, last.at).0) && key in after)
  {
    FoundOrFull(perMinute, buckets, key, b, last.at);
    hide Found, Spend;
  }

  lemma FoundOrFull(perMinute: nat, buckets: Buckets, key: string, b: Bucket, now: int)
    requires perMinute >= 1 && StartsWith(perMinute, buckets, key, b)
    ensures Spend(perMinute, Found(perMinute, buckets, key, now), now) == Spend(perMinute, b, now)
  {
    Product(Elapsed(b.at, now), RefillPerMs(perMinute));
  }

  lemma {:induction false} TimesInOrder(from: int, requests: seq<Request>, key: string)
    requires InTimeOrder(from, requests)
    ensures NonDecreasing(from, TimesOf(requests, key))
    ensures LastOf(from, TimesOf(requests, key)) <= LastTime(from, requests)
    decreases |requests|
  {
    if requests != [] {
      var n := |requests| - 1;
      TimesInOrder(from, requests[..n], key);
      var times := TimesOf(requests[..n], key);
      assert (times + [requests[n].at])[..|times|] == times;
      ConcatUnit(times);
    }
  }

  lemma {:induction false} FromFirst(from: int, requests: seq<Request>)
    requires InTimeOrder(from, requests)
    ensures from <= LastTime(from, requests)
    ensures requests != [] ==> from <= requests[0].at && InTimeOrder(requests[0].at, requests)
    decreases |requests|
  {
    if requests != [] {
      FromFirst(from, requests[..|requests| - 1]);
    }
  }

  /** Any stretch of W ms of any run, pruning included, admits a key at most the capacity and what W ms earn. */
  lemma AdmittedWithin(perMinute: nat, buckets: Buckets, from: int, requests: seq<Request>, key: string, window: nat)
    requires perMinute >= 1 && AllInRange(perMinute, buckets) && InTimeOrder(from, requests)
    requires key in buckets ==> buckets[key].at <= from
    requires requests != [] && LastTime(from, requests) - requests[0].at <= window
    ensures AdmittedTo(requests, RunAll(perMinute, buckets, requests, true).1, key) as real
      <= perMinute as real + Earned(perMinute, window)
  {
    PruningNeverShows(perMinute, buckets, buckets, from, requests);
    var b := if key in buckets then buckets[key] else Bucket(perMinute as real, from);
    KeysDoNotMeet(perMinute, buckets, requests, key, b);
    FromFirst(from, requests);
    hide Spree, RunAll, Earned, InTimeOrder, NonDecreasing, TimesOf, AdmittedTo;
    TimesInOrder(requests[0].at, requests, key);
    var times := TimesOf(requests, key);
    if times == [] {
      NothingAsked(perMinute, b, window);
    } else {
      Bounds(requests[0].at, times);
      EarlierStart(b.at, requests[0].at, times);
      WindowBound(perMinute, b, times, window);
    }
  }

  lemma {:induction false} EarlierStart(earlier: int, from: int, times: seq<int>)
    requires NonDecreasing(from, times) && earlier <= from
    ensures NonDecreasing(earlier, times)
    decreases |times|
  {
    if times != [] {
      EarlierStart(earlier, from, times[..|times| - 1]);
    }
  }

  lemma NothingAsked(perMinute: nat, b: Bucket, window: nat)
    requires perMinute >= 1
    ensures Spree(perMinute, b, []).1 as real <= perMinute as real + Earned(perMinute, window)
  {
    EarnedAdds(perMinute, window, 0);
  }

  // ---------------------------------------------------------------- a clock that goes back

  /** As many keys as one likes. */
  function Name(n: nat): string {
    seq(n, i => 'k')
  }

  /** One client spends a whole bucket in one instant. */
  function Burst(n: nat): seq<Request> {
    if n == 0 then [] else Burst(n - 1) + [Request(Name(0), 0)]
  }

  /** And n other clients ask once, in that instant. */
  function Crowd(perMinute: nat, n: nat): seq<Request> {
    if n == 0 then Burst(perMinute) else Crowd(perMinute, n - 1) + [Request(Name(n), 0)]
  }

  lemma RunThen(perMinute: nat, requests: seq<Request>, r: Request, prunes: bool)
    ensures var before := RunAll(perMinute, map[], requests, prunes);
      var step := Admit(perMinute, before.0, r.key, r.at, prunes);
      RunAll(perMinute, map[], requests + [r], prunes) == (step.0, before.1 + [step.1])
  {
    hide Admit;
    assert (requests + [r])[..|requests|] == requests;
  }

  lemma NothingRefilled(perMinute: nat, b: Bucket)
    requires InRange(perMinute, b)
    ensures Refilled(perMinute, b, b.at) == b.tokens
  {
    assert Elapsed(b.at, b.at) as real * RefillPerMs(perMinute) == 0.0;
  }

  lemma {:induction false} AfterBurst(perMinute: nat, n: nat, prunes: bool)
    requires 1 <= n <= perMinute
    ensures RunAll(perMinute, map[], Burst(n), prunes).0 == map[Name(0) := Bucket((perMinute - n) as real, 0)]
    decreases n
  {
    var before := RunAll(perMinute, map[], Burst(n - 1), prunes).0;
    assert n == 1 ==> before == map[];
    assert Burst(n) == Burst(n - 1) + [Request(Name(0), 0)];
    hide *;
    RunThen(perMinute, Burst(n - 1), Request(Name(0), 0), prunes);
    if n > 1 {
      AfterBurst(perMinute, n - 1, prunes);
    }
    OneMoreSpent(perMinute, before, Name(0), perMinute - (n - 1), prunes);
  }

  lemma OneMoreSpent(perMinute: nat, buckets: Buckets, key: string, tokens: nat, prunes: bool)
    requires 1 <= tokens <= perMinute
    requires if buckets == map[] then tokens == perMinute else buckets == map[key := Bucket(tokens as real, 0)]
    ensures Admit(perMinute, buckets, key, 0, prunes).0 == map[key := Bucket((tokens - 1) as real, 0)]
  {
    NothingRefilled(perMinute, Bucket(tokens as real, 0));
    hide Refilled;
    var b := Bucket(tokens as real - 1.0, 0);
    assert buckets[key := b] == map[key := b];
  }

  /** The map such a crowd leaves: n + 1 keys, the first without a token, all written at the same instant. */
  predicate Crowded(buckets: Buckets, n: nat) {
    && Name(0) in buckets && buckets[Name(0)] == Bucket(0.0, 0)
    && |buckets| == n + 1
    && forall key :: key in buckets ==> |key| <= n && buckets[key].at == 0
  }

  lemma {:induction false} AfterCrowd(perMinute: nat, n: nat, prunes: bool)
    requires perMinute >= 1
    ensures Crowded(RunAll(perMinute, map[], Crowd(perMinute, n), prunes).0, n)
    decreases n
  {
    if n == 0 {
      AfterBurst(perMinute, perMinute, prunes);
    } else {
      AfterCrowd(perMinute, n - 1, prunes);
      RunThen(perMinute, Crowd(perMinute, n - 1), Request(Name(n), 0), prunes);
      OneMoreName(perMinute, RunAll(perMinute, map[], Crowd(perMinute, n - 1), prunes).0, n, prunes);
    }
  }

  lemma OneMoreName(perMinute: nat, buckets: Buckets, n: nat, prunes: bool)
    requires perMinute >= 1 && n >= 1 && Crowded(buckets, n - 1)
    ensures Crowded(Admit(perMinute, buckets, Name(n), 0, prunes).0, n)
  {
    NothingRefilled(perMinute, Bucket(perMinute as real, 0));
    hide Refilled;
    assert |Name(n)| == n && Name(n) !in buckets;
    var spent := buckets[Name(n) := Bucket(perMinute as real - 1.0, 0)];
    assert Forget(spent, 0) == spent;
  }

  /** A later request prunes the crowded map of everyone who was in it; an unpruned map keeps them. */
  lemma LateRequestPrunes(perMinute: nat, buckets: Buckets)
    requires perMinute >= 1 && Crowded(buckets, PRUNE_FROM)
    ensures Name(0) !in Admit(perMinute, buckets, Name(PRUNE_FROM + 1), MILLIS_PER_MINUTE + 1, true).0
  {
    var key, now := Name(PRUNE_FROM + 1), MILLIS_PER_MINUTE + 1;
    FullStaysFull(perMinute, now);
    assert |key| == PRUNE_FROM + 1 && key !in buckets && Name(0) != key;
    hide Refilled, Name;
  }

  lemma LateRequestKeeps(perMinute: nat, buckets: Buckets)
    requires perMinute >= 1 && Crowded(buckets, PRUNE_FROM)
    ensures var after := Admit(perMinute, buckets, Name(PRUNE_FROM + 1), MILLIS_PER_MINUTE + 1, false).0;
      Name(0) in after && after[Name(0)] == Bucket(0.0, 0)
  {
    assert |Name(PRUNE_FROM + 1)| != |Name(0)|;
    hide Spend, Name;
  }

  /** A crowd in one instant, one request more than a minute later, and then one request back in that instant. */
  function BackwardRun(perMinute: nat): seq<Request> {
    Crowd(perMinute, PRUNE_FROM) + [Request(Name(PRUNE_FROM + 1), MILLIS_PER_MINUTE + 1)] + [Request(Name(0), 0)]
  }

  /**
  The clock condition is needed, at every rate: in this run of the guard, whose clock goes back only
  at the last request, that request is admitted because its bucket was pruned, where an unpruned map
  refuses it.
  */
  lemma BackwardClockShows(perMinute: nat)
    requires perMinute >= 1
    ensures var requests := BackwardRun(perMinute); var n := |requests| - 1;
      && n >= 0 && InTimeOrder(0, requests[..n])
      && RunAll(perMinute, map[], requests, true).1[n].Admitted?
      && RunAll(perMinute, map[], requests, false).1[n].Refused?
  {
    BackInOrder(perMinute);
    BackwardVerdict(perMinute, true);
    BackwardVerdict(perMinute, false);
  }

  lemma BackwardVerdict(perMinute: nat, prunes: bool)
    requires perMinute >= 1
    ensures RunAll(perMinute, map[], BackwardRun(perMinute), prunes).1[|BackwardRun(perMinute)| - 1].Admitted? <==> prunes
  {
    var crowd := Crowd(perMinute, PRUNE_FROM);
    var late, back := Request(Name(PRUNE_FROM + 1), MILLIS_PER_MINUTE + 1), Request(Name(0), 0);
    var full := RunAll(perMinute, map[], crowd, prunes).0;
    AfterCrowd(perMinute, PRUNE_FROM, prunes);
    RunThen(perMinute, crowd, late, prunes);
    RunThen(perMinute, crowd + [late], back, prunes);
    LateRequestPrunes(perMinute, full);
    LateRequestKeeps(perMinute, full);
    var pruned := Admit(perMinute, full, late.key, late.at, prunes).0;
    BackAtOnce(perMinute, pruned, prunes);
    hide RunAll, Crowd, Admit, Name, Crowded;
  }

  /** A request at time 0, whose bucket is gone or empty. */
  lemma BackAtOnce(perMinute: nat, buckets: Buckets, prunes: bool)
    requires perMinute >= 1
    requires Name(0) in buckets ==> buckets[Name(0)] == Bucket(0.0, 0)
    ensures Admit(perMinute, buckets, Name(0), 0, prunes).1.Admitted? <==> Name(0) !in buckets
  {
    NothingRefilled(perMinute, Bucket(0.0, 0));
    FullStaysFull(perMinute, 0);
    hide Refilled, Forget, RetryAfter, Name;
  }

  lemma {:induction false} OneMoreInOrder(requests: seq<Request>, r: Request)
    requires InTimeOrder(0, requests) && LastTime(0, requests) <= r.at
    ensures InTimeOrder(0, requests + [r]) && LastTime(0, requests + [r]) == r.at
  {
    assert (requests + [r])[..|requests|] == requests;
  }

  lemma {:induction false} BurstInOrder(n: nat)
    ensures InTimeOrder(0, Burst(n)) && LastTime(0, Burst(n)) == 0
    decreases n
  {
    if n > 0 {
      BurstInOrder(n - 1);
      OneMoreInOrder(Burst(n - 1), Request(Name(0), 0));
      hide InTimeOrder, LastTime, Name;
    }
  }

  lemma {:induction false} CrowdInOrder(perMinute: nat, n: nat)
    ensures InTimeOrder(0, Crowd(perMinute, n)) && LastTime(0, Crowd(perMinute, n)) == 0
    decreases n
  {
    if n == 0 {
      BurstInOrder(perMinute);
    } else {
      CrowdInOrder(perMinute, n - 1);
      OneMoreInOrder(Crowd(perMinute, n - 1), Request(Name(n), 0));
      hide InTimeOrder, LastTime, Name;
    }
  }

  lemma BackInOrder(perMinute: nat)
    ensures var requests := BackwardRun(perMinute);
      requests != [] && InTimeOrder(0, requests[..|requests| - 1])
  {
    var crowd := Crowd(perMinute, PRUNE_FROM);
    var late := Request(Name(PRUNE_FROM + 1), MILLIS_PER_MINUTE + 1);
    CrowdInOrder(perMinute, PRUNE_FROM);
    hide Crowd, Name;
    var requests := BackwardRun(perMinute);
    assert requests[..|requests| - 1] == crowd + [late];
    OneMoreInOrder(crowd, late);
    hide InTimeOrder, LastTime;
  }
}
