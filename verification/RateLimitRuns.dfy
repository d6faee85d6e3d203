/**
Exactly which requests the limiter lets through (apps/api/src/rateLimit.guard.ts): one is admitted
when, and only when, no stretch of its client's requests that ends with it would exceed the capacity
and what the stretch has earned.
*/
module RateLimitRuns {
  import opened Prelude
  import opened RateLimits

  // ---------------------------------------------------------------- one client, on any clock

  /** How far the clock has climbed over these times; a step back adds nothing. */
  function Climb(from: int, times: seq<int>): nat {
    if times == [] then 0
    else
      var front := times[..|times| - 1];
      Climb(from, front) + Elapsed(LastOf(from, front), times[|times| - 1])
  }

  /** The climb through the first n requests. */
  function Climbed(b: Bucket, times: seq<int>, n: nat): nat
    requires n <= |times|
  {
    Climb(b.at, times[..n])
  }

  /** How many of the first n requests were admitted. */
  function Taken(perMinute: nat, b: Bucket, times: seq<int>, n: nat): nat
    requires perMinute >= 1 && n <= |times|
  {
    Spree(perMinute, b, times[..n]).1
  }

  /** Whether request n is admitted after the ones before it. */
  predicate Passes(perMinute: nat, b: Bucket, times: seq<int>, n: nat)
    requires perMinute >= 1 && n < |times|
  {
    Spend(perMinute, Spree(perMinute, b, times[..n]).0, times[n]).1.Admitted?
  }

  /** The tokens request n finds. */
  function Level(perMinute: nat, b: Bucket, times: seq<int>, n: nat): real
    requires perMinute >= 1 && n < |times|
  {
    Refilled(perMinute, Spree(perMinute, b, times[..n]).0, times[n])
  }

  function Capped(perMinute: nat, tokens: real): real {
    if tokens > perMinute as real then perMinute as real else tokens
  }

  lemma {:induction false} WrittenLast(perMinute: nat, b: Bucket, times: seq<int>)
    requires perMinute >= 1
    ensures Spree(perMinute, b, times).0.at == LastOf(b.at, times)
  {
    hide Refilled;
  }

  lemma {:induction false} ClimbStep(b: Bucket, times: seq<int>, n: nat)
    requires n < |times|
    ensures Climbed(b, times, n) <= Climbed(b, times, n + 1)
    ensures Climbed(b, times, n + 1) - Climbed(b, times, n) == Elapsed(LastOf(b.at, times[..n]), times[n])
  {
    assert times[..n + 1][..n] == times[..n];
  }

  lemma {:induction false} TakenStep(perMinute: nat, b: Bucket, times: seq<int>, n: nat)
    requires perMinute >= 1 && n < |times|
    ensures Passes(perMinute, b, times, n) <==> Level(perMinute, b, times, n) >= 1.0
    ensures Taken(perMinute, b, times, n + 1) ==
      Taken(perMinute, b, times, n) + if Passes(perMinute, b, times, n) then 1 else 0
    ensures Spree(perMinute, b, times[..n + 1]).0 ==
      Bucket(Level(perMinute, b, times, n) - if Passes(perMinute, b, times, n) then 1.0 else 0.0, times[n])
  {
    hide Refilled;
    assert times[..n + 1][..n] == times[..n];
  }

  lemma {:induction false} ClimbGrows(b: Bucket, times: seq<int>, i: nat, n: nat)
    requires i <= n <= |times|
    ensures Climbed(b, times, i) <= Climbed(b, times, n)
    decreases n
  {
    if i < n {
      hide Climbed;
      ClimbGrows(b, times, i, n - 1);
      ClimbStep(b, times, n - 1);
    }
  }

  function ClimbBetween(b: Bucket, times: seq<int>, i: nat, n: nat): nat
    requires i <= n <= |times|
  {
    ClimbGrows(b, times, i, n);
    Climbed(b, times, n) - Climbed(b, times, i)
  }

  lemma ClimbNothing(perMinute: nat, b: Bucket, times: seq<int>)
    requires perMinute >= 1
    ensures Climbed(b, times, 0) == 0 && Taken(perMinute, b, times, 0) == 0
    ensures Spree(perMinute, b, times[..0]) == (b, 0)
  {
  }

  /** A refill, from what was left and the time since. */
  lemma RefillIs(perMinute: nat, b: Bucket, now: int)
    ensures Refilled(perMinute, b, now) == Capped(perMinute, b.tokens + Earned(perMinute, Elapsed(b.at, now)))
  {
    hide RefillPerMs;
  }

  /** What the first request finds. */
  lemma FirstLevel(perMinute: nat, b: Bucket, times: seq<int>)
    requires perMinute >= 1 && times != []
    ensures Level(perMinute, b, times, 0) == Capped(perMinute, b.tokens + Earned(perMinute, Climbed(b, times, 1)))
  {
    ClimbNothing(perMinute, b, times);
    ClimbStep(b, times, 0);
    RefillIs(perMinute, b, times[0]);
    hide Spree, Earned, Refilled, Capped;
  }

  /** What the next request finds: what this one left and the clock has earned since, up to the brim. */
  lemma {:induction false} LevelStep(perMinute: nat, b: Bucket, times: seq<int>, n: nat)
    requires perMinute >= 1 && 0 < n < |times|
    ensures Level(perMinute, b, times, n) == Capped(perMinute,
      Level(perMinute, b, times, n - 1)
      - (Taken(perMinute, b, times, n) - Taken(perMinute, b, times, n - 1)) as real
      + Earned(perMinute, ClimbBetween(b, times, n, n + 1)))
  {
    WrittenLast(perMinute, b, times[..n]);
    ClimbStep(b, times, n);
    TakenStep(perMinute, b, times, n - 1);
    RefillIs(perMinute, Spree(perMinute, b, times[..n]).0, times[n]);
    hide Spree, Earned, Refilled, Capped, Taken, Passes, Climbed;
  }

  /** What is left for request n of a full bucket found by request i. */
  ghost function FromFull(perMinute: nat, b: Bucket, times: seq<int>, i: nat, n: nat): real
    requires perMinute >= 1 && i <= n < |times|
  {
    perMinute as real + Earned(perMinute, ClimbBetween(b, times, i + 1, n + 1))
      - (Taken(perMinute, b, times, n) - Taken(perMinute, b, times, i)) as real
  }

  /** What is left for request n of the bucket the run starts with. */
  ghost function FromStart(perMinute: nat, b: Bucket, times: seq<int>, n: nat): real
    requires perMinute >= 1 && n < |times|
  {
    b.tokens + Earned(perMinute, Climbed(b, times, n + 1)) - Taken(perMinute, b, times, n) as real
  }

  /** One more request takes the same from each of these. */
  lemma {:induction false} LeftStep(perMinute: nat, b: Bucket, times: seq<int>, i: nat, n: nat)
    requires perMinute >= 1 && 0 < n < |times| && i < n
    ensures var taken := (Taken(perMinute, b, times, n) - Taken(perMinute, b, times, n - 1)) as real;
      var earned := Earned(perMinute, ClimbBetween(b, times, n, n + 1));
      && FromFull(perMinute, b, times, i, n) == FromFull(perMinute, b, times, i, n - 1) - taken + earned
      && FromStart(perMinute, b, times, n) == FromStart(perMinute, b, times, n - 1) - taken + earned
  {
    ClimbGrows(b, times, i + 1, n);
    ClimbGrows(b, times, n, n + 1);
    EarnedAdds(perMinute, ClimbBetween(b, times, i + 1, n), ClimbBetween(b, times, n, n + 1));
    EarnedAdds(perMinute, Climbed(b, times, n), ClimbBetween(b, times, n, n + 1));
    hide Climbed, Taken, Earned;
  }

  lemma FullNow(perMinute: nat, b: Bucket, times: seq<int>, n: nat)
    requires perMinute >= 1 && n < |times|
    ensures FromFull(perMinute, b, times, n, n) == perMinute as real
  {
    hide Taken, Climbed;
  }

  /** The tokens a request finds are the least of these, and one of them. */
  ghost predicate LeastOf(perMinute: nat, b: Bucket, times: seq<int>, n: nat)
    requires perMinute >= 1 && n < |times|
  {
    var level := Level(perMinute, b, times, n);
    && (forall i :: 0 <= i <= n ==> level <= FromFull(perMinute, b, times, i, n))
    && level <= FromStart(perMinute, b, times, n)
    && (level == FromStart(perMinute, b, times, n)
      || exists i :: 0 <= i <= n && level == FromFull(perMinute, b, times, i, n))
  }

  lemma {:induction false} LevelIsLeast(perMinute: nat, b: Bucket, times: seq<int>, n: nat)
    requires perMinute >= 1 && n < |times|
    ensures LeastOf(perMinute, b, times, n)
    decreases n
  {
    FullNow(perMinute, b, times, n);
    ClimbNothing(perMinute, b, times);
    if n == 0 {
      FirstLevel(perMinute, b, times);
    } else {
      LevelStep(perMinute, b, times, n);
    }
    hide Level, FromFull, Taken, Climbed, Earned;
    if n > 0 {
      LevelIsLeast(perMinute, b, times, n - 1);
      forall i | 0 <= i < n
        ensures var taken := (Taken(perMinute, b, times, n) - Taken(perMinute, b, times, n - 1)) as real;
          var earned := Earned(perMinute, ClimbBetween(b, times, n, n + 1));
          && FromFull(perMinute, b, times, i, n) == FromFull(perMinute, b, times, i, n - 1) - taken + earned
          && FromStart(perMinute, b, times, n) == FromStart(perMinute, b, times, n - 1) - taken + earned
      {
        LeftStep(perMinute, b, times, i, n);
      }
      LeftStep(perMinute, b, times, 0, n);
      hide FromStart;
      LeastStep(perMinute, b, times, n);
    }
  }

  lemma LeastStep(perMinute: nat, b: Bucket, times: seq<int>, n: nat)
    requires perMinute >= 1 && 0 < n < |times| && LeastOf(perMinute, b, times, n - 1)
    requires FromFull(perMinute, b, times, n, n) == perMinute as real
    requires var spent := (Taken(perMinute, b, times, n) - Taken(perMinute, b, times, n - 1)) as real
        - Earned(perMinute, ClimbBetween(b, times, n, n + 1));
      && Level(perMinute, b, times, n) == Capped(perMinute, Level(perMinute, b, times, n - 1) - spent)
      && (forall i :: 0 <= i < n ==>
        FromFull(perMinute, b, times, i, n) == FromFull(perMinute, b, times, i, n - 1) - spent)
      && FromStart(perMinute, b, times, n) == FromStart(perMinute, b, times, n - 1) - spent
    ensures LeastOf(perMinute, b, times, n)
  {
    hide Level, FromFull, FromStart, Taken, Climbed, Earned;
    var level, before := Level(perMinute, b, times, n), Level(perMinute, b, times, n - 1);
    if level == perMinute as real {
      assert level == FromFull(perMinute, b, times, n, n);
    } else if before != FromStart(perMinute, b, times, n - 1) {
      var i :| 0 <= i <= n - 1 && before == FromFull(perMinute, b, times, i, n - 1);
      assert level == FromFull(perMinute, b, times, i, n);
    }
  }

  /** No stretch that ends with request n, itself included, exceeds the capacity and what the stretch has earned. */
  ghost predicate Affordable(perMinute: nat, b: Bucket, times: seq<int>, n: nat)
    requires perMinute >= 1 && n < |times|
  {
    forall i :: 0 <= i <= n ==>
      (Taken(perMinute, b, times, n) - Taken(perMinute, b, times, i) + 1) as real
        <= perMinute as real + Earned(perMinute, ClimbBetween(b, times, i + 1, n + 1))
  }

  /** Nor does everything so far exceed what the first bucket held and the clock has added. */
  ghost predicate Covered(perMinute: nat, b: Bucket, times: seq<int>, n: nat)
    requires perMinute >= 1 && n < |times|
  {
    (Taken(perMinute, b, times, n) + 1) as real <= b.tokens + Earned(perMinute, Climbed(b, times, n + 1))
  }

  /** One client's request on any clock, out of any bucket: exactly when it is admitted. */
  lemma {:induction false} PassesIff(perMinute: nat, b: Bucket, times: seq<int>, n: nat)
    requires perMinute >= 1 && n < |times|
    ensures Passes(perMinute, b, times, n) <==>
      Affordable(perMinute, b, times, n) && Covered(perMinute, b, times, n)
  {
    TakenStep(perMinute, b, times, n);
    LevelIsLeast(perMinute, b, times, n);
    hide Level, Taken, Climbed, Earned, Passes;
    var level := Level(perMinute, b, times, n);
    if level >= 1.0 {
      forall i | 0 <= i <= n
        ensures (Taken(perMinute, b, times, n) - Taken(perMinute, b, times, i) + 1) as real
          <= perMinute as real + Earned(perMinute, ClimbBetween(b, times, i + 1, n + 1))
      {
        assert level <= FromFull(perMinute, b, times, i, n);
      }
    } else if level != FromStart(perMinute, b, times, n) {
      var i :| 0 <= i <= n && level == FromFull(perMinute, b, times, i, n);
      assert !Affordable(perMinute, b, times, n);
    }
  }

  // ---------------------------------------------------------------- every request of one client

  /** The requests i to n are no more than the capacity and what the clock earned between them. */
  predicate FitsBetween(perMinute: nat, b: Bucket, times: seq<int>, i: nat, n: nat)
    requires i <= n < |times|
  {
    (n - i + 1) as real <= perMinute as real + Earned(perMinute, ClimbBetween(b, times, i + 1, n + 1))
  }

  /** The first n + 1 requests are no more than what the first bucket held and the clock has added. */
  predicate FitsFrom(perMinute: nat, b: Bucket, times: seq<int>, n: nat)
    requires n < |times|
  {
    (n + 1) as real <= b.tokens + Earned(perMinute, Climbed(b, times, n + 1))
  }

  ghost predicate UnderTheRate(perMinute: nat, b: Bucket, times: seq<int>) {
    && (forall i, n :: 0 <= i <= n < |times| ==> FitsBetween(perMinute, b, times, i, n))
    && (forall n :: 0 <= n < |times| ==> FitsFrom(perMinute, b, times, n))
  }

  ghost predicate AllPass(perMinute: nat, b: Bucket, times: seq<int>)
    requires perMinute >= 1
  {
    forall n :: 0 <= n < |times| ==> Passes(perMinute, b, times, n)
  }

  lemma {:induction false} TakenAtMost(perMinute: nat, b: Bucket, times: seq<int>, i: nat, n: nat)
    requires perMinute >= 1 && i <= n <= |times|
    ensures 0 <= Taken(perMinute, b, times, n) - Taken(perMinute, b, times, i) <= n - i
    ensures (forall k :: i <= k < n ==> Passes(perMinute, b, times, k)) ==>
      Taken(perMinute, b, times, n) - Taken(perMinute, b, times, i) == n - i
    decreases n
  {
    if i < n {
      TakenAtMost(perMinute, b, times, i, n - 1);
      TakenStep(perMinute, b, times, n - 1);
      hide Taken, Level, Passes;
    }
  }

  lemma {:induction false} AllPassFits(perMinute: nat, b: Bucket, times: seq<int>, i: nat, n: nat)
    requires perMinute >= 1 && AllPass(perMinute, b, times) && i <= n < |times|
    ensures FitsBetween(perMinute, b, times, i, n) && FitsFrom(perMinute, b, times, n)
  {
    hide Passes, Taken, Climbed, Earned;
    PassesIff(perMinute, b, times, n);
    ClimbNothing(perMinute, b, times);
    TakenAtMost(perMinute, b, times, 0, n);
    TakenAtMost(perMinute, b, times, i, n);
  }

  lemma {:induction false} FittingPasses(perMinute: nat, b: Bucket, times: seq<int>, n: nat)
    requires perMinute >= 1 && UnderTheRate(perMinute, b, times) && n < |times|
    ensures Passes(perMinute, b, times, n)
  {
    hide Passes, Taken, Climbed, Earned;
    PassesIff(perMinute, b, times, n);
    ClimbNothing(perMinute, b, times);
    TakenAtMost(perMinute, b, times, 0, n);
    assert FitsFrom(perMinute, b, times, n);
    forall i | 0 <= i <= n
      ensures 0 <= Taken(perMinute, b, times, n) - Taken(perMinute, b, times, i) <= n - i
      ensures FitsBetween(perMinute, b, times, i, n)
    {
      TakenAtMost(perMinute, b, times, i, n);
    }
  }

  /**
  On any clock, out of any bucket: a client is never refused exactly when every stretch of its
  requests stays within the capacity and what the clock earns over the stretch.
  */
  lemma {:induction false} NeverRefusedIff(perMinute: nat, b: Bucket, times: seq<int>)
    requires perMinute >= 1
    ensures AllPass(perMinute, b, times) <==> UnderTheRate(perMinute, b, times)
  {
    hide Passes, FitsBetween, FitsFrom;
    if AllPass(perMinute, b, times) {
      forall i, n | 0 <= i <= n < |times|
        ensures FitsBetween(perMinute, b, times, i, n) && FitsFrom(perMinute, b, times, n)
      {
        AllPassFits(perMinute, b, times, i, n);
      }
      forall n | 0 <= n < |times|
        ensures FitsFrom(perMinute, b, times, n)
      {
        AllPassFits(perMinute, b, times, n, n);
      }
    }
    if UnderTheRate(perMinute, b, times) {
      forall n | 0 <= n < |times|
        ensures Passes(perMinute, b, times, n)
      {
        FittingPasses(perMinute, b, times, n);
      }
    }
  }

  // ---------------------------------------------------------------- on a clock that does not go back

  lemma {:induction false} ClimbForward(from: int, times: seq<int>)
    requires NonDecreasing(from, times)
    ensures Climb(from, times) == LastOf(from, times) - from
    decreases |times|
  {
    if times != [] {
      ClimbForward(from, times[..|times| - 1]);
    }
  }

  lemma {:induction false} PrefixNonDecreasing(from: int, times: seq<int>, n: nat)
    requires NonDecreasing(from, times) && n <= |times|
    ensures NonDecreasing(from, times[..n])
    decreases |times|
  {
    if n == |times| {
      assert times[..n] == times;
    } else {
      PrefixNonDecreasing(from, times[..|times| - 1], n);
      assert times[..|times| - 1][..n] == times[..n];
    }
  }

  /** The climb over a stretch is then the time it took. */
  lemma {:induction false} StretchTakes(b: Bucket, times: seq<int>, i: nat, n: nat)
    requires NonDecreasing(b.at, times) && i <= n < |times|
    ensures times[i] <= times[n] && ClimbBetween(b, times, i + 1, n + 1) == times[n] - times[i]
    ensures b.at <= times[n] && Climbed(b, times, n + 1) == times[n] - b.at
  {
    PrefixNonDecreasing(b.at, times, i + 1);
    PrefixNonDecreasing(b.at, times, n + 1);
    ClimbForward(b.at, times[..i + 1]);
    ClimbForward(b.at, times[..n + 1]);
    ClimbGrows(b, times, i + 1, n + 1);
  }

  /** Out of a full bucket the stretches alone decide. */
  lemma {:induction false} CoveredWhenFull(perMinute: nat, b: Bucket, times: seq<int>, n: nat)
    requires perMinute >= 1 && n < |times| && b.tokens == perMinute as real
    ensures Affordable(perMinute, b, times, n) ==> Covered(perMinute, b, times, n)
  {
    if Affordable(perMinute, b, times, n) {
      ClimbNothing(perMinute, b, times);
      ClimbGrows(b, times, 0, 1);
      ClimbGrows(b, times, 1, n + 1);
      hide Climbed, Taken, Earned;
      EarnedAdds(perMinute, Climbed(b, times, 1), ClimbBetween(b, times, 1, n + 1));
      assert (Taken(perMinute, b, times, n) - Taken(perMinute, b, times, 0) + 1) as real
        <= perMinute as real + Earned(perMinute, ClimbBetween(b, times, 1, n + 1));
    }
  }

  // ---------------------------------------------------------------- one client among the others

  /** The place of request n among its key's. */
  function Place(requests: seq<Request>, key: string, n: nat): nat
    requires n <= |requests|
  {
    |TimesOf(requests[..n], key)|
  }

  lemma {:induction false} PlaceStep(requests: seq<Request>, key: string, n: nat)
    requires n < |requests|
    ensures Place(requests, key, n + 1) == Place(requests, key, n) + if requests[n].key == key then 1 else 0
    ensures TimesOf(requests[..n], key) <= TimesOf(requests[..n + 1], key)
    ensures requests[n].key == key ==> TimesOf(requests[..n + 1], key)[Place(requests, key, n)] == requests[n].at
  {
    assert requests[..n + 1][..n] == requests[..n];
  }

  lemma {:induction false} TimesPrefix(requests: seq<Request>, key: string, i: nat, n: nat)
    requires i <= n <= |requests|
    ensures Place(requests, key, i) <= Place(requests, key, n)
    ensures TimesOf(requests[..i], key) == TimesOf(requests[..n], key)[..Place(requests, key, i)]
    decreases n
  {
    if i < n {
      TimesPrefix(requests, key, i, n - 1);
      PlaceStep(requests, key, n - 1);
      hide TimesOf;
      var front, all := TimesOf(requests[..n - 1], key), TimesOf(requests[..n], key);
      assert front == all[..|front|];
      assert all[..|front|][..Place(requests, key, i)] == all[..Place(requests, key, i)];
    }
  }

  /** The time at request i's place is request i's. */
  lemma {:induction false} PlaceTime(requests: seq<Request>, key: string, i: nat, n: nat)
    requires i < n <= |requests| && requests[i].key == key
    ensures Place(requests, key, i) < Place(requests, key, n)
    ensures TimesOf(requests[..n], key)[Place(requests, key, i)] == requests[i].at
  {
    PlaceStep(requests, key, i);
    TimesPrefix(requests, key, i + 1, n);
    hide TimesOf;
    var all := TimesOf(requests[..n], key);
    assert all[..Place(requests, key, i + 1)][Place(requests, key, i)] == all[Place(requests, key, i)];
  }

  /** Every place below is some request's of that key. */
  lemma {:induction false} PlaceOf(requests: seq<Request>, key: string, n: nat, p: nat) returns (i: nat)
    requires n <= |requests| && p < Place(requests, key, n)
    ensures i < n && requests[i].key == key && Place(requests, key, i) == p
    decreases n
  {
    PlaceStep(requests, key, n - 1);
    hide Place;
    if p < Place(requests, key, n - 1) {
      i := PlaceOf(requests, key, n - 1, p);
    } else {
      i := n - 1;
    }
  }

  /** How many of a key's requests from i up to n were admitted. */
  function AdmittedOver(requests: seq<Request>, verdicts: seq<Verdict>, key: string, i: nat, n: nat): nat
    requires i <= n <= |requests| == |verdicts|
  {
    AdmittedTo(requests[i..n], verdicts[i..n], key)
  }

  lemma {:induction false} AdmittedSplits(requests: seq<Request>, verdicts: seq<Verdict>, key: string, i: nat, n: nat)
    requires i <= n <= |requests| == |verdicts|
    ensures AdmittedOver(requests, verdicts, key, 0, n) ==
      AdmittedOver(requests, verdicts, key, 0, i) + AdmittedOver(requests, verdicts, key, i, n)
    decreases n
  {
    if i < n {
      AdmittedSplits(requests, verdicts, key, i, n - 1);
      AdmittedNext(requests, verdicts, key, 0, n - 1);
      AdmittedNext(requests, verdicts, key, i, n - 1);
      hide AdmittedOver;
    }
  }

  lemma {:induction false} AdmittedNext(requests: seq<Request>, verdicts: seq<Verdict>, key: string, i: nat, n: nat)
    requires i <= n < |requests| == |verdicts|
    ensures AdmittedOver(requests, verdicts, key, i, n + 1) ==
      AdmittedOver(requests, verdicts, key, i, n)
      + if requests[n].key == key && verdicts[n].Admitted? then 1 else 0
  {
    assert requests[i..n + 1][..n - i] == requests[i..n] && verdicts[i..n + 1][..n - i] == verdicts[i..n];
  }

  lemma {:induction false} RunPrefix(perMinute: nat, buckets: Buckets, requests: seq<Request>, n: nat, prunes: bool)
    requires n <= |requests|
    ensures RunAll(perMinute, buckets, requests[..n], prunes).1 == RunAll(perMinute, buckets, requests, prunes).1[..n]
    decreases |requests|
  {
    var verdicts := RunAll(perMinute, buckets, requests, prunes).1;
    if n == |requests| {
      assert requests[..n] == requests && verdicts[..n] == verdicts;
    } else {
      var m := |requests| - 1;
      RunPrefix(perMinute, buckets, requests[..m], n, prunes);
      assert requests[..m][..n] == requests[..n];
      hide Admit;
      assert verdicts[..m] == RunAll(perMinute, buckets, requests[..m], prunes).1;
      assert verdicts[..m][..n] == verdicts[..n];
    }
  }

  /** Counted in the run or in the client's own times, the admitted are the same. */
  lemma {:induction false} CountsAgree(perMinute: nat, buckets: Buckets, requests: seq<Request>, key: string, b: Bucket,
                                      i: nat, n: nat)
    requires perMinute >= 1 && StartsWith(perMinute, buckets, key, b) && i <= n <= |requests|
    ensures Place(requests, key, i) <= Place(requests, key, n)
    ensures AdmittedOver(requests, RunAll(perMinute, buckets, requests, false).1, key, 0, i)
      == Taken(perMinute, b, TimesOf(requests[..n], key), Place(requests, key, i))
  {
    hide RunAll, Spree, AdmittedTo, TimesOf, StartsWith;
    KeysDoNotMeet(perMinute, buckets, requests[..i], key, b);
    RunPrefix(perMinute, buckets, requests, i, false);
    TimesPrefix(requests, key, i, n);
    assert requests[0..i] == requests[..i];
  }

  /** What a key's requests from i through m come to, counting m itself as admitted. */
  predicate Within(perMinute: nat, requests: seq<Request>, verdicts: seq<Verdict>, i: nat, m: nat)
    requires i <= m < |requests| == |verdicts|
  {
    (AdmittedOver(requests, verdicts, requests[m].key, i, m) + 1) as real
      <= perMinute as real + Earned(perMinute, Elapsed(requests[i].at, requests[m].at))
  }

  /** No stretch of the key's requests that ends with m exceeds the capacity and what it earns. */
  ghost predicate WithinTheRate(perMinute: nat, requests: seq<Request>, verdicts: seq<Verdict>, m: nat)
    requires m < |requests| == |verdicts|
  {
    forall i :: 0 <= i <= m && requests[i].key == requests[m].key ==> Within(perMinute, requests, verdicts, i, m)
  }

  /** Nor does the run so far exceed what the key's bucket held and the clock has added since. */
  ghost predicate WithinTheBucket(perMinute: nat, buckets: Buckets, requests: seq<Request>, verdicts: seq<Verdict>, m: nat)
    requires m < |requests| == |verdicts|
  {
    requests[m].key in buckets ==>
      var b := buckets[requests[m].key];
      (AdmittedOver(requests, verdicts, requests[m].key, 0, m) + 1) as real
        <= b.tokens + Earned(perMinute, Elapsed(b.at, requests[m].at))
  }

  /** The verdict on request m is the one on its place among its key's. */
  lemma {:induction false} VerdictAtPlace(perMinute: nat, buckets: Buckets, requests: seq<Request>, b: Bucket, m: nat)
    requires perMinute >= 1 && m < |requests| && StartsWith(perMinute, buckets, requests[m].key, b)
    ensures var key := requests[m].key;
      && Place(requests, key, m) < Place(requests, key, m + 1)
      && (RunAll(perMinute, buckets, requests, false).1[m].Admitted? <==>
        Passes(perMinute, b, TimesOf(requests[..m + 1], key), Place(requests, key, m)))
  {
    hide RunAll, Spree, AdmittedTo, TimesOf, StartsWith, AdmittedOver, Passes, Taken;
    var key, verdicts := requests[m].key, RunAll(perMinute, buckets, requests, false).1;
    var times, p := TimesOf(requests[..m + 1], key), Place(requests, key, m);
    PlaceStep(requests, key, m);
    CountsAgree(perMinute, buckets, requests, key, b, m, m + 1);
    CountsAgree(perMinute, buckets, requests, key, b, m + 1, m + 1);
    AdmittedNext(requests, verdicts, key, 0, m);
    TakenStep(perMinute, b, times, p);
  }

  /** One stretch of the run, and the same stretch of the client's own times. */
  lemma {:induction false} StretchOfRun(perMinute: nat, buckets: Buckets, requests: seq<Request>, b: Bucket, i: nat, m: nat)
    requires perMinute >= 1 && i <= m < |requests| && requests[i].key == requests[m].key
    requires StartsWith(perMinute, buckets, requests[m].key, b)
    requires NonDecreasing(b.at, TimesOf(requests[..m + 1], requests[m].key))
    ensures var key := requests[m].key;
      var times, p, q := TimesOf(requests[..m + 1], key), Place(requests, key, i), Place(requests, key, m);
      && p <= q < |times| && times[p] == requests[i].at && times[q] == requests[m].at
      && (Taken(perMinute, b, times, q) - Taken(perMinute, b, times, p)
        == AdmittedOver(requests, RunAll(perMinute, buckets, requests, false).1, key, i, m))
      && ClimbBetween(b, times, p + 1, q + 1) == Elapsed(requests[i].at, requests[m].at)
  {
    hide RunAll, Spree, AdmittedTo, TimesOf, StartsWith, AdmittedOver, Taken, NonDecreasing, Climbed;
    var key, verdicts := requests[m].key, RunAll(perMinute, buckets, requests, false).1;
    var times, p, q := TimesOf(requests[..m + 1], key), Place(requests, key, i), Place(requests, key, m);
    TimesPrefix(requests, key, i, m);
    PlaceTime(requests, key, i, m + 1);
    PlaceTime(requests, key, m, m + 1);
    CountsAgree(perMinute, buckets, requests, key, b, i, m + 1);
    CountsAgree(perMinute, buckets, requests, key, b, m, m + 1);
    AdmittedSplits(requests, verdicts, key, i, m);
    StretchTakes(b, times, p, q);
  }

  lemma {:induction false} AffordableInRun(perMinute: nat, buckets: Buckets, requests: seq<Request>, b: Bucket, m: nat)
    requires perMinute >= 1 && m < |requests| && StartsWith(perMinute, buckets, requests[m].key, b)
    requires NonDecreasing(b.at, TimesOf(requests[..m + 1], requests[m].key))
    requires Place(requests, requests[m].key, m) < Place(requests, requests[m].key, m + 1)
    ensures Affordable(perMinute, b, TimesOf(requests[..m + 1], requests[m].key), Place(requests, requests[m].key, m))
      <==> WithinTheRate(perMinute, requests, RunAll(perMinute, buckets, requests, false).1, m)
  {
    hide RunAll, TimesOf, StartsWith, AdmittedOver, Taken, NonDecreasing, ClimbBetween, Place, Earned;
    var key, verdicts := requests[m].key, RunAll(perMinute, buckets, requests, false).1;
    var times, q := TimesOf(requests[..m + 1], key), Place(requests, key, m);
    assert |times| == Place(requests, key, m + 1) by { PlaceIs(requests, key, m + 1); }
    if Affordable(perMinute, b, times, q) {
      forall i | 0 <= i <= m && requests[i].key == key
        ensures Within(perMinute, requests, verdicts, i, m)
      {
        StretchOfRun(perMinute, buckets, requests, b, i, m);
      }
    }
    if WithinTheRate(perMinute, requests, verdicts, m) {
      forall p | 0 <= p <= q
        ensures (Taken(perMinute, b, times, q) - Taken(perMinute, b, times, p) + 1) as real
          <= perMinute as real + Earned(perMinute, ClimbBetween(b, times, p + 1, q + 1))
      {
        var i := PlaceOf(requests, key, m + 1, p);
        StretchOfRun(perMinute, buckets, requests, b, i, m);
        assert Within(perMinute, requests, verdicts, i, m);
      }
    }
  }

  lemma {:induction false} PlaceIs(requests: seq<Request>, key: string, n: nat)
    requires n <= |requests|
    ensures Place(requests, key, n) == |TimesOf(requests[..n], key)|
  {
  }

  /** The bucket's own share, for a key that has one. */
  lemma {:induction false} CoveredInRun(perMinute: nat, buckets: Buckets, requests: seq<Request>, b: Bucket, m: nat)
    requires perMinute >= 1 && m < |requests| && StartsWith(perMinute, buckets, requests[m].key, b)
    requires NonDecreasing(b.at, TimesOf(requests[..m + 1], requests[m].key)) && requests[m].key in buckets
    requires Place(requests, requests[m].key, m) < Place(requests, requests[m].key, m + 1)
    ensures Covered(perMinute, b, TimesOf(requests[..m + 1], requests[m].key), Place(requests, requests[m].key, m))
      <==> WithinTheBucket(perMinute, buckets, requests, RunAll(perMinute, buckets, requests, false).1, m)
  {
    hide RunAll, TimesOf, AdmittedOver, Taken, NonDecreasing, Climbed, Earned;
    var key := requests[m].key;
    var times, q := TimesOf(requests[..m + 1], key), Place(requests, key, m);
    CountsAgree(perMinute, buckets, requests, key, b, m, m + 1);
    PlaceTime(requests, key, m, m + 1);
    StretchTakes(b, times, q, q);
  }

  lemma {:induction false} PrefixOfTimes(from: int, requests: seq<Request>, key: string, n: nat)
    requires InTimeOrder(from, requests) && n <= |requests|
    ensures NonDecreasing(from, TimesOf(requests[..n], key))
  {
    PrefixInTimeOrder(from, requests, n);
    TimesInOrder(from, requests[..n], key);
  }

  /**
  Every request of every run on a clock that does not go back, pruning included: it is admitted
  exactly when no stretch of its key's requests that ends with it would exceed the capacity and what
  the stretch earns, and the bucket it found, where there was one, could pay for all of them.
  */
  lemma {:induction false} AdmittedIff(perMinute: nat, buckets: Buckets, from: int, requests: seq<Request>, m: nat)
    requires perMinute >= 1 && AllInRange(perMinute, buckets) && InTimeOrder(from, requests) && m < |requests|
    requires requests[m].key in buckets ==> buckets[requests[m].key].at <= from
    ensures var verdicts := RunAll(perMinute, buckets, requests, true).1;
      verdicts[m].Admitted? <==>
        WithinTheRate(perMinute, requests, verdicts, m) && WithinTheBucket(perMinute, buckets, requests, verdicts, m)
  {
    var key := requests[m].key;
    var b := if key in buckets then buckets[key] else Bucket(perMinute as real, from);
    PruningNeverShows(perMinute, buckets, buckets, from, requests);
    assert StartsWith(perMinute, buckets, key, b);
    hide RunAll, TimesOf, AllInRange, InTimeOrder, WithinTheRate, Passes, Affordable, Covered, Place;
    PrefixOfTimes(from, requests, key, m + 1);
    EarlierStart(b.at, from, TimesOf(requests[..m + 1], key));
    VerdictAtPlace(perMinute, buckets, requests, b, m);
    var times, p := TimesOf(requests[..m + 1], key), Place(requests, key, m);
    PlaceIs(requests, key, m + 1);
    PassesIff(perMinute, b, times, p);
    AffordableInRun(perMinute, buckets, requests, b, m);
    if key in buckets {
      CoveredInRun(perMinute, buckets, requests, b, m);
    } else {
      CoveredWhenFull(perMinute, b, times, p);
    }
  }

  /** How many requests of a key there were from i up to n. */
  function AskedOver(requests: seq<Request>, key: string, i: nat, n: nat): nat
    requires i <= n <= |requests|
  {
    |TimesOf(requests[i..n], key)|
  }

  lemma {:induction false} AskedNext(requests: seq<Request>, key: string, i: nat, n: nat)
    requires i <= n < |requests|
    ensures AskedOver(requests, key, i, n + 1) ==
      AskedOver(requests, key, i, n) + if requests[n].key == key then 1 else 0
  {
    assert requests[i..n + 1][..n - i] == requests[i..n];
  }

  ghost predicate NoneRefused(requests: seq<Request>, verdicts: seq<Verdict>, key: string)
    requires |requests| == |verdicts|
  {
    forall k :: 0 <= k < |requests| && requests[k].key == key ==> verdicts[k].Admitted?
  }

  lemma {:induction false} AdmittedAtMost(requests: seq<Request>, verdicts: seq<Verdict>, key: string, i: nat, n: nat)
    requires i <= n <= |requests| == |verdicts|
    ensures AdmittedOver(requests, verdicts, key, i, n) <= AskedOver(requests, key, i, n)
    ensures NoneRefused(requests, verdicts, key) ==>
      AdmittedOver(requests, verdicts, key, i, n) == AskedOver(requests, key, i, n)
    decreases n
  {
    if i < n {
      AdmittedAtMost(requests, verdicts, key, i, n - 1);
      AdmittedNext(requests, verdicts, key, i, n - 1);
      AskedNext(requests, key, i, n - 1);
      hide AdmittedOver, AskedOver;
    }
  }

  /** A key's requests from i through n are no more than the capacity and what the time between earns. */
  predicate KeepsUnder(perMinute: nat, requests: seq<Request>, i: nat, n: nat)
    requires i <= n < |requests|
  {
    AskedOver(requests, requests[n].key, i, n + 1) as real
      <= perMinute as real + Earned(perMinute, Elapsed(requests[i].at, requests[n].at))
  }

  ghost predicate AlwaysKeepsUnder(perMinute: nat, requests: seq<Request>, key: string) {
    forall i, n :: 0 <= i <= n < |requests| && requests[i].key == key && requests[n].key == key ==>
      KeepsUnder(perMinute, requests, i, n)
  }

  /**
  What the limiter is for: a client whose first request comes with this run is never refused exactly
  when no stretch of its requests is more than the capacity and what the stretch earns.
  */
  lemma {:induction false} NoneRefusedIff(perMinute: nat, buckets: Buckets, from: int, requests: seq<Request>, key: string)
    requires perMinute >= 1 && AllInRange(perMinute, buckets) && InTimeOrder(from, requests) && key !in buckets
    ensures NoneRefused(requests, RunAll(perMinute, buckets, requests, true).1, key)
      <==> AlwaysKeepsUnder(perMinute, requests, key)
  {
    hide RunAll, AllInRange, InTimeOrder, Earned, AdmittedOver, AskedOver;
    var verdicts := RunAll(perMinute, buckets, requests, true).1;
    if NoneRefused(requests, verdicts, key) {
      forall i, n | 0 <= i <= n < |requests| && requests[i].key == key && requests[n].key == key
        ensures KeepsUnder(perMinute, requests, i, n)
      {
        AdmittedIff(perMinute, buckets, from, requests, n);
        assert verdicts[n].Admitted?;
        assert Within(perMinute, requests, verdicts, i, n);
        AdmittedAtMost(requests, verdicts, key, i, n);
        AskedNext(requests, key, i, n);
      }
    }
    if AlwaysKeepsUnder(perMinute, requests, key) {
      forall n | 0 <= n < |requests| && requests[n].key == key
        ensures verdicts[n].Admitted?
      {
        AdmittedIff(perMinute, buckets, from, requests, n);
        forall i | 0 <= i <= n && requests[i].key == key
          ensures Within(perMinute, requests, verdicts, i, n)
        {
          assert KeepsUnder(perMinute, requests, i, n);
          AdmittedAtMost(requests, verdicts, key, i, n);
          AskedNext(requests, key, i, n);
        }
      }
    }
  }

  /** A limit of nothing is no limit: every request is admitted, and no bucket is kept. */
  lemma {:induction false} NoLimit(buckets: Buckets, requests: seq<Request>, prunes: bool)
    ensures var (after, verdicts) := RunAll(0, buckets, requests, prunes);
      after == buckets && forall k :: 0 <= k < |verdicts| ==> verdicts[k] == Admitted
    decreases |requests|
  {
    if requests != [] {
      NoLimit(buckets, requests[..|requests| - 1], prunes);
    }
  }
}
