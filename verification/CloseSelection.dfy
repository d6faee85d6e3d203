/**
Rejection sampling of sign vectors over fixed step sizes, until the signed sum is the distance
asked for or satisfies a condition (packages/engine/src/closeSelection.ts).
*/
module CloseSelections {
  import opened Prelude

  datatype Impossible =
    | NotWhole
    | OutOfRange
    | WrongParity
    | NoneSatisfies
    | NotDrawn

  datatype Reachability = Easy | Normal | Difficult | Critical | OutsideNaturalRange

  datatype CloseSelection = CloseSelection(
    signs: Option<seq<int>>,
    attempts: int,
    acceptanceRate: real,
    reachability: Reachability,
    impossible: Option<Impossible>)

  /** The furthest the steps can move. */
  function Total(steps: seq<nat>): (total: int)
    ensures total >= 0
  {
    if steps == [] then 0 else Total(steps[..|steps| - 1]) + steps[|steps| - 1]
  }

  predicate AreSigns(signs: seq<int>) {
    forall i :: 0 <= i < |signs| ==> signs[i] == 1 || signs[i] == -1
  }

  /** Where a sign vector ends, in lattice units from where it starts. */
  function Close(signs: seq<int>, steps: seq<nat>): int
    requires |signs| == |steps|
    decreases |steps|
  {
    if steps == [] then 0
    else
      var n := |steps| - 1;
      Close(signs[..n], steps[..n]) + signs[n] * steps[n]
  }

  /** No sign assignment reaches beyond the total, and all of them share its parity. */
  lemma {:induction false} CloseBounds(signs: seq<int>, steps: seq<nat>)
    requires |signs| == |steps| && AreSigns(signs)
    ensures -Total(steps) <= Close(signs, steps) <= Total(steps)
    ensures (Total(steps) - Close(signs, steps)) % 2 == 0
    decreases |steps|
  {
    if steps != [] {
      var n := |steps| - 1;
      CloseBounds(signs[..n], steps[..n]);
      assert signs[n] == 1 || signs[n] == -1;
    }
  }

  /** The bound is tight: all signs one way reach it. */
  lemma {:induction false} TotalIsReached(steps: seq<nat>, sign: int)
    requires sign == 1 || sign == -1
    ensures var signs := seq(|steps|, i => sign); AreSigns(signs) && Close(signs, steps) == sign * Total(steps)
    decreases |steps|
  {
    if steps != [] {
      var n := |steps| - 1;
      TotalIsReached(steps[..n], sign);
      assert seq(|steps|, i => sign)[..n] == seq(n, i => sign);
    }
  }

  // ---------------------------------------------------------------- impossibility

  function Abs(x: int): int {
    if x < 0 then -x else x
  }

  /** `impossibilityOf`. The low bit decides parity, whatever the sign. */
  function ImpossibilityOf(steps: seq<nat>, delta: int): Option<Impossible> {
    if !IsSafeInteger(delta) then Some(NotWhole)
    else if Abs(delta) > Total(steps) then Some(OutOfRange)
    else if (Total(steps) - delta) % 2 != 0 then Some(WrongParity)
    else None
  }

  /** Refused by range or parity, the close is reached by no sign vector of any kind. */
  lemma RefusalIsProof(steps: seq<nat>, delta: int, signs: seq<int>)
    requires ImpossibilityOf(steps, delta) in [Some(OutOfRange), Some(WrongParity)]
    requires |signs| == |steps| && AreSigns(signs)
    ensures Close(signs, steps) != delta
  {
    CloseBounds(signs, steps);
  }

  // ---------------------------------------------------------------- drawing

  /** One sign vector, from the stream's draws from a position on. */
  function Drawn(random: nat -> bool, from: nat, n: nat): (signs: seq<int>)
    ensures |signs| == n && AreSigns(signs)
  {
    seq(n, i requires 0 <= i < n => if random(from + i) then 1 else -1)
  }

  /** The vector of attempt k, counted from none: each attempt takes the draws after those of the one before. */
  ghost function Attempt(random: nat -> bool, n: nat, k: nat): (signs: seq<int>)
    ensures |signs| == n && AreSigns(signs) && k * n >= 0
    ensures forall i :: 0 <= i < n ==> (signs[i] == 1 <==> random(k * n + i))
  {
    Position(k, n);
    Drawn(random, k * n, n)
  }

  lemma Position(k: nat, n: nat)
    ensures k * n >= 0 && (k + 1) * n == k * n + n
  {
  }

  /** Attempt k ends where it is not accepted. */
  ghost predicate Misses(steps: seq<nat>, accepts: int -> bool, random: nat -> bool, k: nat) {
    !accepts(Close(Attempt(random, |steps|, k), steps))
  }

  /** One vector drawn and its close summed, step by step. */
  method DrawOne(steps: seq<nat>, random: nat -> bool, from: nat) returns (chosen: seq<int>, sum: int)
    ensures chosen == Drawn(random, from, |steps|) && sum == Close(chosen, steps)
  {
    chosen, sum := [], 0;
    var i := 0;
    while i < |steps|
      invariant 0 <= i <= |steps| && |chosen| == i
      invariant forall k :: 0 <= k < i ==> chosen[k] == if random(from + k) then 1 else -1
      invariant sum == Close(chosen, steps[..i])
    {
      var sign: int := if random(from + i) then 1 else -1;
      assert steps[..i + 1][..i] == steps[..i] && (chosen + [sign])[..i] == chosen;
      chosen := chosen + [sign];
      sum := sum + sign * steps[i];
      i := i + 1;
    }
    assert steps[..i] == steps;
  }

  /** Vectors drawn until one is accepted, or the attempts run out. */
  method Sample(steps: seq<nat>, accepts: int -> bool, random: nat -> bool, maxAttempts: nat)
    returns (found: Option<(seq<int>, nat)>)
    ensures found.None? ==> forall k :: 0 <= k < maxAttempts ==> Misses(steps, accepts, random, k)
    ensures found.Some? ==>
      && 1 <= found.value.1 <= maxAttempts
      && found.value.0 == Attempt(random, |steps|, found.value.1 - 1)
      && accepts(Close(found.value.0, steps))
      && forall k :: 0 <= k < found.value.1 - 1 ==> Misses(steps, accepts, random, k)
  {
    hide Drawn, Close;
    var attempt, from := 1, 0;
    while attempt <= maxAttempts
      invariant 1 <= attempt <= maxAttempts + 1
      invariant from == (attempt - 1) * |steps|
      invariant forall k :: 0 <= k < attempt - 1 ==> Misses(steps, accepts, random, k)
    {
      var chosen, sum := DrawOne(steps, random, from);
      assert chosen == Attempt(random, |steps|, attempt - 1);
      if accepts(sum) {
        return Some((chosen, attempt));
      }
      assert Misses(steps, accepts, random, attempt - 1);
      Position(attempt - 1, |steps|);
      from := from + |steps|;
      attempt := attempt + 1;
    }
    return None;
  }

  function ReachabilityBand(rate: real): Reachability {
    if rate >= 1.0 / 100.0 then Easy
    else if rate >= 1.0 / 2_000.0 then Normal
    else if rate >= 1.0 / 50_000.0 then Difficult
    else Critical
  }

  /** What an accepted draw, or none, is reported as. */
  function Report(found: Option<(seq<int>, nat)>, maxAttempts: int): CloseSelection
    requires found.Some? ==> found.value.1 >= 1
  {
    match found
    case Some((signs, attempt)) =>
      var rate := 1.0 / attempt as real;
      CloseSelection(Some(signs), attempt, rate, ReachabilityBand(rate), None)
    case None => CloseSelection(None, maxAttempts, 0.0, OutsideNaturalRange, Some(NotDrawn))
  }

  const NOTHING_TO_DRAW := CloseSelection(Some([]), 0, 1.0, Easy, None)

  function Refusal(why: Impossible): CloseSelection {
    CloseSelection(None, 0, 0.0, OutsideNaturalRange, Some(why))
  }

  /** A selection made at an attempt: that attempt's vector, the first accepted, and what is said of it. */
  ghost predicate SelectedAt(
    r: CloseSelection, steps: seq<nat>, accepts: int -> bool, random: nat -> bool, maxAttempts: int)
  {
    && r.signs.Some? && r.impossible.None? && 1 <= r.attempts <= maxAttempts
    && r.signs.value == Attempt(random, |steps|, r.attempts - 1)
    && accepts(Close(Attempt(random, |steps|, r.attempts - 1), steps))
    && (forall k :: 0 <= k < r.attempts - 1 ==> Misses(steps, accepts, random, k))
    && r.acceptanceRate * r.attempts as real == 1.0
    && InBand(r.reachability, r.attempts)
  }

  /** The bands, by the attempts it took: one in a hundred, in two thousand, in fifty thousand. */
  ghost predicate InBand(band: Reachability, attempts: int) {
    && (band == Easy <==> attempts <= 100)
    && (band == Normal <==> 100 < attempts <= 2_000)
    && (band == Difficult <==> 2_000 < attempts <= 50_000)
    && (band == Critical <==> attempts > 50_000)
  }

  /** Every attempt was made, and none was accepted. */
  ghost predicate RanOut(
    r: CloseSelection, steps: seq<nat>, accepts: int -> bool, random: nat -> bool, maxAttempts: int)
  {
    && r == CloseSelection(None, maxAttempts, 0.0, OutsideNaturalRange, Some(NotDrawn))
    && forall k :: 0 <= k < maxAttempts ==> Misses(steps, accepts, random, k)
  }

  lemma Banded(attempt: nat)
    requires attempt >= 1
    ensures 1.0 / attempt as real * attempt as real == 1.0
    ensures InBand(ReachabilityBand(1.0 / attempt as real), attempt)
  {
    RateAtLeast(attempt, 100);
    RateAtLeast(attempt, 2_000);
    RateAtLeast(attempt, 50_000);
  }

  lemma RateAtLeast(attempt: nat, bound: nat)
    requires attempt >= 1 && bound >= 1
    ensures 1.0 / attempt as real >= 1.0 / bound as real <==> attempt <= bound
    ensures 1.0 / attempt as real * attempt as real == 1.0
  {
    var a, b := attempt as real, bound as real;
    var x, y := 1.0 / a, 1.0 / b;
    OneOver(a);
    OneOver(b);
    Reciprocals(x, a, y, b);
  }

  lemma Reciprocals(x: real, a: real, y: real, b: real)
    requires a > 0.0 && y > 0.0 && x * a == 1.0 && y * b == 1.0
    ensures x >= y <==> a <= b
  {
    ScaledOrder(x, y, a);
    ScaledOrder(b, a, y);
    Commutes(a, y);
    Commutes(b, y);
  }

  lemma Commutes(a: real, b: real)
    ensures a * b == b * a
  {
  }

  lemma OneOver(a: real)
    requires a > 0.0
    ensures 1.0 / a > 0.0 && 1.0 / a * a == 1.0
  {
    var x := 1.0 / a;
    assert x * a == 1.0;
    if x <= 0.0 {
      ScaledOrder(0.0, x, a);
    }
  }

  lemma ScaledOrder(a: real, b: real, factor: real)
    requires factor > 0.0
    ensures a >= b <==> a * factor >= b * factor
  {
    if a >= b {
      assert (a - b) * factor >= 0.0;
    } else {
      assert (b - a) * factor > 0.0;
    }
  }

  /** Refused without drawing. */
  ghost predicate RefusedFor(r: CloseSelection, why: Impossible) {
    r == CloseSelection(None, 0, 0.0, OutsideNaturalRange, Some(why))
  }

  /**
  `selectClose`: each refusal exactly when it is due, and each a proof that no sign vector ends
  there; otherwise the first attempt that ends exactly on the target, or the word that none of
  them did.
  */
  method SelectClose(steps: seq<nat>, delta: int, random: nat -> bool, maxAttempts: int) returns (r: CloseSelection)
    ensures RefusedFor(r, NotWhole) <==> !IsSafeInteger(delta)
    ensures RefusedFor(r, OutOfRange) <==> IsSafeInteger(delta) && !(-Total(steps) <= delta <= Total(steps))
    ensures RefusedFor(r, WrongParity) <==>
      IsSafeInteger(delta) && -Total(steps) <= delta <= Total(steps) && (Total(steps) - delta) % 2 != 0
    ensures r.impossible in [Some(OutOfRange), Some(WrongParity)] ==>
      forall signs | |signs| == |steps| && AreSigns(signs) :: Close(signs, steps) != delta
    ensures MayReach(steps, delta) && steps == [] ==> r == CloseSelection(Some([]), 0, 1.0, Easy, None)
    ensures MayReach(steps, delta) && steps != [] ==>
      || SelectedAt(r, steps, sum => sum == delta, random, maxAttempts)
      || RanOut(r, steps, sum => sum == delta, random, maxAttempts)
  {
    hide Close, Attempt, Misses;
    var impossible := ImpossibilityOf(steps, delta);
    if impossible.Some? {
      if impossible.value in [OutOfRange, WrongParity] {
        forall signs | |signs| == |steps| && AreSigns(signs)
          ensures Close(signs, steps) != delta
        {
          RefusalIsProof(steps, delta, signs);
        }
      }
      return Refusal(impossible.value);
    }
    if |steps| == 0 {
      NoSteps(steps, delta);
      return NOTHING_TO_DRAW;
    }
    var found := Sample(steps, sum => sum == delta, random, if maxAttempts < 0 then 0 else maxAttempts);
    if found.Some? {
      Banded(found.value.1);
    }
    hide ReachabilityBand, InBand, Total;
    r := Report(found, maxAttempts);
  }

  /** Not excluded by range or parity. */
  ghost predicate MayReach(steps: seq<nat>, delta: int) {
    IsSafeInteger(delta) && -Total(steps) <= delta <= Total(steps) && (Total(steps) - delta) % 2 == 0
  }

  /** With no ticks left the only close not refused is where the price is. */
  lemma NoSteps(steps: seq<nat>, delta: int)
    requires steps == [] && ImpossibilityOf(steps, delta).None?
    ensures delta == 0 && Close([], steps) == 0
  {
  }

  // ---------------------------------------------------------------- a side of a level

  /** Whether any distance of the right parity and range satisfies: what the scan looks for. */
  ghost predicate Attainable(steps: seq<nat>, satisfies: int -> bool) {
    exists delta :: -Total(steps) <= delta <= Total(steps) && (Total(steps) - delta) % 2 == 0 && satisfies(delta)
  }

  method ParityAllows(total: int, satisfies: int -> bool) returns (allows: bool)
    requires total >= 0
    ensures allows <==> exists delta :: -total <= delta <= total && (total - delta) % 2 == 0 && satisfies(delta)
  {
    var delta: int := -total;
    while delta <= total
      invariant -total <= delta <= total + 2 && (total - delta) % 2 == 0
      invariant forall d :: -total <= d < delta && d <= total && (total - d) % 2 == 0 ==> !satisfies(d)
      decreases total - delta
    {
      if satisfies(delta) {
        return true;
      }
      delta := delta + 2;
    }
    return false;
  }

  /** An empty scan means no sign vector of any kind ends where the condition holds. */
  lemma EmptyScanIsProof(steps: seq<nat>, satisfies: int -> bool, signs: seq<int>)
    requires !Attainable(steps, satisfies) && |signs| == |steps| && AreSigns(signs)
    ensures !satisfies(Close(signs, steps))
  {
    CloseBounds(signs, steps);
  }

  /** The scan is not exact: with one step of five it allows a close of three, which no vector reaches. */
  lemma ScanAllowsMore()
    ensures Attainable([5], delta => delta == 3)
    ensures forall signs | |signs| == 1 && AreSigns(signs) :: Close(signs, [5]) != 3
  {
    assert Total([5]) == 5;
    forall signs: seq<int> | |signs| == 1 && AreSigns(signs)
      ensures Close(signs, [5]) != 3
    {
      assert signs[0] == 1 || signs[0] == -1;
    }
    var accepts := (delta: int) => delta == 3;
    assert accepts(3);
  }

  /** `selectCloseWhere`. */
  method SelectCloseWhere(steps: seq<nat>, satisfies: int -> bool, random: nat -> bool, maxAttempts: int)
    returns (r: CloseSelection)
    ensures r.signs.Some? ==>
      |r.signs.value| == |steps| && AreSigns(r.signs.value) && satisfies(Close(r.signs.value, steps))
    ensures r.impossible == Some(NoneSatisfies) <==> !Attainable(steps, satisfies)
    ensures r.impossible == Some(NoneSatisfies) <==> RefusedFor(r, NoneSatisfies)
    ensures r.impossible == Some(NoneSatisfies) ==>
      forall signs | |signs| == |steps| && AreSigns(signs) :: !satisfies(Close(signs, steps))
    ensures Attainable(steps, satisfies) && steps == [] ==> r == CloseSelection(Some([]), 0, 1.0, Easy, None)
    ensures Attainable(steps, satisfies) && steps != [] ==>
      SelectedAt(r, steps, satisfies, random, maxAttempts) || RanOut(r, steps, satisfies, random, maxAttempts)
  {
    hide Close, Attempt, Misses;
    var allows := ParityAllows(Total(steps), satisfies);
    if !allows {
      forall signs | |signs| == |steps| && AreSigns(signs)
        ensures !satisfies(Close(signs, steps))
      {
        EmptyScanIsProof(steps, satisfies, signs);
      }
      return Refusal(NoneSatisfies);
    }
    if |steps| == 0 {
      OnlyZero(steps, satisfies);
      return NOTHING_TO_DRAW;
    }
    var found := Sample(steps, satisfies, random, if maxAttempts < 0 then 0 else maxAttempts);
    if found.Some? {
      Banded(found.value.1);
    }
    hide ReachabilityBand, InBand, Total;
    r := Report(found, maxAttempts);
  }

  lemma OnlyZero(steps: seq<nat>, satisfies: int -> bool)
    requires steps == [] && Attainable(steps, satisfies)
    ensures satisfies(Close([], steps))
  {
  }
}
