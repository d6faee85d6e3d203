/**
What a sample's draws can come to (packages/engine/src/catalogueSample.ts): the stream decides
everything the balance leaves open. Every order of the strata and every balanced choice of the size
asked for is what some stream draws.
*/
module CatalogueDraws {
  import opened Prelude
  import opened CatalogueSamples

  // ---------------------------------------------------------------- every order

  lemma {:induction false} LaterShuffle(items: seq<string>, a: nat -> nat, b: nat -> nat, from: nat, last: int)
    requires last < |items| && forall k :: from <= k <= from + last ==> a(k) == b(k)
    ensures ShuffledTo(items, a, from, last) == ShuffledTo(items, b, from, last)
    decreases last
  {
    if last > 0 {
      LaterShuffle(Swapped(items, last, a(from) % (last + 1)), a, b, from + 1, last - 1);
    }
  }

  /** One draw, and the draws after it. */
  function First(draw: nat, at: nat, rest: nat -> nat): nat -> nat {
    (k: nat) => if k == at then draw else rest(k)
  }

  lemma LastOut(s: seq<string>, last: nat)
    requires last < |s|
    ensures multiset(s[..last]) == multiset(s[..last + 1]) - multiset{s[last]}
  {
    assert s[..last + 1] == s[..last] + [s[last]];
  }

  /** Swapping the wanted item into the last open place leaves the rest to be shuffled. */
  lemma SwapPlaces(items: seq<string>, target: seq<string>, last: nat, j: nat)
    requires last < |items| == |target| && j <= last && items[j] == target[last]
    requires multiset(items[..last + 1]) == multiset(target[..last + 1]) && items[last + 1..] == target[last + 1..]
    ensures var swapped := Swapped(items, last, j);
      && multiset(swapped[..last]) == multiset(target[..last]) && swapped[last..] == target[last..]
  {
    var swapped := Swapped(items, last, j);
    assert swapped[..last + 1] == Swapped(items[..last + 1], last, j);
    SwapKeeps(items[..last + 1], last, j);
    LastOut(swapped, last);
    LastOut(target, last);
    assert swapped[last] == target[last];
    SwapBehind(items, target, last, j);
  }

  lemma SwapBehind(items: seq<string>, target: seq<string>, last: nat, j: nat)
    requires last < |items| == |target| && j <= last && items[j] == target[last]
    requires items[last + 1..] == target[last + 1..]
    ensures Swapped(items, last, j)[last..] == target[last..]
  {
    var swapped := Swapped(items, last, j);
    forall k | last <= k < |items|
      ensures swapped[k] == target[k]
    {
      if k > last {
        assert items[last + 1..][k - last - 1] == target[last + 1..][k - last - 1];
      }
    }
  }

  /** From place last on the items are the wanted ones, and before it they are some order of them. */
  ghost predicate OpenTo(items: seq<string>, target: seq<string>, last: int) {
    && -1 <= last < |items| == |target|
    && multiset(items[..last + 1]) == multiset(target[..last + 1]) && items[last + 1..] == target[last + 1..]
  }

  lemma FoundAt(items: seq<string>, target: seq<string>, last: int) returns (j: nat)
    requires OpenTo(items, target, last) && 0 <= last
    ensures j <= last && items[j] == target[last]
  {
    var front := items[..last + 1];
    assert target[..last + 1][last] == target[last];
    assert target[last] in multiset(front);
    j :| 0 <= j < |front| && front[j] == target[last];
  }

  lemma OneOrder(items: seq<string>, target: seq<string>, last: int)
    requires OpenTo(items, target, last) && last <= 0
    ensures items == target
  {
    if last == 0 {
      var j := FoundAt(items, target, 0);
      assert items[0] == target[0];
    }
    SameBehind(items, target, last);
  }

  lemma SameBehind(items: seq<string>, target: seq<string>, last: int)
    requires -1 <= last < |items| == |target| && items[last + 1..] == target[last + 1..]
    requires forall k :: 0 <= k <= last ==> items[k] == target[k]
    ensures items == target
  {
    forall k | last < k < |items|
      ensures items[k] == target[k]
    {
      assert items[last + 1..][k - last - 1] == target[last + 1..][k - last - 1];
    }
  }

  lemma OpenLess(items: seq<string>, target: seq<string>, last: nat, j: nat)
    requires OpenTo(items, target, last) && 0 < last && j <= last && items[j] == target[last]
    ensures OpenTo(Swapped(items, last, j), target, last - 1)
  {
    SwapPlaces(items, target, last, j);
    hide Swapped;
  }

  /** Whatever order is wanted, some draws shuffle into it. */
  lemma {:induction false} AnyOrder(items: seq<string>, target: seq<string>, from: nat, last: int) returns (draws: nat -> nat)
    requires last < |items| && OpenTo(items, target, last)
    ensures ShuffledTo(items, draws, from, last) == target
    decreases last
  {
    hide OpenTo, Swapped, ShuffledTo, First;
    if last <= 0 {
      draws := (k: nat) => 0;
      OneOrder(items, target, last);
    } else {
      var j := FoundAt(items, target, last);
      OpenLess(items, target, last, j);
      var rest := AnyOrder(Swapped(items, last, j), target, from + 1, last - 1);
      draws := First(j, from, rest);
      FirstIs(j, from, rest);
      LaterShuffle(Swapped(items, last, j), draws, rest, from + 1, last - 1);
      assert j % (last + 1) == j;
    }
    ShuffleStep(items, draws, from, last);
  }

  // ---------------------------------------------------------------- every balanced choice

  lemma {:induction false} LaterDeal<A>(
    catalogue: seq<A>, stratumOf: A -> string, order: seq<string>, size: nat, a: nat -> nat, b: nat -> nat,
    drawn: set<nat>, next: nat, place: nat, drewAny: bool)
    requires ArePlaces(|catalogue|, drawn) && place <= |order|
    requires forall k :: next <= k ==> a(k) == b(k)
    ensures DealtFrom(catalogue, stratumOf, order, size, a, drawn, next, place, drewAny)
      == DealtFrom(catalogue, stratumOf, order, size, b, drawn, next, place, drewAny)
    decreases |catalogue| - |drawn|, if drewAny then 1 else 0, |order| - place
  {
    hide *;
    PlacesCount(|catalogue|, drawn);
    if |ObjectsAt(catalogue, drawn)| >= size || place == |order| {
      DealtEnds(catalogue, stratumOf, order, size, a, drawn, next, place, drewAny);
      DealtEnds(catalogue, stratumOf, order, size, b, drawn, next, place, drewAny);
      if |ObjectsAt(catalogue, drawn)| < size && drewAny {
        LaterDeal(catalogue, stratumOf, order, size, a, b, drawn, next, 0, false);
      }
    } else if Left(catalogue, stratumOf, order[place], drawn) == [] {
      DealtSkips(catalogue, stratumOf, order, size, a, drawn, next, place, drewAny);
      DealtSkips(catalogue, stratumOf, order, size, b, drawn, next, place, drewAny);
      LaterDeal(catalogue, stratumOf, order, size, a, b, drawn, next, place + 1, drewAny);
    } else {
      var left := Left(catalogue, stratumOf, order[place], drawn);
      var i := left[a(next) % |left|];
      DealtDraws(catalogue, stratumOf, order, size, a, drawn, next, place, drewAny);
      DealtDraws(catalogue, stratumOf, order, size, b, drawn, next, place, drewAny);
      OneMorePlace(|catalogue|, drawn, i);
      LaterDeal(catalogue, stratumOf, order, size, a, b, drawn + {i}, next + 1, place + 1, true);
    }
  }

  lemma OneMorePlace(n: nat, drawn: set<nat>, i: nat)
    requires ArePlaces(n, drawn) && i < n && i !in drawn
    ensures ArePlaces(n, drawn + {i}) && |drawn + {i}| == |drawn| + 1 && |drawn + {i}| <= n
  {
    PlacesCount(n, drawn + {i});
  }

  lemma {:induction false} DrawnMonotone<A>(catalogue: seq<A>, stratumOf: A -> string, t: string, a: set<A>, b: set<A>)
    requires forall x :: x in catalogue && stratumOf(x) == t && x in a ==> x in b
    ensures Drawn(catalogue, stratumOf, t, a) <= Drawn(catalogue, stratumOf, t, b)
    decreases |catalogue|
  {
    if catalogue != [] {
      var n := |catalogue| - 1;
      assert catalogue[n] in catalogue;
      assert forall x :: x in catalogue[..n] ==> x in catalogue;
      DrawnMonotone(catalogue[..n], stratumOf, t, a, b);
      PoolStep(catalogue, stratumOf, t, a, true);
      PoolStep(catalogue, stratumOf, t, b, true);
      hide Pool;
    }
  }

  /** How many places of a stratum are drawn, and how many it has. */
  ghost function DrawnAt<A>(catalogue: seq<A>, stratumOf: A -> string, t: string, drawn: set<nat>): nat {
    Drawn(Places(|catalogue|), StratumAt(catalogue, stratumOf), t, drawn)
  }

  ghost function MembersAt<A>(catalogue: seq<A>, stratumOf: A -> string, t: string): nat {
    |Members(Places(|catalogue|), StratumAt(catalogue, stratumOf), t)|
  }

  lemma DealtCounts<A>(
    catalogue: seq<A>, stratumOf: A -> string, order: seq<string>, drawn: set<nat>, r: nat, p: nat, q: nat)
    requires DealtAt(catalogue, stratumOf, order, drawn, r, p) && q < |order|
    ensures DrawnAt(catalogue, stratumOf, order[q], drawn)
      == Least(RoundsAt(r, p, q), MembersAt(catalogue, stratumOf, order[q]))
  {
    hide Pool;
  }

  lemma LeftCounts<A>(catalogue: seq<A>, stratumOf: A -> string, t: string, drawn: set<nat>)
    ensures DrawnAt(catalogue, stratumOf, t, drawn) + |Left(catalogue, stratumOf, t, drawn)|
      == MembersAt(catalogue, stratumOf, t)
  {
    DrawnAndLeft(Places(|catalogue|), StratumAt(catalogue, stratumOf), t, drawn);
    hide Pool;
  }

  /** Of two deals, the one that includes the other and one place more of a stratum has drawn more from it. */
  lemma OneMoreDrawn<A>(catalogue: seq<A>, stratumOf: A -> string, drawn: set<nat>, all: set<nat>, i: nat)
    requires drawn <= all && i in all && i !in drawn && i < |catalogue|
    ensures DrawnAt(catalogue, stratumOf, stratumOf(catalogue[i]), drawn)
      < DrawnAt(catalogue, stratumOf, stratumOf(catalogue[i]), all)
  {
    var places, at := Places(|catalogue|), StratumAt(catalogue, stratumOf);
    var t := stratumOf(catalogue[i]);
    assert places[i] == i;
    PoolHas(places, at, i, drawn, false);
    var left := Pool(places, at, t, drawn, false);
    var k :| 0 <= k < |left| && left[k] == i;
    assert Distinct(places);
    PoolDraws(places, at, t, drawn, k);
    DrawnMonotone(places, at, t, drawn + {i}, all);
    hide Pool;
  }

  /** A place of a stratum that one deal has drawn and a smaller one has not. */
  lemma DrawnOnly<A>(catalogue: seq<A>, stratumOf: A -> string, t: string, drawn: set<nat>, all: set<nat>) returns (i: nat)
    requires DrawnAt(catalogue, stratumOf, t, drawn) < DrawnAt(catalogue, stratumOf, t, all)
    ensures i in all && i !in drawn && i in Left(catalogue, stratumOf, t, drawn)
  {
    var places, at := Places(|catalogue|), StratumAt(catalogue, stratumOf);
    if forall x :: x in places && at(x) == t && x in all ==> x in drawn {
      DrawnMonotone(places, at, t, all, drawn);
    }
    i :| i in places && at(i) == t && i in all && i !in drawn;
    PoolHas(places, at, i, drawn, false);
    hide Pool;
  }

  /** A deal that is not done has, of the stratum whose turn it is, still to draw what the whole deal drew. */
  lemma MoreToDraw<A>(
    catalogue: seq<A>, stratumOf: A -> string, order: seq<string>, all: set<nat>, r: nat, p: nat,
    drawn: set<nat>, s: nat, place: nat)
    requires forall a :: a in catalogue ==> stratumOf(a) in order
    requires DealtAt(catalogue, stratumOf, order, all, r, p) && DealtAt(catalogue, stratumOf, order, drawn, s, place)
    requires drawn <= all && drawn != all && place < |order|
    requires Left(catalogue, stratumOf, order[place], drawn) != []
    ensures DrawnAt(catalogue, stratumOf, order[place], drawn) < DrawnAt(catalogue, stratumOf, order[place], all)
  {
    var i :| i in all && i !in drawn;
    PlacesDealt(catalogue, stratumOf, order, all, r, p);
    assert i < |catalogue| && catalogue[i] in catalogue;
    var q :| 0 <= q < |order| && order[q] == stratumOf(catalogue[i]);
    OneMoreDrawn(catalogue, stratumOf, drawn, all, i);
    DealtCounts(catalogue, stratumOf, order, all, r, p, q);
    DealtCounts(catalogue, stratumOf, order, drawn, s, place, q);
    DealtCounts(catalogue, stratumOf, order, all, r, p, place);
    DealtCounts(catalogue, stratumOf, order, drawn, s, place, place);
    LeftCounts(catalogue, stratumOf, order[place], drawn);
    hide DrawnAt, MembersAt, DealtAt, Left, ArePlaces;
    assert RoundsAt(s, place, q) < RoundsAt(r, p, q);
    assert RoundsAt(s, place, place) == s && RoundsAt(r, p, place) >= s + 1;
  }

  /** Whatever deal is wanted, and however much of it is drawn, some draws come to it. */
  lemma {:induction false} AnyDeal<A>(
    catalogue: seq<A>, stratumOf: A -> string, order: seq<string>, all: set<nat>, r: nat, p: nat,
    drawn: set<nat>, s: nat, next: nat, place: nat, drewAny: bool) returns (draws: nat -> nat)
    requires Distinct(catalogue) && Distinct(order) && AllPopulatedAt(catalogue, stratumOf, order)
    requires forall a :: a in catalogue ==> stratumOf(a) in order
    requires ArePlaces(|catalogue|, all) && ArePlaces(|catalogue|, drawn) && place <= |order|
    requires DealtAt(catalogue, stratumOf, order, all, r, p) && DealtAt(catalogue, stratumOf, order, drawn, s, place)
    requires drawn <= all && |all| < |catalogue|
    requires !drewAny ==> SpentTo(catalogue, stratumOf, order, drawn, place)
    ensures DealtFrom(catalogue, stratumOf, order, |all|, draws, drawn, next, place, drewAny) == all
    decreases |catalogue| - |drawn|, if drewAny then 1 else 0, |order| - place
  {
    hide *;
    ObjectsCount(catalogue, drawn);
    PlacesCount(|catalogue|, drawn);
    PartOf(drawn, all);
    if drawn == all {
      draws := (k: nat) => 0;
      DealtEnds(catalogue, stratumOf, order, |all|, draws, drawn, next, place, drewAny);
    } else if place == |order| {
      if !drewAny {
        AllDrawn(catalogue, stratumOf, order, drawn);
        assert false;
      }
      RoundOverAt(catalogue, stratumOf, order, drawn, s);
      SpentNone(catalogue, stratumOf, order, drawn);
      draws := AnyDeal(catalogue, stratumOf, order, all, r, p, drawn, s + 1, next, 0, false);
      DealtEnds(catalogue, stratumOf, order, |all|, draws, drawn, next, place, drewAny);
    } else if Left(catalogue, stratumOf, order[place], drawn) == [] {
      PoolEmptyAt(catalogue, stratumOf, order, drawn, s, place);
      if !drewAny {
        SpentOneMore(catalogue, stratumOf, order, drawn, place);
      }
      draws := AnyDeal(catalogue, stratumOf, order, all, r, p, drawn, s, next, place + 1, drewAny);
      DealtSkips(catalogue, stratumOf, order, |all|, draws, drawn, next, place, drewAny);
    } else {
      MoreToDraw(catalogue, stratumOf, order, all, r, p, drawn, s, place);
      var i := DrawnOnly(catalogue, stratumOf, order[place], drawn, all);
      draws := AnyDraw(catalogue, stratumOf, order, all, r, p, drawn, s, next, place, drewAny, i);
    }
  }

  lemma {:induction false} AnyDraw<A>(
    catalogue: seq<A>, stratumOf: A -> string, order: seq<string>, all: set<nat>, r: nat, p: nat,
    drawn: set<nat>, s: nat, next: nat, place: nat, drewAny: bool, i: nat) returns (draws: nat -> nat)
    requires Distinct(catalogue) && Distinct(order) && AllPopulatedAt(catalogue, stratumOf, order)
    requires forall a :: a in catalogue ==> stratumOf(a) in order
    requires ArePlaces(|catalogue|, all) && ArePlaces(|catalogue|, drawn) && place < |order|
    requires DealtAt(catalogue, stratumOf, order, all, r, p) && DealtAt(catalogue, stratumOf, order, drawn, s, place)
    requires drawn <= all && |all| < |catalogue| && |ObjectsAt(catalogue, drawn)| < |all|
    requires i in all && i !in drawn && i in Left(catalogue, stratumOf, order[place], drawn)
    ensures DealtFrom(catalogue, stratumOf, order, |all|, draws, drawn, next, place, drewAny) == all
    decreases |catalogue| - |drawn|, if drewAny then 1 else 0, |order| - place, 0
  {
    hide *;
    var left := Left(catalogue, stratumOf, order[place], drawn);
    var index :| 0 <= index < |left| && left[index] == i;
    OneDealtAt(catalogue, stratumOf, order, drawn, s, place, index);
    OneMorePlace(|catalogue|, drawn, i);
    assert drawn + {i} <= all;
    var rest := AnyDeal(catalogue, stratumOf, order, all, r, p, drawn + {i}, s, next + 1, place + 1, true);
    draws := First(index, next, rest);
    DrawnFirst(catalogue, stratumOf, order, |all|, rest, drawn, next, place, drewAny, index);
  }

  /** Drawing one place and then as another stream does. */
  lemma DrawnFirst<A>(
    catalogue: seq<A>, stratumOf: A -> string, order: seq<string>, size: nat, rest: nat -> nat,
    drawn: set<nat>, next: nat, place: nat, drewAny: bool, index: nat)
    requires ArePlaces(|catalogue|, drawn) && place < |order| && |ObjectsAt(catalogue, drawn)| < size
    requires index < |Left(catalogue, stratumOf, order[place], drawn)|
    ensures var i := Left(catalogue, stratumOf, order[place], drawn)[index];
      && ArePlaces(|catalogue|, drawn + {i})
      && DealtFrom(catalogue, stratumOf, order, size, First(index, next, rest), drawn, next, place, drewAny)
        == DealtFrom(catalogue, stratumOf, order, size, rest, drawn + {i}, next + 1, place + 1, true)
  {
    hide *;
    var left, draws := Left(catalogue, stratumOf, order[place], drawn), First(index, next, rest);
    FirstIs(index, next, rest);
    assert index % |left| == index;
    DealtDraws(catalogue, stratumOf, order, size, draws, drawn, next, place, drewAny);
    OneMorePlace(|catalogue|, drawn, left[index]);
    LaterDeal(catalogue, stratumOf, order, size, draws, rest, drawn + {left[index]}, next + 1, place + 1, true);
  }

  lemma FirstIs(draw: nat, at: nat, rest: nat -> nat)
    ensures First(draw, at, rest)(at) == draw
    ensures forall k: nat :: k != at ==> First(draw, at, rest)(k) == rest(k)
  {
  }

  lemma PartOf(a: set<nat>, b: set<nat>)
    requires a <= b
    ensures a == b <==> |a| >= |b|
  {
    if a != b {
      MoreDrawn(a, b);
    }
  }

  // ---------------------------------------------------------------- from balance to an order

  /** The items of which this holds, or of which it does not, in order. */
  function Those(items: seq<string>, f: string -> bool, wanted: bool): (those: seq<string>)
    ensures forall t | t in those :: t in items && f(t) == wanted
  {
    if items == [] then []
    else Those(items[..|items| - 1], f, wanted) + if f(items[|items| - 1]) == wanted then [items[|items| - 1]] else []
  }

  lemma OneAppended(front: seq<string>, last: string)
    ensures multiset(front + [last]) == multiset(front) + multiset{last}
  {
  }

  lemma LastCounts(items: seq<string>)
    requires items != []
    ensures var n := |items| - 1; multiset(items) == multiset(items[..n]) + multiset{items[n]}
  {
    var n := |items| - 1;
    assert items == items[..n] + [items[n]];
    OneAppended(items[..n], items[n]);
  }

  lemma ThoseCount(items: seq<string>, f: string -> bool, wanted: bool)
    requires items != []
    ensures var n := |items| - 1;
      multiset(Those(items, f, wanted))
        == multiset(Those(items[..n], f, wanted)) + if f(items[n]) == wanted then multiset{items[n]} else multiset{}
  {
    var n := |items| - 1;
    OneAppended(Those(items[..n], f, wanted), items[n]);
    ConcatUnit(Those(items[..n], f, wanted));
  }

  lemma OneMoved(a: multiset<string>, b: multiset<string>, c: multiset<string>, x: multiset<string>)
    requires a + b == c
    ensures (a + x) + (b + multiset{}) == c + x && (a + multiset{}) + (b + x) == c + x
  {
  }

  lemma {:induction false} ThoseSplit(items: seq<string>, f: string -> bool)
    ensures multiset(Those(items, f, true)) + multiset(Those(items, f, false)) == multiset(items)
    decreases |items|
  {
    hide Those;
    if items == [] {
      NoneOf(f);
    } else {
      var n := |items| - 1;
      ThoseSplit(items[..n], f);
      ThoseCount(items, f, true);
      ThoseCount(items, f, false);
      LastCounts(items);
      OneMoved(multiset(Those(items[..n], f, true)), multiset(Those(items[..n], f, false)), multiset(items[..n]), multiset{items[n]});
    }
  }

  lemma NoneOf(f: string -> bool)
    ensures Those([], f, true) == [] == Those([], f, false)
  {
  }

  lemma ThoseAre(items: seq<string>, f: string -> bool)
    ensures multiset(Those(items, f, true) + Those(items, f, false)) == multiset(items)
  {
    ThoseSplit(items, f);
    hide Those;
  }

  /** A stratum the choice has not exhausted, with the fewest drawn of such. */
  ghost predicate Fewest<A>(catalogue: seq<A>, stratumOf: A -> string, strata: seq<string>, all: set<nat>, u: string) {
    && u in strata && DrawnAt(catalogue, stratumOf, u, all) < MembersAt(catalogue, stratumOf, u)
    && forall t :: t in strata && DrawnAt(catalogue, stratumOf, t, all) < MembersAt(catalogue, stratumOf, t) ==>
      DrawnAt(catalogue, stratumOf, u, all) <= DrawnAt(catalogue, stratumOf, t, all)
  }

  lemma {:induction false} FewestOf<A>(catalogue: seq<A>, stratumOf: A -> string, strata: seq<string>, all: set<nat>, open: string)
    returns (u: string)
    requires open in strata && DrawnAt(catalogue, stratumOf, open, all) < MembersAt(catalogue, stratumOf, open)
    ensures Fewest(catalogue, stratumOf, strata, all, u)
    decreases DrawnAt(catalogue, stratumOf, open, all)
  {
    hide DrawnAt, MembersAt;
    if Fewest(catalogue, stratumOf, strata, all, open) {
      u := open;
    } else {
      var t :| t in strata && DrawnAt(catalogue, stratumOf, t, all) < MembersAt(catalogue, stratumOf, t)
        && DrawnAt(catalogue, stratumOf, t, all) < DrawnAt(catalogue, stratumOf, open, all);
      u := FewestOf(catalogue, stratumOf, strata, all, t);
    }
  }

  /** A choice that leaves something leaves some stratum something. */
  lemma SomeLeft<A>(catalogue: seq<A>, stratumOf: A -> string, strata: seq<string>, all: set<nat>) returns (open: string)
    requires ArePlaces(|catalogue|, all) && |all| < |catalogue|
    requires forall a :: a in catalogue ==> stratumOf(a) in strata
    ensures open in strata && DrawnAt(catalogue, stratumOf, open, all) < MembersAt(catalogue, stratumOf, open)
  {
    hide Left;
    if SpentTo(catalogue, stratumOf, strata, all, |strata|) {
      AllDrawn(catalogue, stratumOf, strata, all);
    }
    var q :| 0 <= q < |strata| && Left(catalogue, stratumOf, strata[q], all) != [];
    open := strata[q];
    LeftCounts(catalogue, stratumOf, open, all);
    hide DrawnAt, MembersAt;
  }

  /** No stratum has two places more than another, unless the other has no more. */
  ghost predicate BalancedAt<A>(catalogue: seq<A>, stratumOf: A -> string, strata: seq<string>, all: set<nat>) {
    forall t, u :: t in strata && u in strata ==>
      || DrawnAt(catalogue, stratumOf, t, all) <= DrawnAt(catalogue, stratumOf, u, all) + 1
      || DrawnAt(catalogue, stratumOf, u, all) == MembersAt(catalogue, stratumOf, u)
  }

  ghost function Ahead<A>(catalogue: seq<A>, stratumOf: A -> string, all: set<nat>, r: nat): string -> bool {
    (t: string) => DrawnAt(catalogue, stratumOf, t, all) == r + 1
  }

  /** The strata with one more first, and then the others. */
  ghost function AheadFirst<A>(catalogue: seq<A>, stratumOf: A -> string, strata: seq<string>, all: set<nat>, r: nat): seq<string> {
    var f := Ahead(catalogue, stratumOf, all, r);
    Those(strata, f, true) + Those(strata, f, false)
  }

  lemma AheadFirstIs<A>(catalogue: seq<A>, stratumOf: A -> string, strata: seq<string>, all: set<nat>, r: nat) returns (p: nat)
    ensures var order := AheadFirst(catalogue, stratumOf, strata, all, r);
      && multiset(order) == multiset(strata) && p <= |order|
      && forall q :: 0 <= q < |order| ==>
        order[q] in strata && (q < p <==> DrawnAt(catalogue, stratumOf, order[q], all) == r + 1)
  {
    var f := Ahead(catalogue, stratumOf, all, r);
    var ahead, behind := Those(strata, f, true), Those(strata, f, false);
    p := |ahead|;
    ThoseAre(strata, f);
    hide Those, DrawnAt;
    forall q | 0 <= q < |ahead + behind|
      ensures (ahead + behind)[q] in strata && (q < p <==> f((ahead + behind)[q]))
    {
      if q < p {
        assert ahead[q] in ahead;
      } else {
        assert behind[q - p] in behind;
      }
    }
  }

  /** What a stratum of a balanced choice has drawn, the fewest left open having r. */
  lemma CountIs<A>(catalogue: seq<A>, stratumOf: A -> string, strata: seq<string>, all: set<nat>, u: string, t: string)
    requires BalancedAt(catalogue, stratumOf, strata, all) && Fewest(catalogue, stratumOf, strata, all, u) && t in strata
    ensures var r := DrawnAt(catalogue, stratumOf, u, all);
      DrawnAt(catalogue, stratumOf, t, all)
        == Least(if DrawnAt(catalogue, stratumOf, t, all) == r + 1 then r + 1 else r, MembersAt(catalogue, stratumOf, t))
  {
    LeftCounts(catalogue, stratumOf, t, all);
    hide DrawnAt, MembersAt, Left;
  }

  /** A balanced choice is what a deal comes to: those with one more first, r rounds and a part of the next. */
  lemma BalancedIsDealt<A>(catalogue: seq<A>, stratumOf: A -> string, strata: seq<string>, all: set<nat>)
    returns (order: seq<string>, r: nat, p: nat)
    requires ArePlaces(|catalogue|, all) && |all| < |catalogue|
    requires forall a :: a in catalogue ==> stratumOf(a) in strata
    requires BalancedAt(catalogue, stratumOf, strata, all)
    ensures multiset(order) == multiset(strata) && DealtAt(catalogue, stratumOf, order, all, r, p)
  {
    var open := SomeLeft(catalogue, stratumOf, strata, all);
    hide AheadFirst, DrawnAt, MembersAt, ArePlaces, BalancedAt, Fewest, Least;
    var u := FewestOf(catalogue, stratumOf, strata, all, open);
    r := DrawnAt(catalogue, stratumOf, u, all);
    order := AheadFirst(catalogue, stratumOf, strata, all, r);
    p := AheadFirstIs(catalogue, stratumOf, strata, all, r);
    forall q | 0 <= q < |order|
      ensures DrawnAt(catalogue, stratumOf, order[q], all)
        == Least(RoundsAt(r, p, q), MembersAt(catalogue, stratumOf, order[q]))
    {
      CountIs(catalogue, stratumOf, strata, all, u, order[q]);
    }
    CountsDealt(catalogue, stratumOf, order, all, r, p);
  }

  lemma CountsDealt<A>(catalogue: seq<A>, stratumOf: A -> string, order: seq<string>, all: set<nat>, r: nat, p: nat)
    requires ArePlaces(|catalogue|, all) && p <= |order|
    requires forall q :: 0 <= q < |order| ==>
      DrawnAt(catalogue, stratumOf, order[q], all)
        == Least(RoundsAt(r, p, q), MembersAt(catalogue, stratumOf, order[q]))
    ensures DealtAt(catalogue, stratumOf, order, all, r, p)
  {
    hide Pool, RoundsAt;
  }

  // ---------------------------------------------------------------- every sample

  /** The draws of one stream up to a place, and of another from there. */
  function Joined(a: nat -> nat, b: nat -> nat, n: nat): nat -> nat {
    (k: nat) => if k < n then a(k) else b(k)
  }

  lemma JoinedIs(a: nat -> nat, b: nat -> nat, n: nat)
    ensures forall k: nat :: k < n ==> Joined(a, b, n)(k) == a(k)
    ensures forall k: nat :: n <= k ==> Joined(a, b, n)(k) == b(k)
  {
  }

  /** Any order of the strata, and after it any deal in that order, is what one stream draws. */
  lemma {:induction false} OrderThenDeal<A>(
    catalogue: seq<A>, stratumOf: A -> string, order: seq<string>, all: set<nat>, r: nat, p: nat) returns (draws: nat -> nat)
    requires Distinct(catalogue) && multiset(order) == multiset(Strata(catalogue, stratumOf))
    requires DealtAt(catalogue, stratumOf, order, all, r, p) && |all| < |catalogue|
    ensures ShuffledTo(Strata(catalogue, stratumOf), draws, 0, |Strata(catalogue, stratumOf)| - 1) == order
    ensures PlacesDrawn(catalogue, stratumOf, |all|, draws) == all
  {
    var strata := Strata(catalogue, stratumOf);
    StrataAre(catalogue, stratumOf);
    SameItems(strata, order);
    StrataPopulated(catalogue, stratumOf, order);
    PopulatedByPlace(catalogue, stratumOf, order);
    PlacesDealt(catalogue, stratumOf, order, all, r, p);
    StartDealt(catalogue, stratumOf, order);
    AllOpen(strata, order);
    SpentNone(catalogue, stratumOf, order, {});
    hide *;
    var n := if |strata| == 0 then 0 else |strata| - 1;
    var a := AnyOrder(strata, order, 0, |strata| - 1);
    var b := AnyDeal(catalogue, stratumOf, order, all, r, p, {}, 0, n, 0, false);
    draws := Joined(a, b, n);
    JoinedIs(a, b, n);
    ShuffleEarly(strata, draws, a, n);
    LaterDeal(catalogue, stratumOf, order, |all|, draws, b, {}, n, 0, false);
    DrawnInTurn(catalogue, stratumOf, |all|, draws);
  }

  lemma AllOpen(items: seq<string>, target: seq<string>)
    requires |items| == |target| && multiset(items) == multiset(target)
    ensures OpenTo(items, target, |items| - 1)
  {
    assert items[..|items|] == items && target[..|items|] == target;
  }

  /** A shuffle draws once for each place but the first. */
  lemma ShuffleEarly(items: seq<string>, a: nat -> nat, b: nat -> nat, n: nat)
    requires n == (if |items| == 0 then 0 else |items| - 1) && forall k: nat :: k < n ==> a(k) == b(k)
    ensures ShuffledTo(items, a, 0, |items| - 1) == ShuffledTo(items, b, 0, |items| - 1)
  {
    if n > 0 {
      EarlyShuffle(items, a, b, 0, n);
    }
  }

  lemma {:induction false} EarlyShuffle(items: seq<string>, a: nat -> nat, b: nat -> nat, from: nat, last: nat)
    requires last < |items| && forall k :: from <= k < from + last ==> a(k) == b(k)
    ensures ShuffledTo(items, a, from, last) == ShuffledTo(items, b, from, last)
    decreases last
  {
    if last > 0 {
      EarlyShuffle(Swapped(items, last, a(from) % (last + 1)), a, b, from + 1, last - 1);
    }
  }

  /** Counted by places or by assets, a choice without repeats is balanced alike. */
  lemma BalancedByPlace<A>(catalogue: seq<A>, stratumOf: A -> string, chosen: set<A>, all: set<nat>)
    requires forall i: nat :: i < |catalogue| ==> (catalogue[i] in chosen <==> i in all)
    requires Balanced(catalogue, stratumOf, Filtered(catalogue, chosen, true))
    ensures BalancedAt(catalogue, stratumOf, Strata(catalogue, stratumOf), all)
  {
    var n := |catalogue|;
    assert catalogue[..n] == catalogue;
    hide Pool, Strata, Filtered, CountIn;
    forall t
      ensures DrawnAt(catalogue, stratumOf, t, all) == CountIn(Filtered(catalogue, chosen, true), stratumOf, t)
      ensures MembersAt(catalogue, stratumOf, t) == CountIn(catalogue, stratumOf, t)
    {
      PoolByPlace(catalogue, stratumOf, t, chosen, all, true, n);
      MembersByPlace(catalogue, stratumOf, t);
      CountIsDrawn(catalogue, stratumOf, t, chosen);
    }
  }

  /** The places where these assets stand. */
  function PlacesOf<A(==)>(catalogue: seq<A>, chosen: set<A>): (all: set<nat>)
    ensures forall i: nat :: i in all <==> i < |catalogue| && catalogue[i] in chosen
  {
    set i: nat | 0 <= i < |catalogue| && catalogue[i] in chosen
  }

  lemma PlacesOfAll<A>(catalogue: seq<A>, chosen: set<A>)
    requires Distinct(catalogue) && FromCatalogue(catalogue, chosen)
    ensures ArePlaces(|catalogue|, PlacesOf(catalogue, chosen))
    ensures ObjectsAt(catalogue, PlacesOf(catalogue, chosen)) == chosen
    ensures |PlacesOf(catalogue, chosen)| == |chosen|
  {
    var all := PlacesOf(catalogue, chosen);
    forall a | a in chosen
      ensures a in ObjectsAt(catalogue, all)
    {
      var i :| 0 <= i < |catalogue| && catalogue[i] == a;
      assert i in all;
    }
    assert ObjectsAt(catalogue, all) == chosen;
    ObjectsCount(catalogue, all);
  }

  /** Every balanced choice of part of a catalogue is the sample some stream draws. */
  lemma {:induction false} EveryBalancedSampleIsDrawn<A>(catalogue: seq<A>, stratumOf: A -> string, chosen: set<A>)
    returns (draws: nat -> nat)
    requires Distinct(catalogue) && FromCatalogue(catalogue, chosen) && |chosen| < |catalogue|
    requires Balanced(catalogue, stratumOf, Filtered(catalogue, chosen, true))
    ensures ObjectsAt(catalogue, PlacesDrawn(catalogue, stratumOf, |chosen|, draws)) == chosen
  {
    var all := PlacesOf(catalogue, chosen);
    PlacesOfAll(catalogue, chosen);
    BalancedByPlace(catalogue, stratumOf, chosen, all);
    StrataAre(catalogue, stratumOf);
    hide Balanced, Filtered, Strata, Distinct, DealtAt, ObjectsAt, PlacesDrawn, ShuffledTo, BalancedAt;
    var order, r, p := BalancedIsDealt(catalogue, stratumOf, Strata(catalogue, stratumOf), all);
    draws := OrderThenDeal(catalogue, stratumOf, order, all, r, p);
  }
}
