/**
The fixed, stratified sample of a catalogue (packages/engine/src/catalogueSample.ts), for
every stream of draws.
*/
module CatalogueSamples {
  import opened Prelude

  datatype SampleError = BadSize | TooManyStrata

  datatype CatalogueSample<A> = CatalogueSample(measured: seq<A>, unmeasured: seq<A>, strata: seq<string>, whole: bool)

  // ---------------------------------------------------------------- strata

  /** The strata of a catalogue, in first-seen order. */
  function Strata<A>(catalogue: seq<A>, stratumOf: A -> string): (strata: seq<string>) {
    if catalogue == [] then []
    else
      var n := |catalogue| - 1;
      var before := Strata(catalogue[..n], stratumOf);
      if stratumOf(catalogue[n]) in before then before else before + [stratumOf(catalogue[n])]
  }

  predicate Distinct<T(==)>(items: seq<T>) {
    forall i, j :: 0 <= i < j < |items| ==> items[i] != items[j]
  }

  lemma {:induction false} StrataAre<A>(catalogue: seq<A>, stratumOf: A -> string)
    ensures Distinct(Strata(catalogue, stratumOf))
    ensures forall a | a in catalogue :: stratumOf(a) in Strata(catalogue, stratumOf)
    ensures forall t | t in Strata(catalogue, stratumOf) :: exists i :: 0 <= i < |catalogue| && stratumOf(catalogue[i]) == t
    decreases |catalogue|
  {
    if catalogue != [] {
      var n := |catalogue| - 1;
      StrataAre(catalogue[..n], stratumOf);
      assert catalogue == catalogue[..n] + [catalogue[n]];
      forall t | t in Strata(catalogue, stratumOf)
        ensures exists i :: 0 <= i < |catalogue| && stratumOf(catalogue[i]) == t
      {
        if t in Strata(catalogue[..n], stratumOf) {
          var i :| 0 <= i < n && stratumOf(catalogue[..n][i]) == t;
          assert stratumOf(catalogue[i]) == t;
        } else {
          assert stratumOf(catalogue[n]) == t;
        }
      }
    }
  }

  /** Where a stratum is first seen. */
  ghost predicate SeenFirst<A>(catalogue: seq<A>, stratumOf: A -> string, t: string, i: nat) {
    i < |catalogue| && stratumOf(catalogue[i]) == t && forall j :: 0 <= j < i ==> stratumOf(catalogue[j]) != t
  }

  lemma StrataStep<A>(catalogue: seq<A>, stratumOf: A -> string)
    requires catalogue != []
    ensures var n := |catalogue| - 1;
      var before := Strata(catalogue[..n], stratumOf);
      Strata(catalogue, stratumOf)
        == if stratumOf(catalogue[n]) in before then before else before + [stratumOf(catalogue[n])]
  {
  }

  /** The strata stand in the order they are first seen in. */
  lemma {:induction false} StrataInOrder<A>(catalogue: seq<A>, stratumOf: A -> string, p: nat, i: nat, q: nat, j: nat)
    requires p < q < |Strata(catalogue, stratumOf)|
    requires SeenFirst(catalogue, stratumOf, Strata(catalogue, stratumOf)[p], i)
    requires SeenFirst(catalogue, stratumOf, Strata(catalogue, stratumOf)[q], j)
    ensures i < j
    decreases |catalogue|
  {
    StrataStep(catalogue, stratumOf);
    hide Strata;
    var n := |catalogue| - 1;
    var before := Strata(catalogue[..n], stratumOf);
    SeenInFront(catalogue, stratumOf, p, i, n);
    if q < |before| {
      SeenInFront(catalogue, stratumOf, q, j, n);
      StrataInOrder(catalogue[..n], stratumOf, p, i, q, j);
    } else if j < n {
      StratumKept(catalogue, stratumOf, j, n);
    }
  }

  /** What the front brings is seen first in the front. */
  lemma SeenInFront<A>(catalogue: seq<A>, stratumOf: A -> string, p: nat, i: nat, n: nat)
    requires n <= |catalogue| && p < |Strata(catalogue[..n], stratumOf)|
    requires SeenFirst(catalogue, stratumOf, Strata(catalogue[..n], stratumOf)[p], i)
    ensures i < n && SeenFirst(catalogue[..n], stratumOf, Strata(catalogue[..n], stratumOf)[p], i)
  {
    var front, t := catalogue[..n], Strata(catalogue[..n], stratumOf)[p];
    StrataAre(front, stratumOf);
    hide Strata;
    assert t in Strata(front, stratumOf);
    var k :| 0 <= k < n && stratumOf(front[k]) == t;
    assert stratumOf(catalogue[k]) == t;
  }

  lemma StratumKept<A>(catalogue: seq<A>, stratumOf: A -> string, j: nat, n: nat)
    requires j < n <= |catalogue|
    ensures stratumOf(catalogue[j]) in Strata(catalogue[..n], stratumOf)
  {
    StrataAre(catalogue[..n], stratumOf);
    hide Strata;
    assert catalogue[..n][j] in catalogue[..n];
  }

  // ---------------------------------------------------------------- what is drawn and what is left

  /** The assets of a stratum that are chosen, or that are not, in catalogue order. */
  function Pool<A(==)>(catalogue: seq<A>, stratumOf: A -> string, t: string, chosen: set<A>, drawn: bool): (pool: seq<A>)
    ensures forall a | a in pool :: a in catalogue && stratumOf(a) == t && (a in chosen <==> drawn)
  {
    if catalogue == [] then []
    else
      var n := |catalogue| - 1;
      var a := catalogue[n];
      Pool(catalogue[..n], stratumOf, t, chosen, drawn)
      + if stratumOf(a) == t && (a in chosen <==> drawn) then [a] else []
  }

  /** How many of a stratum are drawn, and how many are in it. */
  function Drawn<A(==)>(catalogue: seq<A>, stratumOf: A -> string, t: string, chosen: set<A>): nat {
    |Pool(catalogue, stratumOf, t, chosen, true)|
  }

  function Members<A(==)>(catalogue: seq<A>, stratumOf: A -> string, t: string): seq<A> {
    Pool(catalogue, stratumOf, t, {}, false)
  }

  lemma {:induction false} DrawnAndLeft<A>(catalogue: seq<A>, stratumOf: A -> string, t: string, chosen: set<A>)
    ensures Drawn(catalogue, stratumOf, t, chosen) + |Pool(catalogue, stratumOf, t, chosen, false)|
      == |Members(catalogue, stratumOf, t)|
    decreases |catalogue|
  {
    if catalogue != [] {
      DrawnAndLeft(catalogue[..|catalogue| - 1], stratumOf, t, chosen);
    }
  }

  lemma {:induction false} PoolHas<A>(catalogue: seq<A>, stratumOf: A -> string, a: A, chosen: set<A>, drawn: bool)
    requires a in catalogue && (a in chosen <==> drawn)
    ensures a in Pool(catalogue, stratumOf, stratumOf(a), chosen, drawn)
    decreases |catalogue|
  {
    var n := |catalogue| - 1;
    if a in catalogue[..n] {
      PoolHas(catalogue[..n], stratumOf, a, chosen, drawn);
    } else {
      assert a == catalogue[n];
    }
  }

  /** Choosing something elsewhere leaves a pool as it was. */
  lemma {:induction false} PoolUnchanged<A>(
    catalogue: seq<A>, stratumOf: A -> string, t: string, chosen: set<A>, a: A, drawn: bool)
    requires a !in catalogue || stratumOf(a) != t
    ensures Pool(catalogue, stratumOf, t, chosen + {a}, drawn) == Pool(catalogue, stratumOf, t, chosen, drawn)
    decreases |catalogue|
  {
    if catalogue != [] {
      PoolUnchanged(catalogue[..|catalogue| - 1], stratumOf, t, chosen, a, drawn);
    }
  }

  function Without<T>(s: seq<T>, i: nat): seq<T>
    requires i < |s|
  {
    s[..i] + s[i + 1..]
  }

  /** Choosing one of what is left takes exactly it out of its pool, and one more of its stratum is drawn. */
  lemma {:induction false} PoolDraws<A>(catalogue: seq<A>, stratumOf: A -> string, t: string, chosen: set<A>, i: nat)
    requires Distinct(catalogue) && i < |Pool(catalogue, stratumOf, t, chosen, false)|
    ensures var left := Pool(catalogue, stratumOf, t, chosen, false);
      && left[i] !in chosen && left[i] in catalogue && stratumOf(left[i]) == t
      && Pool(catalogue, stratumOf, t, chosen + {left[i]}, false) == Without(left, i)
      && Drawn(catalogue, stratumOf, t, chosen + {left[i]}) == Drawn(catalogue, stratumOf, t, chosen) + 1
    decreases |catalogue|
  {
    hide Pool, Distinct;
    var n := |catalogue| - 1;
    PoolStep(catalogue, stratumOf, t, chosen, false);
    var front, last := catalogue[..n], catalogue[n];
    var left, before := Pool(catalogue, stratumOf, t, chosen, false), Pool(front, stratumOf, t, chosen, false);
    var a := left[i];
    assert left[i] in left;
    DistinctFront(catalogue);
    PoolStep(catalogue, stratumOf, t, chosen + {a}, false);
    PoolStep(catalogue, stratumOf, t, chosen, true);
    PoolStep(catalogue, stratumOf, t, chosen + {a}, true);
    if i < |before| {
      PoolDraws(front, stratumOf, t, chosen, i);
      assert a == before[i] && a in before;
      WithoutGrows(before, i, last);
    } else {
      PoolUnchanged(front, stratumOf, t, chosen, a, false);
      PoolUnchanged(front, stratumOf, t, chosen, a, true);
      WithoutLast(before, last);
    }
  }

  lemma PoolStep<A>(catalogue: seq<A>, stratumOf: A -> string, t: string, chosen: set<A>, drawn: bool)
    ensures catalogue == [] ==> Pool(catalogue, stratumOf, t, chosen, drawn) == []
    ensures catalogue != [] ==>
      var n := |catalogue| - 1;
      var a := catalogue[n];
      var front := Pool(catalogue[..n], stratumOf, t, chosen, drawn);
      Pool(catalogue, stratumOf, t, chosen, drawn)
        == if stratumOf(a) == t && (a in chosen <==> drawn) then front + [a] else front
  {
    if catalogue != [] {
      ConcatUnit(Pool(catalogue[..|catalogue| - 1], stratumOf, t, chosen, drawn));
    }
  }

  lemma DistinctFront<T>(items: seq<T>)
    requires Distinct(items) && items != []
    ensures Distinct(items[..|items| - 1]) && items[|items| - 1] !in items[..|items| - 1]
  {
  }

  lemma WithoutGrows<T>(s: seq<T>, i: nat, last: T)
    requires i < |s|
    ensures Without(s, i) + [last] == Without(s + [last], i)
  {
  }

  lemma WithoutLast<T>(s: seq<T>, last: T)
    ensures Without(s + [last], |s|) == s
  {
  }

  lemma {:induction false} DistinctCount<A>(items: seq<A>)
    requires Distinct(items)
    ensures |set x | x in items| == |items|
    decreases |items|
  {
    if items != [] {
      var n := |items| - 1;
      DistinctCount(items[..n]);
      assert (set x | x in items) == (set x | x in items[..n]) + {items[n]};
    }
  }

  lemma {:induction false} SubsetCount<A>(a: set<A>, b: set<A>)
    requires a <= b
    ensures |a| <= |b|
    decreases |a|
  {
    if a != {} {
      var x :| x in a;
      SubsetCount(a - {x}, b - {x});
    }
  }

  // ---------------------------------------------------------------- rounds

  function Least(a: nat, b: nat): nat {
    if a < b then a else b
  }

  /** How many rounds have reached the stratum at a place of the order, p places into round r. */
  function RoundsAt(r: nat, p: nat, place: nat): nat {
    if place < p then r + 1 else r
  }

  /** Every stratum has been drawn from once a round, as long as it lasted. */
  ghost predicate Dealt<A>(catalogue: seq<A>, stratumOf: A -> string, order: seq<string>, chosen: set<A>, r: nat, p: nat) {
    forall q :: 0 <= q < |order| ==>
      Drawn(catalogue, stratumOf, order[q], chosen)
        == Least(RoundsAt(r, p, q), |Members(catalogue, stratumOf, order[q])|)
  }

  ghost predicate FromCatalogue<A>(catalogue: seq<A>, chosen: set<A>) {
    forall a :: a in chosen ==> a in catalogue
  }

  lemma NothingDealt<A>(catalogue: seq<A>, stratumOf: A -> string, order: seq<string>)
    ensures Dealt(catalogue, stratumOf, order, {}, 0, 0)
  {
    forall q | 0 <= q < |order|
      ensures Drawn(catalogue, stratumOf, order[q], {}) == 0
    {
      DrawnAndLeft(catalogue, stratumOf, order[q], {});
    }
  }

  /** A whole round leads to the next. */
  lemma RoundOver<A>(catalogue: seq<A>, stratumOf: A -> string, order: seq<string>, chosen: set<A>, r: nat)
    requires Dealt(catalogue, stratumOf, order, chosen, r, |order|)
    ensures Dealt(catalogue, stratumOf, order, chosen, r + 1, 0)
  {
  }

  /** A stratum with nothing left has had its rounds. */
  lemma PoolEmpty<A>(catalogue: seq<A>, stratumOf: A -> string, order: seq<string>, chosen: set<A>, r: nat, p: nat)
    requires Dealt(catalogue, stratumOf, order, chosen, r, p) && p < |order|
    requires Pool(catalogue, stratumOf, order[p], chosen, false) == []
    ensures Dealt(catalogue, stratumOf, order, chosen, r, p + 1)
    ensures Members(catalogue, stratumOf, order[p]) != [] ==> r > 0
  {
    DrawnAndLeft(catalogue, stratumOf, order[p], chosen);
    hide Pool;
  }

  /** One draw from the stratum whose turn it is. */
  lemma OneDealt<A>(catalogue: seq<A>, stratumOf: A -> string, order: seq<string>, chosen: set<A>, r: nat, p: nat, i: nat)
    requires Distinct(catalogue) && Distinct(order)
    requires Dealt(catalogue, stratumOf, order, chosen, r, p) && p < |order|
    requires i < |Pool(catalogue, stratumOf, order[p], chosen, false)|
    ensures Dealt(catalogue, stratumOf, order, chosen + {Pool(catalogue, stratumOf, order[p], chosen, false)[i]}, r, p + 1)
  {
    var a := Pool(catalogue, stratumOf, order[p], chosen, false)[i];
    PoolDraws(catalogue, stratumOf, order[p], chosen, i);
    DrawnAndLeft(catalogue, stratumOf, order[p], chosen);
    forall q | 0 <= q < |order| && q != p
      ensures Drawn(catalogue, stratumOf, order[q], chosen + {a}) == Drawn(catalogue, stratumOf, order[q], chosen)
    {
      assert order[q] != order[p];
      PoolUnchanged(catalogue, stratumOf, order[q], chosen, a, true);
    }
    hide Pool;
  }

  function Swapped(items: seq<string>, i: nat, j: nat): (swapped: seq<string>)
    requires i < |items| && j < |items|
    ensures |swapped| == |items|
  {
    items[i := items[j]][j := items[i]]
  }

  /** The places up to the last of these shuffled, from the last down: one draw a place. */
  function ShuffledTo(items: seq<string>, draws: nat -> nat, from: nat, last: int): seq<string>
    requires last < |items|
    decreases last
  {
    if last <= 0 then items
    else ShuffledTo(Swapped(items, last, draws(from) % (last + 1)), draws, from + 1, last - 1)
  }

  /** Fisher and Yates, from the last place down. */
  method Shuffled(items: seq<string>, draws: nat -> nat, from: nat) returns (order: seq<string>, next: nat)
    ensures multiset(order) == multiset(items)
    ensures order == ShuffledTo(items, draws, from, |items| - 1)
    ensures next == if |items| == 0 then from else from + |items| - 1
  {
    hide ShuffledTo;
    order, next := items, from;
    var i := |items| - 1;
    while i > 0
      invariant |order| == |items| && -1 <= i < |items| && (|items| > 0 ==> i >= 0)
      invariant multiset(order) == multiset(items)
      invariant next + i == from + |items| - 1
      invariant ShuffledTo(items, draws, from, |items| - 1) == ShuffledTo(order, draws, next, i)
    {
      var j := draws(next) % (i + 1);
      ShuffleStep(order, draws, next, i);
      SwapKeeps(order, i, j);
      next := next + 1;
      order := order[i := order[j]][j := order[i]];
      i := i - 1;
    }
    ShuffleStep(order, draws, next, i);
  }

  lemma ShuffleStep(items: seq<string>, draws: nat -> nat, from: nat, last: int)
    requires last < |items|
    ensures ShuffledTo(items, draws, from, last) ==
      if last <= 0 then items
      else ShuffledTo(Swapped(items, last, draws(from) % (last + 1)), draws, from + 1, last - 1)
  {
    hide Swapped;
  }

  lemma SwapKeeps(items: seq<string>, i: nat, j: nat)
    requires i < |items| && j < |items|
    ensures multiset(Swapped(items, i, j)) == multiset(items)
  {
  }

  lemma SameItems(a: seq<string>, b: seq<string>)
    requires multiset(a) == multiset(b) && Distinct(a)
    ensures Distinct(b) && |a| == |b| && forall t :: t in a <==> t in b
  {
    assert |multiset(a)| == |multiset(b)|;
    forall t
      ensures t in a <==> t in b
    {
      assert t in multiset(a) <==> t in multiset(b);
    }
    forall i, j | 0 <= i < j < |b|
      ensures b[i] != b[j]
    {
      if b[i] == b[j] {
        TwicePresent(b, i, j);
        OncePresent(a, b[i]);
      }
    }
  }

  lemma {:induction false} OncePresent(a: seq<string>, t: string)
    requires Distinct(a)
    ensures multiset(a)[t] <= 1
    decreases |a|
  {
    if a != [] {
      var n := |a| - 1;
      OncePresent(a[..n], t);
      assert a == a[..n] + [a[n]];
      if a[n] == t {
        assert t !in a[..n];
      }
    }
  }

  lemma TwicePresent(b: seq<string>, i: nat, j: nat)
    requires i < j < |b| && b[i] == b[j]
    ensures multiset(b)[b[i]] >= 2
  {
    assert b == b[..j] + [b[j]] + b[j + 1..];
    assert b[i] in b[..j];
  }

  /** No stratum of the order is empty. */
  ghost predicate AllPopulated<A>(catalogue: seq<A>, stratumOf: A -> string, order: seq<string>) {
    forall q :: 0 <= q < |order| ==> Members(catalogue, stratumOf, order[q]) != []
  }

  /** The places of a catalogue. What is left of a stratum is a list of entries, so two entries are two places. */
  function Places(n: nat): (places: seq<nat>)
    ensures |places| == n && forall i :: 0 <= i < n ==> places[i] == i
  {
    seq(n, i requires 0 <= i < n => i)
  }

  function StratumAt<A>(catalogue: seq<A>, stratumOf: A -> string): nat -> string {
    (i: nat) => if i < |catalogue| then stratumOf(catalogue[i]) else ""
  }

  /** What stands at these places. */
  function ObjectsAt<A(==)>(catalogue: seq<A>, drawn: set<nat>): set<A> {
    set i | i in drawn && i < |catalogue| :: catalogue[i]
  }

  ghost predicate ArePlaces(n: nat, drawn: set<nat>) {
    forall i :: i in drawn ==> i < n
  }

  lemma {:induction false} PlacesCount(n: nat, drawn: set<nat>)
    requires ArePlaces(n, drawn)
    ensures |drawn| <= n
    ensures |drawn| == n <==> forall i: nat :: i < n ==> i in drawn
    decreases n
  {
    if n == 0 {
      assert drawn == {};
    } else {
      var smaller := drawn - {n - 1};
      PlacesCount(n - 1, smaller);
      if n - 1 in drawn {
        assert drawn == smaller + {n - 1};
        assert forall i: nat :: i < n - 1 ==> (i in drawn <==> i in smaller);
      } else {
        assert drawn == smaller;
      }
    }
  }

  /** As many objects as places, and no fewer where no object stands twice. */
  lemma {:induction false} ObjectsCount<A>(catalogue: seq<A>, drawn: set<nat>)
    requires ArePlaces(|catalogue|, drawn)
    ensures |ObjectsAt(catalogue, drawn)| <= |drawn|
    ensures Distinct(catalogue) ==> |ObjectsAt(catalogue, drawn)| == |drawn|
    decreases |drawn|
  {
    if drawn == {} {
      assert ObjectsAt(catalogue, drawn) == {};
    } else {
      var i :| i in drawn;
      ObjectsCount(catalogue, drawn - {i});
      ObjectsAdd(catalogue, drawn - {i}, i);
      assert drawn - {i} + {i} == drawn;
      if Distinct(catalogue) {
        assert catalogue[i] !in ObjectsAt(catalogue, drawn - {i});
      }
    }
  }

  lemma ObjectsAdd<A>(catalogue: seq<A>, drawn: set<nat>, i: nat)
    requires i < |catalogue|
    ensures ObjectsAt(catalogue, drawn + {i}) == ObjectsAt(catalogue, drawn) + {catalogue[i]}
  {
  }

  /** Counting by places is counting by assets, where an asset is chosen exactly when its place is drawn. */
  lemma {:induction false} PoolByPlace<A>(
    catalogue: seq<A>, stratumOf: A -> string, t: string, chosen: set<A>, drawn: set<nat>, wanted: bool, n: nat)
    requires n <= |catalogue|
    requires forall i: nat :: i < n ==> (catalogue[i] in chosen <==> i in drawn)
    ensures |Pool(Places(n), StratumAt(catalogue, stratumOf), t, drawn, wanted)|
      == |Pool(catalogue[..n], stratumOf, t, chosen, wanted)|
    decreases n
  {
    if n > 0 {
      PoolByPlace(catalogue, stratumOf, t, chosen, drawn, wanted, n - 1);
      assert Places(n)[..n - 1] == Places(n - 1);
      assert catalogue[..n][..n - 1] == catalogue[..n - 1];
      PoolStep(Places(n), StratumAt(catalogue, stratumOf), t, drawn, wanted);
      PoolStep(catalogue[..n], stratumOf, t, chosen, wanted);
      hide Pool;
    }
  }

  lemma MembersByPlace<A>(catalogue: seq<A>, stratumOf: A -> string, t: string)
    ensures |Members(Places(|catalogue|), StratumAt(catalogue, stratumOf), t)| == |Members(catalogue, stratumOf, t)|
  {
    PoolByPlace(catalogue, stratumOf, t, {}, {}, false, |catalogue|);
    assert catalogue[..|catalogue|] == catalogue;
  }

  /** Where no pool has anything left, every place is drawn. */
  lemma NothingLeft<A>(catalogue: seq<A>, stratumOf: A -> string, order: seq<string>, drawn: set<nat>)
    requires forall a | a in catalogue :: stratumOf(a) in order
    requires ArePlaces(|catalogue|, drawn)
    requires forall q :: 0 <= q < |order| ==>
      Pool(Places(|catalogue|), StratumAt(catalogue, stratumOf), order[q], drawn, false) == []
    ensures |drawn| == |catalogue|
  {
    hide Pool;
    forall i: nat | i < |catalogue|
      ensures i in drawn
    {
      assert Places(|catalogue|)[i] == i && catalogue[i] in catalogue;
      var q :| 0 <= q < |order| && order[q] == stratumOf(catalogue[i]);
      assert Pool(Places(|catalogue|), StratumAt(catalogue, stratumOf), order[q], drawn, false) == [];
      if i !in drawn {
        PoolHas(Places(|catalogue|), StratumAt(catalogue, stratumOf), i, drawn, false);
      }
    }
    PlacesCount(|catalogue|, drawn);
  }

  /** No stratum of the order is empty. */
  ghost predicate AllPopulatedAt<A>(catalogue: seq<A>, stratumOf: A -> string, order: seq<string>) {
    AllPopulated(Places(|catalogue|), StratumAt(catalogue, stratumOf), order)
  }

  lemma PopulatedByPlace<A>(catalogue: seq<A>, stratumOf: A -> string, order: seq<string>)
    requires AllPopulated(catalogue, stratumOf, order)
    ensures AllPopulatedAt(catalogue, stratumOf, order)
  {
    hide Members;
    forall q | 0 <= q < |order|
      ensures Members(Places(|catalogue|), StratumAt(catalogue, stratumOf), order[q]) != []
    {
      MembersByPlace(catalogue, stratumOf, order[q]);
    }
  }

  /** What the deal has done so far, by places. */
  ghost predicate DealtAt<A>(
    catalogue: seq<A>, stratumOf: A -> string, order: seq<string>, drawn: set<nat>, r: nat, p: nat)
  {
    ArePlaces(|catalogue|, drawn) && p <= |order|
    && Dealt(Places(|catalogue|), StratumAt(catalogue, stratumOf), order, drawn, r, p)
  }

  function Left<A>(catalogue: seq<A>, stratumOf: A -> string, t: string, drawn: set<nat>): seq<nat> {
    Pool(Places(|catalogue|), StratumAt(catalogue, stratumOf), t, drawn, false)
  }

  lemma OneDealtAt<A>(
    catalogue: seq<A>, stratumOf: A -> string, order: seq<string>, drawn: set<nat>, r: nat, p: nat, index: nat)
    requires DealtAt(catalogue, stratumOf, order, drawn, r, p) && p < |order| && Distinct(order)
    requires index < |Left(catalogue, stratumOf, order[p], drawn)|
    ensures var i := Left(catalogue, stratumOf, order[p], drawn)[index];
      && i < |catalogue| && i !in drawn && DealtAt(catalogue, stratumOf, order, drawn + {i}, r, p + 1)
      && ObjectsAt(catalogue, drawn + {i}) == ObjectsAt(catalogue, drawn) + {catalogue[i]}
  {
    var places, at := Places(|catalogue|), StratumAt(catalogue, stratumOf);
    OneDealt(places, at, order, drawn, r, p, index);
    PoolDraws(places, at, order[p], drawn, index);
    ObjectsAdd(catalogue, drawn, Left(catalogue, stratumOf, order[p], drawn)[index]);
    hide Pool, Dealt, Drawn;
  }

  lemma PoolEmptyAt<A>(catalogue: seq<A>, stratumOf: A -> string, order: seq<string>, drawn: set<nat>, r: nat, p: nat)
    requires DealtAt(catalogue, stratumOf, order, drawn, r, p) && p < |order|
    requires Left(catalogue, stratumOf, order[p], drawn) == [] && AllPopulatedAt(catalogue, stratumOf, order)
    ensures DealtAt(catalogue, stratumOf, order, drawn, r, p + 1) && r > 0
  {
    PoolEmpty(Places(|catalogue|), StratumAt(catalogue, stratumOf), order, drawn, r, p);
    hide Pool, Dealt;
  }

  lemma StartDealt<A>(catalogue: seq<A>, stratumOf: A -> string, order: seq<string>)
    ensures DealtAt(catalogue, stratumOf, order, {}, 0, 0) && ObjectsAt(catalogue, {}) == {}
  {
    NothingDealt(Places(|catalogue|), StratumAt(catalogue, stratumOf), order);
  }

  lemma RoundOverAt<A>(catalogue: seq<A>, stratumOf: A -> string, order: seq<string>, drawn: set<nat>, r: nat)
    requires DealtAt(catalogue, stratumOf, order, drawn, r, |order|)
    ensures DealtAt(catalogue, stratumOf, order, drawn, r + 1, 0)
  {
    RoundOver(Places(|catalogue|), StratumAt(catalogue, stratumOf), order, drawn, r);
  }

  /**
  What the deal comes to from here on: the places drawn, the next draw, the place in the order, and
  whether this round has drawn anything.
  */
  function DealtFrom<A(==)>(
    catalogue: seq<A>, stratumOf: A -> string, order: seq<string>, size: nat, draws: nat -> nat,
    drawn: set<nat>, next: nat, place: nat, drewAny: bool): (all: set<nat>)
    requires ArePlaces(|catalogue|, drawn) && place <= |order|
    decreases |catalogue| - |drawn|, if drewAny then 1 else 0, |order| - place
  {
    PlacesCount(|catalogue|, drawn);
    if |ObjectsAt(catalogue, drawn)| >= size then drawn
    else if place < |order| then
      var left := Left(catalogue, stratumOf, order[place], drawn);
      if left == [] then DealtFrom(catalogue, stratumOf, order, size, draws, drawn, next, place + 1, drewAny)
      else
        var i := left[draws(next) % |left|];
        LeftIsUndrawn(catalogue, stratumOf, order[place], drawn, i);
        PlacesCount(|catalogue|, drawn + {i});
        DealtFrom(catalogue, stratumOf, order, size, draws, drawn + {i}, next + 1, place + 1, true)
    else if drewAny then DealtFrom(catalogue, stratumOf, order, size, draws, drawn, next, 0, false)
    else drawn
  }

  lemma DealtEnds<A>(
    catalogue: seq<A>, stratumOf: A -> string, order: seq<string>, size: nat, draws: nat -> nat,
    drawn: set<nat>, next: nat, place: nat, drewAny: bool)
    requires ArePlaces(|catalogue|, drawn) && place <= |order|
    requires |ObjectsAt(catalogue, drawn)| >= size || place == |order|
    ensures DealtFrom(catalogue, stratumOf, order, size, draws, drawn, next, place, drewAny) ==
      if |ObjectsAt(catalogue, drawn)| < size && drewAny
      then DealtFrom(catalogue, stratumOf, order, size, draws, drawn, next, 0, false) else drawn
  {
    hide ObjectsAt, Left;
  }

  lemma DealtSkips<A>(
    catalogue: seq<A>, stratumOf: A -> string, order: seq<string>, size: nat, draws: nat -> nat,
    drawn: set<nat>, next: nat, place: nat, drewAny: bool)
    requires ArePlaces(|catalogue|, drawn) && place < |order| && |ObjectsAt(catalogue, drawn)| < size
    requires Left(catalogue, stratumOf, order[place], drawn) == []
    ensures DealtFrom(catalogue, stratumOf, order, size, draws, drawn, next, place, drewAny)
      == DealtFrom(catalogue, stratumOf, order, size, draws, drawn, next, place + 1, drewAny)
  {
    hide ObjectsAt, Left;
  }

  lemma DealtDraws<A>(
    catalogue: seq<A>, stratumOf: A -> string, order: seq<string>, size: nat, draws: nat -> nat,
    drawn: set<nat>, next: nat, place: nat, drewAny: bool)
    requires ArePlaces(|catalogue|, drawn) && place < |order| && |ObjectsAt(catalogue, drawn)| < size
    requires Left(catalogue, stratumOf, order[place], drawn) != []
    ensures var left := Left(catalogue, stratumOf, order[place], drawn);
      var i := left[draws(next) % |left|];
      && i < |catalogue| && i !in drawn
      && DealtFrom(catalogue, stratumOf, order, size, draws, drawn, next, place, drewAny)
        == DealtFrom(catalogue, stratumOf, order, size, draws, drawn + {i}, next + 1, place + 1, true)
  {
    hide ObjectsAt, Left;
    var left := Left(catalogue, stratumOf, order[place], drawn);
    LeftIsUndrawn(catalogue, stratumOf, order[place], drawn, left[draws(next) % |left|]);
  }

  lemma LeftIsUndrawn<A>(catalogue: seq<A>, stratumOf: A -> string, t: string, drawn: set<nat>, i: nat)
    requires i in Left(catalogue, stratumOf, t, drawn)
    ensures i < |catalogue| && i !in drawn && stratumOf(catalogue[i]) == t
  {
    hide Pool;
    assert i in Places(|catalogue|);
  }

  /** One stratum's turn: a draw from what is left of it, or nothing. */
  method DealTurn<A(==)>(
    catalogue: seq<A>, stratumOf: A -> string, order: seq<string>, size: nat, draws: nat -> nat,
    wasChosen: set<A>, wasDrawn: set<nat>, from: nat, place: nat, ghost r: nat, ghost before: bool)
    returns (chosen: set<A>, drawn: set<nat>, next: nat, drew: bool)
    requires Distinct(order) && AllPopulatedAt(catalogue, stratumOf, order)
    requires place < |order| && DealtAt(catalogue, stratumOf, order, wasDrawn, r, place)
    requires wasChosen == ObjectsAt(catalogue, wasDrawn) && |wasChosen| < size && ArePlaces(|catalogue|, wasDrawn)
    ensures chosen == ObjectsAt(catalogue, drawn) && |chosen| <= size && ArePlaces(|catalogue|, drawn)
    ensures DealtAt(catalogue, stratumOf, order, drawn, r, place + 1)
    ensures drew ==> wasDrawn < drawn && |drawn| == |wasDrawn| + 1
    ensures !drew ==> r > 0 && drawn == wasDrawn && chosen == wasChosen && Left(catalogue, stratumOf, order[place], drawn) == []
    ensures DealtFrom(catalogue, stratumOf, order, size, draws, wasDrawn, from, place, before)
      == DealtFrom(catalogue, stratumOf, order, size, draws, drawn, next, place + 1, drew || before)
  {
    hide *;
    chosen, drawn, next, drew := wasChosen, wasDrawn, from, false;
    var left := Left(catalogue, stratumOf, order[place], drawn);
    if |left| > 0 {
      var index := draws(next) % |left|;
      next := next + 1;
      DealtDraws(catalogue, stratumOf, order, size, draws, drawn, from, place, before);
      OneDealtAt(catalogue, stratumOf, order, drawn, r, place, index);
      drawn := drawn + {left[index]};
      chosen := chosen + {catalogue[left[index]]};
      drew := true;
      PlacesDealt(catalogue, stratumOf, order, drawn, r, place + 1);
    } else {
      DealtSkips(catalogue, stratumOf, order, size, draws, drawn, next, place, before);
      PoolEmptyAt(catalogue, stratumOf, order, drawn, r, place);
    }
  }

  /** One round: a turn for each stratum, until the sample is full. */
  method DealRound<A(==)>(
    catalogue: seq<A>, stratumOf: A -> string, order: seq<string>, size: nat, draws: nat -> nat,
    wasChosen: set<A>, wasDrawn: set<nat>, from: nat, ghost r: nat)
    returns (chosen: set<A>, drawn: set<nat>, next: nat, drewAny: bool, ghost p: nat)
    requires Distinct(order) && AllPopulatedAt(catalogue, stratumOf, order)
    requires DealtAt(catalogue, stratumOf, order, wasDrawn, r, 0) && (r == 0 ==> wasDrawn == {})
    requires wasChosen == ObjectsAt(catalogue, wasDrawn) && |wasChosen| < size
    ensures chosen == ObjectsAt(catalogue, drawn) && |chosen| <= size
    ensures DealtAt(catalogue, stratumOf, order, drawn, r, p) && (r == 0 ==> p == |drawn|)
    ensures |chosen| < size ==> p == |order|
    ensures wasDrawn <= drawn && (drewAny <==> drawn != wasDrawn)
    ensures ArePlaces(|catalogue|, wasDrawn) && ArePlaces(|catalogue|, drawn) && p <= |order|
    ensures !drewAny ==> p == |order| && SpentTo(catalogue, stratumOf, order, drawn, p)
    ensures DealtFrom(catalogue, stratumOf, order, size, draws, wasDrawn, from, 0, false)
      == DealtFrom(catalogue, stratumOf, order, size, draws, drawn, next, p, drewAny)
  {
    PlacesDealt(catalogue, stratumOf, order, wasDrawn, r, 0);
    hide *;
    chosen, drawn, next, drewAny := wasChosen, wasDrawn, from, false;
    var place := 0;
    SpentNone(catalogue, stratumOf, order, drawn);
    while place < |order| && |chosen| < size
      invariant place <= |order| && |chosen| <= size && chosen == ObjectsAt(catalogue, drawn)
      invariant DealtAt(catalogue, stratumOf, order, drawn, r, place)
      invariant r == 0 ==> |drawn| == place
      invariant drewAny ==> wasDrawn < drawn
      invariant !drewAny ==> drawn == wasDrawn && |chosen| < size
      invariant !drewAny ==> SpentTo(catalogue, stratumOf, order, drawn, place)
      invariant ArePlaces(|catalogue|, drawn)
      invariant DealtFrom(catalogue, stratumOf, order, size, draws, wasDrawn, from, 0, false)
        == DealtFrom(catalogue, stratumOf, order, size, draws, drawn, next, place, drewAny)
      decreases |order| - place
    {
      var drew: bool;
      chosen, drawn, next, drew :=
        DealTurn(catalogue, stratumOf, order, size, draws, chosen, drawn, next, place, r, drewAny);
      drewAny := drew || drewAny;
      if !drewAny {
        SpentOneMore(catalogue, stratumOf, order, drawn, place);
      }
      place := place + 1;
    }
    p := place;
  }

  /** The rounds. They go on until the sample is full, or every entry of the catalogue is drawn. */
  method Deal<A(==)>(catalogue: seq<A>, stratumOf: A -> string, order: seq<string>, size: nat, draws: nat -> nat, from: nat)
    returns (chosen: set<A>, ghost drawn: set<nat>, ghost r: nat, ghost p: nat)
    requires Distinct(order) && AllPopulated(catalogue, stratumOf, order)
    requires forall a | a in catalogue :: stratumOf(a) in order
    ensures chosen == ObjectsAt(catalogue, drawn) && |chosen| <= size
    ensures |chosen| == size || |drawn| == |catalogue|
    ensures DealtAt(catalogue, stratumOf, order, drawn, r, p) && (r == 0 ==> p == |drawn|)
    ensures drawn == DealtFrom(catalogue, stratumOf, order, size, draws, {}, from, 0, false)
  {
    hide DealtFrom, DealtAt, AllPopulatedAt, Left, ObjectsAt, Distinct, AllPopulated;
    PopulatedByPlace(catalogue, stratumOf, order);
    StartDealt(catalogue, stratumOf, order);
    var taken: set<nat> := {};
    chosen := {};
    r, p := 0, 0;
    var next := from;
    while |chosen| < size
      invariant |chosen| <= size && chosen == ObjectsAt(catalogue, taken)
      invariant |chosen| < size ==> p == 0
      invariant DealtAt(catalogue, stratumOf, order, taken, r, p)
      invariant r == 0 ==> p == |taken|
      invariant ArePlaces(|catalogue|, taken) && p <= |order|
      invariant DealtFrom(catalogue, stratumOf, order, size, draws, {}, from, 0, false)
        == DealtFrom(catalogue, stratumOf, order, size, draws, taken, next, p, false)
      decreases |catalogue| - |taken|
    {
      PlacesDealt(catalogue, stratumOf, order, taken, r, p);
      var nextChosen, nextTaken, after, drewAny, reached :=
        DealRound(catalogue, stratumOf, order, size, draws, chosen, taken, next, r);
      DealtEnds(catalogue, stratumOf, order, size, draws, nextTaken, after, reached, drewAny);
      DealtEnds(catalogue, stratumOf, order, size, draws, nextTaken, after, reached, false);
      if !drewAny {
        AllDrawn(catalogue, stratumOf, order, taken);
        break;
      }
      PlacesDealt(catalogue, stratumOf, order, nextTaken, r, reached);
      MoreDrawn(taken, nextTaken);
      chosen, taken, next, p := nextChosen, nextTaken, after, reached;
      if |chosen| < size {
        RoundOverAt(catalogue, stratumOf, order, taken, r);
        r, p := r + 1, 0;
      }
    }
    drawn := taken;
    if |chosen| >= size {
      DealtEnds(catalogue, stratumOf, order, size, draws, taken, next, p, false);
    }
  }

  lemma MoreDrawn(a: set<nat>, b: set<nat>)
    requires a <= b && a != b
    ensures |a| < |b|
  {
    assert |b| == |a| + |b - a| by {
      assert b == a + (b - a);
    }
  }

  lemma PlacesDealt<A>(catalogue: seq<A>, stratumOf: A -> string, order: seq<string>, drawn: set<nat>, r: nat, p: nat)
    requires DealtAt(catalogue, stratumOf, order, drawn, r, p)
    ensures ArePlaces(|catalogue|, drawn) && |drawn| <= |catalogue|
  {
    hide Dealt;
    PlacesCount(|catalogue|, drawn);
  }

  /** The first n strata of the order have nothing left. */
  ghost predicate SpentTo<A>(catalogue: seq<A>, stratumOf: A -> string, order: seq<string>, drawn: set<nat>, n: nat)
    requires n <= |order|
  {
    forall q :: 0 <= q < n ==> Left(catalogue, stratumOf, order[q], drawn) == []
  }

  lemma SpentOneMore<A>(catalogue: seq<A>, stratumOf: A -> string, order: seq<string>, drawn: set<nat>, n: nat)
    requires n < |order| && SpentTo(catalogue, stratumOf, order, drawn, n)
    requires Left(catalogue, stratumOf, order[n], drawn) == []
    ensures SpentTo(catalogue, stratumOf, order, drawn, n + 1)
  {
    hide Left;
  }

  lemma SpentNone<A>(catalogue: seq<A>, stratumOf: A -> string, order: seq<string>, drawn: set<nat>)
    ensures SpentTo(catalogue, stratumOf, order, drawn, 0)
  {
  }

  lemma AllDrawn<A>(catalogue: seq<A>, stratumOf: A -> string, order: seq<string>, drawn: set<nat>)
    requires forall a | a in catalogue :: stratumOf(a) in order
    requires ArePlaces(|catalogue|, drawn) && SpentTo(catalogue, stratumOf, order, drawn, |order|)
    ensures |drawn| == |catalogue|
  {
    hide Pool;
    NothingLeft(catalogue, stratumOf, order, drawn);
  }

  // ---------------------------------------------------------------- the sample

  /** The assets of the catalogue in a set, or out of it, in catalogue order. */
  function Filtered<A(==)>(catalogue: seq<A>, chosen: set<A>, inside: bool): (kept: seq<A>)
    ensures forall a | a in kept :: a in catalogue && (a in chosen <==> inside)
    ensures forall a | a in catalogue && (a in chosen <==> inside) :: a in kept
  {
    if catalogue == [] then []
    else
      var n := |catalogue| - 1;
      var a := catalogue[n];
      Filtered(catalogue[..n], chosen, inside) + if a in chosen <==> inside then [a] else []
  }

  lemma {:induction false} FilteredCount<A>(catalogue: seq<A>, chosen: set<A>)
    requires Distinct(catalogue) && FromCatalogue(catalogue, chosen)
    ensures |Filtered(catalogue, chosen, true)| == |chosen|
    decreases |catalogue|
  {
    if catalogue == [] {
      assert chosen == {};
    } else {
      var n := |catalogue| - 1;
      DistinctFront(catalogue);
      FilteredCount(catalogue[..n], chosen - {catalogue[n]});
      FilteredSame(catalogue[..n], chosen, catalogue[n]);
    }
  }

  lemma {:induction false} FilteredSame<A>(catalogue: seq<A>, chosen: set<A>, a: A)
    requires a !in catalogue
    ensures Filtered(catalogue, chosen - {a}, true) == Filtered(catalogue, chosen, true)
    decreases |catalogue|
  {
    if catalogue != [] {
      FilteredSame(catalogue[..|catalogue| - 1], chosen, a);
    }
  }

  /** How many of a stratum are among these assets. */
  function CountIn<A>(assets: seq<A>, stratumOf: A -> string, t: string): nat {
    if assets == [] then 0
    else CountIn(assets[..|assets| - 1], stratumOf, t) + if stratumOf(assets[|assets| - 1]) == t then 1 else 0
  }

  lemma {:induction false} CountIsDrawn<A>(catalogue: seq<A>, stratumOf: A -> string, t: string, chosen: set<A>)
    ensures CountIn(Filtered(catalogue, chosen, true), stratumOf, t) == Drawn(catalogue, stratumOf, t, chosen)
    ensures CountIn(catalogue, stratumOf, t) == |Members(catalogue, stratumOf, t)|
    decreases |catalogue|
  {
    if catalogue != [] {
      var n := |catalogue| - 1;
      CountIsDrawn(catalogue[..n], stratumOf, t, chosen);
      var kept := Filtered(catalogue[..n], chosen, true);
      assert (kept + [catalogue[n]])[..|kept|] == kept;
      ConcatUnit(kept);
    }
  }

  /** No stratum has two more than another, unless the other is exhausted. */
  ghost predicate Balanced<A>(catalogue: seq<A>, stratumOf: A -> string, measured: seq<A>) {
    forall t, u | t in Strata(catalogue, stratumOf) && u in Strata(catalogue, stratumOf) ::
      || CountIn(measured, stratumOf, t) <= CountIn(measured, stratumOf, u) + 1
      || CountIn(measured, stratumOf, u) == CountIn(catalogue, stratumOf, u)
  }

  /** A deal is balanced, and reaches every stratum when it is at least as large as there are strata. */
  lemma DealtIsBalanced<A>(
    catalogue: seq<A>, stratumOf: A -> string, order: seq<string>, chosen: set<A>, r: nat, p: nat, size: nat)
    requires Dealt(catalogue, stratumOf, order, chosen, r, p) && p <= |order| <= size && (r == 0 ==> p == size)
    requires AllPopulated(catalogue, stratumOf, order)
    requires forall t :: t in Strata(catalogue, stratumOf) <==> t in order
    ensures Balanced(catalogue, stratumOf, Filtered(catalogue, chosen, true))
    ensures forall t | t in Strata(catalogue, stratumOf) :: CountIn(Filtered(catalogue, chosen, true), stratumOf, t) >= 1
  {
    var measured := Filtered(catalogue, chosen, true);
    hide Pool, Drawn, Members, Filtered, CountIn, Strata;
    forall t | t in order
      ensures exists k | r <= k <= r + 1 && k >= 1 :: CountIn(measured, stratumOf, t) == Least(k, CountIn(catalogue, stratumOf, t))
      ensures CountIn(catalogue, stratumOf, t) >= 1
    {
      var q :| 0 <= q < |order| && order[q] == t;
      CountIsDrawn(catalogue, stratumOf, t, chosen);
      assert Members(catalogue, stratumOf, order[q]) != [];
    }
  }

  lemma StrataPopulated<A>(catalogue: seq<A>, stratumOf: A -> string, order: seq<string>)
    requires forall t :: t in Strata(catalogue, stratumOf) <==> t in order
    ensures AllPopulated(catalogue, stratumOf, order)
    ensures forall a | a in catalogue :: stratumOf(a) in order
  {
    StrataAre(catalogue, stratumOf);
    forall q | 0 <= q < |order|
      ensures Members(catalogue, stratumOf, order[q]) != []
    {
      assert order[q] in order;
      var i :| 0 <= i < |catalogue| && stratumOf(catalogue[i]) == order[q];
      PoolHas(catalogue, stratumOf, catalogue[i], {}, false);
    }
  }

  /** The strata as the source collects them, first seen first. */
  method CollectStrata<A>(catalogue: seq<A>, stratumOf: A -> string) returns (strata: seq<string>)
    ensures strata == Strata(catalogue, stratumOf)
  {
    strata := [];
    var i := 0;
    while i < |catalogue|
      invariant 0 <= i <= |catalogue|
      invariant strata == Strata(catalogue[..i], stratumOf)
    {
      assert catalogue[..i + 1][..i] == catalogue[..i];
      var stratum := stratumOf(catalogue[i]);
      if stratum !in strata {
        strata := strata + [stratum];
      }
      i := i + 1;
    }
    assert catalogue[..i] == catalogue;
  }

  /** Where no asset stands twice, what the deal says of places it says of assets. */
  lemma DealtByAsset<A>(
    catalogue: seq<A>, stratumOf: A -> string, order: seq<string>, chosen: set<A>, drawn: set<nat>, r: nat, p: nat)
    requires Distinct(catalogue) && chosen == ObjectsAt(catalogue, drawn)
    requires DealtAt(catalogue, stratumOf, order, drawn, r, p)
    ensures Dealt(catalogue, stratumOf, order, chosen, r, p)
  {
    var n := |catalogue|;
    assert catalogue[..n] == catalogue;
    forall i: nat | i < n
      ensures catalogue[i] in chosen <==> i in drawn
    {
      if catalogue[i] in chosen {
        var k :| k in drawn && k < n && catalogue[k] == catalogue[i];
        assert k == i;
      }
    }
    hide Pool, Distinct, ObjectsAt;
    forall q | 0 <= q < |order|
      ensures Drawn(catalogue, stratumOf, order[q], chosen)
        == Least(RoundsAt(r, p, q), |Members(catalogue, stratumOf, order[q])|)
    {
      PoolByPlace(catalogue, stratumOf, order[q], chosen, drawn, true, n);
      MembersByPlace(catalogue, stratumOf, order[q]);
      hide Members;
    }
  }

  /** However often an asset stands in the catalogue, a deal that has gone round once reaches every stratum. */
  lemma EveryStratumReached<A>(
    catalogue: seq<A>, stratumOf: A -> string, order: seq<string>, chosen: set<A>, drawn: set<nat>, r: nat, p: nat, q: nat)
    requires chosen == ObjectsAt(catalogue, drawn) && DealtAt(catalogue, stratumOf, order, drawn, r, p)
    requires q < |order| && AllPopulated(catalogue, stratumOf, order) && (r == 0 ==> p == |order|)
    ensures CountIn(Filtered(catalogue, chosen, true), stratumOf, order[q]) >= 1
  {
    var t, at := order[q], StratumAt(catalogue, stratumOf);
    MembersByPlace(catalogue, stratumOf, t);
    var mine := Pool(Places(|catalogue|), at, t, drawn, true);
    assert |mine| >= 1 by {
      hide Pool;
      assert Members(catalogue, stratumOf, t) != [];
    }
    assert mine[0] in mine;
    var i := mine[0];
    hide Pool, Dealt, AllPopulated;
    assert i < |catalogue| && i in drawn && stratumOf(catalogue[i]) == t;
    assert catalogue[i] in chosen;
    CountedIn(Filtered(catalogue, chosen, true), stratumOf, catalogue[i]);
  }

  lemma {:induction false} CountedIn<A>(assets: seq<A>, stratumOf: A -> string, a: A)
    requires a in assets
    ensures CountIn(assets, stratumOf, stratumOf(a)) >= 1
    decreases |assets|
  {
    var n := |assets| - 1;
    if a in assets[..n] {
      CountedIn(assets[..n], stratumOf, a);
    } else {
      assert a == assets[n];
    }
  }

  lemma {:induction false} EveryoneIn<A>(catalogue: seq<A>, chosen: set<A>)
    requires forall a | a in catalogue :: a in chosen
    ensures Filtered(catalogue, chosen, false) == []
    decreases |catalogue|
  {
    if catalogue != [] {
      var n := |catalogue| - 1;
      assert catalogue[n] in catalogue;
      EveryoneIn(catalogue[..n], chosen);
    }
  }

  /** The sample and what is left are the catalogue cut by these assets, as many as asked for or all there are. */
  ghost predicate CutBy<A>(catalogue: seq<A>, measured: seq<A>, unmeasured: seq<A>, chosen: set<A>, size: int) {
    && measured == Filtered(catalogue, chosen, true) && unmeasured == Filtered(catalogue, chosen, false)
    && |chosen| <= size && (|chosen| == size || unmeasured == [])
  }

  lemma SampleIsCut<A>(
    catalogue: seq<A>, chosen: set<A>, drawn: set<nat>, size: int)
    requires ArePlaces(|catalogue|, drawn) && chosen == ObjectsAt(catalogue, drawn)
    requires |chosen| <= size && (|chosen| == size || |drawn| == |catalogue|)
    ensures CutBy(catalogue, Filtered(catalogue, chosen, true), Filtered(catalogue, chosen, false), chosen, size)
  {
    if |drawn| == |catalogue| {
      PlacesCount(|catalogue|, drawn);
      forall a | a in catalogue
        ensures a in chosen
      {
        var i :| 0 <= i < |catalogue| && catalogue[i] == a;
        assert i in drawn;
      }
      EveryoneIn(catalogue, chosen);
    }
    hide Filtered;
  }

  /** What the deal comes to. */
  lemma SampleShape<A>(
    catalogue: seq<A>, stratumOf: A -> string, order: seq<string>, chosen: set<A>, drawn: set<nat>, r: nat, p: nat, size: nat)
    requires chosen == ObjectsAt(catalogue, drawn) && DealtAt(catalogue, stratumOf, order, drawn, r, p)
    requires |order| <= size < |catalogue| && |chosen| <= size && (|chosen| == size || |drawn| == |catalogue|)
    requires (r == 0 ==> p == |drawn|) && AllPopulated(catalogue, stratumOf, order)
    requires forall t :: t in Strata(catalogue, stratumOf) <==> t in order
    ensures forall t | t in Strata(catalogue, stratumOf) :: CountIn(Filtered(catalogue, chosen, true), stratumOf, t) >= 1
    ensures CutBy(catalogue, Filtered(catalogue, chosen, true), Filtered(catalogue, chosen, false), chosen, size)
    ensures Distinct(catalogue) ==>
      |Filtered(catalogue, chosen, true)| == size && Balanced(catalogue, stratumOf, Filtered(catalogue, chosen, true))
  {
    PlacesDealt(catalogue, stratumOf, order, drawn, r, p);
    ObjectsCount(catalogue, drawn);
    assert FromCatalogue(catalogue, chosen);
    assert p <= |order|;
    hide Filtered, CountIn, Strata, Balanced, Distinct, AllPopulated, DealtAt, ObjectsAt, CutBy, Dealt;
    SampleIsCut(catalogue, chosen, drawn, size);
    forall t | t in Strata(catalogue, stratumOf)
      ensures CountIn(Filtered(catalogue, chosen, true), stratumOf, t) >= 1
    {
      var q :| 0 <= q < |order| && order[q] == t;
      EveryStratumReached(catalogue, stratumOf, order, chosen, drawn, r, p, q);
    }
    if Distinct(catalogue) {
      FilteredCount(catalogue, chosen);
      DealtByAsset(catalogue, stratumOf, order, chosen, drawn, r, p);
      DealtIsBalanced(catalogue, stratumOf, order, chosen, r, p, size);
    }
  }

  /** The places a stream draws: the strata in the order it shuffles them into, dealt from with the draws that follow. */
  function PlacesDrawn<A(==)>(catalogue: seq<A>, stratumOf: A -> string, size: nat, draws: nat -> nat): set<nat> {
    var strata := Strata(catalogue, stratumOf);
    var n := if |strata| == 0 then 0 else |strata| - 1;
    DealtFrom(catalogue, stratumOf, ShuffledTo(strata, draws, 0, |strata| - 1), size, draws, {}, n, 0, false)
  }

  lemma DrawnInTurn<A>(catalogue: seq<A>, stratumOf: A -> string, size: nat, draws: nat -> nat)
    ensures var strata := Strata(catalogue, stratumOf);
      var n := if |strata| == 0 then 0 else |strata| - 1;
      PlacesDrawn(catalogue, stratumOf, size, draws)
        == DealtFrom(catalogue, stratumOf, ShuffledTo(strata, draws, 0, |strata| - 1), size, draws, {}, n, 0, false)
  {
    hide Strata, DealtFrom, ShuffledTo;
  }

  /** The strata shuffled, the assets dealt, and the catalogue cut by them. */
  method DrawSample<A(==)>(catalogue: seq<A>, stratumOf: A -> string, strata: seq<string>, size: nat, draws: nat -> nat)
    returns (measured: seq<A>, unmeasured: seq<A>)
    requires strata == Strata(catalogue, stratumOf) && |strata| <= size < |catalogue|
    ensures CutBy(catalogue, measured, unmeasured,
                  ObjectsAt(catalogue, PlacesDrawn(catalogue, stratumOf, size, draws)), size)
    ensures forall t | t in strata :: CountIn(measured, stratumOf, t) >= 1
    ensures Distinct(catalogue) ==> |measured| == size && Balanced(catalogue, stratumOf, measured)
  {
    hide *;
    var order, next := Shuffled(strata, draws, 0);
    StrataAre(catalogue, stratumOf);
    SameItems(strata, order);
    StrataPopulated(catalogue, stratumOf, order);
    var chosen, drawn, rounds, p := Deal(catalogue, stratumOf, order, size, draws, next);
    SampleShape(catalogue, stratumOf, order, chosen, drawn, rounds, p, size);
    DrawnInTurn(catalogue, stratumOf, size, draws);
    measured, unmeasured := Filtered(catalogue, chosen, true), Filtered(catalogue, chosen, false);
  }

  /** `sampleCatalogue`. */
  method SampleCatalogue<A(==)>(catalogue: seq<A>, stratumOf: A -> string, size: int, draws: nat -> nat)
    returns (r: Result<CatalogueSample<A>, SampleError>)
    ensures size < 1 ==> r == Err(BadSize)
    ensures size >= 1 && |catalogue| > size && |Strata(catalogue, stratumOf)| > size ==> r == Err(TooManyStrata)
    ensures size >= 1 && |catalogue| <= size ==>
      r == Ok(CatalogueSample(catalogue, [], Strata(catalogue, stratumOf), true))
    ensures 1 <= size < |catalogue| && |Strata(catalogue, stratumOf)| <= size ==>
      && r.Ok? && !r.value.whole && r.value.strata == Strata(catalogue, stratumOf)
      && CutBy(catalogue, r.value.measured, r.value.unmeasured,
               ObjectsAt(catalogue, PlacesDrawn(catalogue, stratumOf, size, draws)), size)
      && (forall t | t in r.value.strata :: CountIn(r.value.measured, stratumOf, t) >= 1)
      && (Distinct(catalogue) ==> |r.value.measured| == size && Balanced(catalogue, stratumOf, r.value.measured))
  {
    if size < 1 {
      return Err(BadSize);
    }
    hide *;
    var strata := CollectStrata(catalogue, stratumOf);
    if |catalogue| > size && |strata| > size {
      return Err(TooManyStrata);
    }
    if |catalogue| <= size {
      return Ok(CatalogueSample(catalogue, [], strata, true));
    }
    var measured, unmeasured := DrawSample(catalogue, stratumOf, strata, size, draws);
    return Ok(CatalogueSample(measured, unmeasured, strata, false));
  }

  /** Measured and unmeasured are the catalogue in two: every asset is in exactly one of them, once, and in its order. */
  lemma {:induction false} FilteredPartition<A>(catalogue: seq<A>, chosen: set<A>)
    ensures forall a | a in catalogue :: a in Filtered(catalogue, chosen, true) <==> a !in Filtered(catalogue, chosen, false)
    ensures |Filtered(catalogue, chosen, true)| + |Filtered(catalogue, chosen, false)| == |catalogue|
    ensures Distinct(catalogue) ==> forall inside: bool :: InPlaces(catalogue, Filtered(catalogue, chosen, inside))
  {
    hide Distinct, InPlaces;
    FilteredLengths(catalogue, chosen);
    if Distinct(catalogue) {
      FilteredInPlaces(catalogue, chosen, true);
      FilteredInPlaces(catalogue, chosen, false);
    }
  }

  lemma {:induction false} FilteredLengths<A>(catalogue: seq<A>, chosen: set<A>)
    ensures |Filtered(catalogue, chosen, true)| + |Filtered(catalogue, chosen, false)| == |catalogue|
    decreases |catalogue|
  {
    if catalogue != [] {
      FilteredLengths(catalogue[..|catalogue| - 1], chosen);
    }
  }

  /** These assets are in the catalogue's order. */
  ghost predicate InPlaces<A>(catalogue: seq<A>, kept: seq<A>) {
    forall i, j | 0 <= i < j < |kept| :: PlaceOf(catalogue, kept[i]) < PlaceOf(catalogue, kept[j])
  }

  lemma {:induction false} FilteredInPlaces<A>(catalogue: seq<A>, chosen: set<A>, inside: bool)
    requires Distinct(catalogue)
    ensures InPlaces(catalogue, Filtered(catalogue, chosen, inside))
    decreases |catalogue|
  {
    if catalogue != [] {
      var n := |catalogue| - 1;
      DistinctFront(catalogue);
      FilteredInPlaces(catalogue[..n], chosen, inside);
      var before, kept := Filtered(catalogue[..n], chosen, inside), Filtered(catalogue, chosen, inside);
      forall i, j | 0 <= i < j < |kept|
        ensures PlaceOf(catalogue, kept[i]) < PlaceOf(catalogue, kept[j])
      {
        assert before[i] in before;
        PlaceInFront(catalogue, before[i]);
        if j < |before| {
          assert before[j] in before;
          PlaceInFront(catalogue, before[j]);
        } else {
          PlaceOfLast(catalogue);
        }
      }
    }
  }

  /** The first place of an asset. */
  function PlaceOf<A(==)>(catalogue: seq<A>, a: A): (at: nat)
    ensures at <= |catalogue|
    ensures at < |catalogue| ==> catalogue[at] == a
    ensures forall i :: 0 <= i < at ==> catalogue[i] != a
  {
    if catalogue == [] || catalogue[0] == a then 0
    else
      var at := 1 + PlaceOf(catalogue[1..], a);
      assert forall i :: 1 <= i < at ==> catalogue[i] == catalogue[1..][i - 1];
      at
  }

  lemma PlaceInFront<A>(catalogue: seq<A>, a: A)
    requires catalogue != [] && a in catalogue[..|catalogue| - 1]
    ensures PlaceOf(catalogue, a) == PlaceOf(catalogue[..|catalogue| - 1], a) < |catalogue| - 1
  {
    var front := catalogue[..|catalogue| - 1];
    var i :| 0 <= i < |front| && front[i] == a;
    assert catalogue[i] == a;
    var at, place := PlaceOf(front, a), PlaceOf(catalogue, a);
    assert catalogue[at] == front[at] == a;
    assert place <= at;
    assert front[place] == catalogue[place];
  }

  lemma PlaceOfLast<A>(catalogue: seq<A>)
    requires Distinct(catalogue) && catalogue != []
    ensures PlaceOf(catalogue, catalogue[|catalogue| - 1]) == |catalogue| - 1
  {
    assert PlaceOf(catalogue, catalogue[|catalogue| - 1]) >= |catalogue| - 1;
  }
}
