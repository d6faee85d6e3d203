/**
The vocabulary every other module shares: optional values, results, ticks, and
the integer ranges the JavaScript source distinguishes.
*/
module Prelude {

  datatype Option<+T> = None | Some(value: T)

  datatype Result<+T, +E> = Ok(value: T) | Err(error: E)

  /** `Number.MAX_SAFE_INTEGER`. */
  const MAX_SAFE_INTEGER: int := 0x1F_FFFF_FFFF_FFFF

  /** The largest instant accepted: the ECMAScript maximum date value. */
  const MAX_EPOCH_MILLIS: int := 8_640_000_000_000_000

  predicate IsSafeInteger(n: int) {
    -MAX_SAFE_INTEGER <= n <= MAX_SAFE_INTEGER
  }

  /** What `writeBigUInt64BE` accepts; anything else throws. */
  predicate IsU64(n: int) {
    0 <= n < 0x1_0000_0000_0000_0000
  }

  /** What `writeBigInt64BE` accepts. */
  predicate IsI64(n: int) {
    -0x8000_0000_0000_0000 <= n < 0x8000_0000_0000_0000
  }

  /** The single canonical market artefact: ordered by sequence, never by instant. */
  datatype Tick = Tick(sequence: int, instant: int, price: int)
  {
    /** Whether a leaf can be hashed for this tick at all. */
    predicate Encodable() {
      IsU64(sequence) && IsU64(instant) && IsI64(price)
    }
  }

  /** Each tick follows the one before it by exactly one sequence, stated by position. */
  predicate Contiguous(ticks: seq<Tick>) {
    forall i :: 0 <= i < |ticks| ==> ticks[i].sequence == ticks[0].sequence + i
  }

  /** The pairwise form, which is what the source's loops compare. */
  ghost predicate Adjacent(ticks: seq<Tick>) {
    forall i, j :: 0 <= i && j == i + 1 && j < |ticks| ==> ticks[j].sequence == ticks[i].sequence + 1
  }

  lemma {:induction false} AdjacentIsContiguous(ticks: seq<Tick>)
    ensures Adjacent(ticks) <==> Contiguous(ticks)
    decreases |ticks|
  {
    if |ticks| > 1 {
      var front := ticks[..|ticks| - 1];
      AdjacentIsContiguous(front);
      if Adjacent(ticks) {
        assert forall i :: 0 <= i < |front| ==> front[i] == ticks[i];
        assert ticks[|ticks| - 1].sequence == ticks[|ticks| - 2].sequence + 1;
      }
    }
  }

  /** The loop of `assertRange` and of every other contiguity check in the source. */
  method CheckContiguous(ticks: seq<Tick>) returns (ok: bool)
    ensures ok <==> Contiguous(ticks)
  {
    var i := 1;
    while i < |ticks|
      invariant 1 <= i
      invariant ticks != [] ==> i <= |ticks| && forall k :: 0 <= k < i ==> ticks[k].sequence == ticks[0].sequence + k
    {
      if ticks[i].sequence != ticks[i - 1].sequence + 1 {
        return false;
      }
      i := i + 1;
    }
    return true;
  }

  /** The parts of a whole, one after the other. */
  function Flatten<T>(parts: seq<seq<T>>): seq<T> {
    if parts == [] then [] else Flatten(parts[..|parts| - 1]) + parts[|parts| - 1]
  }

  lemma ConcatAssociates<T>(a: seq<T>, b: seq<T>, c: seq<T>)
    ensures a + (b + c) == (a + b) + c
  {
  }

  lemma ConcatUnit<T>(a: seq<T>)
    ensures a + [] == a && [] + a == a
  {
  }

  lemma CutAt<T>(s: seq<T>, n: nat)
    requires n <= |s|
    ensures s[..n] + s[n..] == s
  {
  }

  /** A sequence cut after its first n elements, and cut again. */
  lemma CutAfter<T>(s: seq<T>, n: nat)
    requires n < |s|
    ensures s[..n + 1] == s[..n] + [s[n]]
    ensures s[n..] == [s[n]] + s[n + 1..]
    ensures s[..n] + s[n..] == s
  {
  }

  lemma DropDrop<T>(s: seq<T>, a: nat, b: nat)
    requires a + b <= |s|
    ensures s[a..][b..] == s[a + b..]
  {
  }

  lemma DropTake<T>(s: seq<T>, a: nat, n: nat)
    requires a + n <= |s|
    ensures s[a..][..n] == s[a..a + n]
  {
  }

  lemma SliceGrows<T>(s: seq<T>, a: nat, i: nat)
    requires a <= i < |s|
    ensures s[a..i + 1] == s[a..i] + [s[i]]
    ensures s[i..i + 1] == [s[i]]
  {
  }
}
