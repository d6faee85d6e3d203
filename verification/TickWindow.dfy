/**
A client's bounded contiguous view of the market (packages/chart/src/window.ts).
*/
module TickWindows {
  import opened Prelude

  /** The newest n elements, or all of them where there are fewer. */
  function Newest<T>(s: seq<T>, n: nat): (last: seq<T>)
    ensures |last| == if |s| <= n then |s| else n
  {
    if |s| <= n then s else s[|s| - n..]
  }

  /** Keeping the newest of what was kept and what came keeps the newest of everything. */
  lemma NewestGrows<T>(s: seq<T>, more: seq<T>, n: nat)
    ensures Newest(Newest(s, n) + more, n) == Newest(s + more, n)
  {
    var kept := Newest(s, n);
    var all := s + more;
    if |s| <= n {
      assert kept == s;
    } else {
      var drop := |kept + more| - n;
      assert all[|all| - n..] == (kept + more)[drop..];
    }
  }

  /** What comes continues what there is: no hole, no repeat, inside it or at the seam. */
  predicate Continues(record: seq<Tick>, ticks: seq<Tick>) {
    && Contiguous(ticks)
    && (record != [] && ticks != [] ==> ticks[0].sequence == record[|record| - 1].sequence + 1)
  }

  lemma ContinuesIsContiguous(record: seq<Tick>, ticks: seq<Tick>)
    requires Contiguous(record)
    ensures Continues(record, ticks) <==> Contiguous(record + ticks) && Contiguous(ticks)
  {
    var all := record + ticks;
    if Continues(record, ticks) && record != [] && ticks != [] {
      forall i | 0 <= i < |all|
        ensures all[i].sequence == all[0].sequence + i
      {
        if i >= |record| {
          assert all[i] == ticks[i - |record|];
        }
      }
    }
    if Contiguous(all) && record != [] && ticks != [] {
      assert all[|record|] == ticks[0] && all[|record| - 1] == record[|record| - 1];
    }
  }

  lemma PartOfContiguous(all: seq<Tick>, a: nat, b: nat)
    requires Contiguous(all) && a <= b <= |all|
    ensures Contiguous(all[a..b])
  {
  }

  lemma NewestContiguous(all: seq<Tick>, n: nat)
    requires Contiguous(all)
    ensures Contiguous(Newest(all, n))
    ensures n > 0 && all != [] ==> Newest(all, n) != [] && Newest(all, n)[|Newest(all, n)| - 1] == all[|all| - 1]
  {
  }

  class TickWindow {
    const capacity: nat
    var ticks: seq<Tick>
    var evictedThrough: Option<int>
    /** Everything ever appended. */
    ghost var received: seq<Tick>

    ghost predicate Valid()
      reads this
    {
      && capacity >= 1 && Contiguous(received) && ticks == Newest(received, capacity)
      && (evictedThrough.Some? <==> |received| > capacity)
      && (evictedThrough.Some? ==> evictedThrough.value == received[|received| - capacity - 1].sequence)
    }

    constructor (capacity: nat)
      requires capacity >= 1
      ensures Valid() && received == [] && this.capacity == capacity
    {
      this.capacity, ticks, evictedThrough, received := capacity, [], None, [];
    }

    /**
    The sequence to ask for after a disconnection: the one after everything ever received. (The
    source's fallback to what was evicted is never reached: eviction leaves the window full.)
    */
    function ResumeFrom(): (from: Option<int>)
      requires Valid()
      reads this
      ensures from == if received == [] then None else Some(received[|received| - 1].sequence + 1)
    {
      NewestContiguous(received, capacity);
      if ticks == [] then None else Some(ticks[|ticks| - 1].sequence + 1)
    }

    /** `append`: hold the newest ticks of what there is and what comes, or refuse what is no continuation. */
    method Append(batch: seq<Tick>) returns (error: Option<(int, int)>)
      requires Valid()
      modifies this
      ensures Valid()
      ensures error.None? <==> Continues(old(received), batch)
      ensures received == if error.None? then old(received) + batch else old(received)
      ensures error.Some? ==> ticks == old(ticks) && evictedThrough == old(evictedThrough)
      ensures error.Some? && Contiguous(batch) ==>
        batch != [] && Some(error.value.0) == old(ResumeFrom()) && error.value.1 == batch[0].sequence
      ensures error.Some? && !Contiguous(batch) ==>
        exists i: nat :: GapAt(batch, i) && error.value == (batch[i - 1].sequence + 1, batch[i].sequence)
    {
      NewestContiguous(received, capacity);
      hide Newest;
      if |batch| == 0 {
        ConcatUnit(received);
        return None;
      }
      var gap := FirstGap(batch);
      if gap.Some? {
        return Some((batch[gap.value - 1].sequence + 1, batch[gap.value].sequence));
      }
      if ticks != [] && batch[0].sequence != ticks[|ticks| - 1].sequence + 1 {
        return Some((ticks[|ticks| - 1].sequence + 1, batch[0].sequence));
      }
      Keep(batch);
      return None;
    }

    /** Push a batch that continues the window, and evict from the oldest end only. */
    method Keep(batch: seq<Tick>)
      requires Valid() && Continues(received, batch) && batch != []
      modifies this
      ensures Valid() && received == old(received) + batch
    {
      ContinuesIsContiguous(received, batch);
      NewestGrows(received, batch, capacity);
      received := received + batch;
      ticks := ticks + batch;
      hide Contiguous;
      if |ticks| > capacity {
        var dropping := |ticks| - capacity;
        TailPlace(old(received), batch, capacity, dropping - 1);
        evictedThrough := Some(ticks[dropping - 1].sequence);
        ticks := ticks[dropping..];
      }
    }
  }

  /** The batch is gapless up to here, and skips or repeats here. */
  ghost predicate GapAt(batch: seq<Tick>, i: nat) {
    && 0 < i < |batch| && batch[i].sequence != batch[i - 1].sequence + 1
    && forall k :: 0 <= k < i ==> batch[k].sequence == batch[0].sequence + k
  }

  /** The first place where a batch skips or repeats. */
  method FirstGap(batch: seq<Tick>) returns (gap: Option<nat>)
    requires batch != []
    ensures gap.None? <==> Contiguous(batch)
    ensures gap.Some? ==> GapAt(batch, gap.value)
  {
    var i := 1;
    while i < |batch|
      invariant 1 <= i <= |batch|
      invariant forall k :: 0 <= k < i ==> batch[k].sequence == batch[0].sequence + k
    {
      if batch[i].sequence != batch[i - 1].sequence + 1 {
        return Some(i);
      }
      i := i + 1;
    }
    return None;
  }

  /** The element just before the newest n of everything, found in what was kept. */
  lemma TailPlace<T>(s: seq<T>, more: seq<T>, n: nat, i: nat)
    requires i + n + 1 == |Newest(s, n) + more|
    ensures |s + more| > n
    ensures (Newest(s, n) + more)[i] == (s + more)[|s + more| - n - 1]
  {
  }

  // ---------------------------------------------------------------- batches

  /** However a continuing run is cut into batches, every batch continues what came before it. */
  lemma {:induction false} EveryBatchContinues(record: seq<Tick>, batches: seq<seq<Tick>>, k: nat)
    requires Contiguous(record) && Contiguous(record + Flatten(batches)) && k < |batches|
    ensures Contiguous(record + Flatten(batches[..k])) && Continues(record + Flatten(batches[..k]), batches[k])
    decreases |batches|
  {
    hide Contiguous, Continues;
    var front, last := batches[..|batches| - 1], batches[|batches| - 1];
    ConcatAssociates(record, Flatten(front), last);
    LastContinues(record + Flatten(front), last);
    if k < |front| {
      EveryBatchContinues(record, front, k);
      assert front[..k] == batches[..k];
    } else {
      assert batches[..k] == front;
    }
  }

  lemma LastContinues(before: seq<Tick>, last: seq<Tick>)
    requires Contiguous(before + last)
    ensures Contiguous(before) && Continues(before, last)
  {
    var all := before + last;
    assert all[..|before|] == before && all[|before|..] == last;
    PartOfContiguous(all, 0, |before|);
    PartOfContiguous(all, |before|, |all|);
    ContinuesIsContiguous(before, last);
  }
}
