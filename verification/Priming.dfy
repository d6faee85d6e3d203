/**
Continuing a chain across a process boundary: the paged fold of the tick record into the
writer at boot (apps/api/src/publication.service.ts, `prime`).

The fold reads the record in pages and observes whole runs between jumps. Its specification
takes one tick at a time and has no pages.
*/
module Priming {
  import opened Prelude
  import opened Commitments
  import opened Publisher
  import opened PublicationRuns
  import opened PublicationWriter

  datatype ChainPriming =
    | Fresh
    | Continued(from: int, folded: nat)
    | Broken(from: int, recordStartsAt: Option<int>)
    | Seamed(from: int, folded: nat, restartedAt: Option<int>, sealed: nat)

  // ---------------------------------------------------------------- the record

  /** A record is kept in strictly increasing sequence order; a seam leaves a jump in it. */
  ghost predicate Increasing(record: seq<Tick>) {
    forall i, j :: 0 <= i < j < |record| ==> record[i].sequence < record[j].sequence
  }

  /** Published ticks in increasing order, none before the sequence expected. */
  ghost predicate InOrder(expected: int, ticks: seq<Tick>) {
    AllPublished(ticks) && Increasing(ticks) && (ticks != [] ==> ticks[0].sequence >= expected)
  }

  lemma RestInOrder(expected: int, ticks: seq<Tick>)
    requires InOrder(expected, ticks) && ticks != []
    ensures Published(ticks[0]) && ticks[0].sequence >= expected
    ensures InOrder(ticks[0].sequence + 1, ticks[1..])
  {
  }

  /** The first index at or beyond a sequence. */
  function FirstFrom(record: seq<Tick>, from: int): (i: nat)
    ensures i <= |record|
    ensures forall k :: 0 <= k < i ==> record[k].sequence < from
    ensures i < |record| ==> record[i].sequence >= from
  {
    if record == [] || record[0].sequence >= from then 0 else 1 + FirstFrom(record[1..], from)
  }

  /** `record.since(assetId, from, limit)`. */
  function Since(record: seq<Tick>, from: int, limit: nat): seq<Tick> {
    var tail := record[FirstFrom(record, from)..];
    if |tail| <= limit then tail else tail[..limit]
  }

  lemma FirstFromUnique(record: seq<Tick>, from: int, i: nat)
    requires i <= |record|
    requires forall k :: 0 <= k < i ==> record[k].sequence < from
    requires i < |record| ==> record[i].sequence >= from
    ensures FirstFrom(record, from) == i
  {
  }

  // ---------------------------------------------------------------- one tick at a time

  /** The writer's run, where the last seam resumed, and how many seams closed a window. */
  datatype Primed = Primed(run: AssetRun, restartedAt: Option<int>, sealed: nat)

  ghost function SeamOnce(settings: Settings, p: Primed, resumesAt: Option<int>): Primed
    requires Ready(settings, p.run.publisher)
  {
    Primed(SeamRun(settings, p.run),
           resumesAt,
           p.sealed + if p.run.publisher.open != [] then 1 else 0)
  }

  /** A chain with a head, whose publisher expects this sequence next. */
  ghost predicate Primable(settings: Settings, p: Primed, expected: int) {
    RunSound(settings, p.run) && p.run.archive != [] && ExpectedSequence(p.run.publisher) == Some(expected)
  }

  ghost function PrimeTick(settings: Settings, p: Primed, expected: int, tick: Tick): (q: Primed)
    requires Primable(settings, p, expected) && Published(tick) && tick.sequence >= expected
    ensures Primable(settings, q, tick.sequence + 1)
  {
    PrimeTickKeeps(settings, p, expected, tick);
    var at := if tick.sequence == expected then p else SeamOnce(settings, p, Some(tick.sequence));
    at.(run := ObserveRun(settings, at.run, [tick]))
  }

  ghost function PrimeFold(settings: Settings, p: Primed, expected: int, ticks: seq<Tick>): (q: Primed)
    requires Primable(settings, p, expected) && InOrder(expected, ticks)
    ensures Primable(settings, q, After(expected, ticks))
    decreases |ticks|
  {
    hide Primable, InOrder, PrimeTick;
    if ticks == [] then p
    else
      RestInOrder(expected, ticks);
      PrimeFold(settings, PrimeTick(settings, p, expected, ticks[0]), ticks[0].sequence + 1, ticks[1..])
  }

  lemma FoldFirst(settings: Settings, p: Primed, expected: int, ticks: seq<Tick>)
    requires Primable(settings, p, expected) && InOrder(expected, ticks)
    ensures ticks == [] ==> PrimeFold(settings, p, expected, ticks) == p
    ensures ticks != [] ==>
      && Published(ticks[0]) && ticks[0].sequence >= expected
      && InOrder(ticks[0].sequence + 1, ticks[1..])
      && PrimeFold(settings, p, expected, ticks)
         == PrimeFold(settings, PrimeTick(settings, p, expected, ticks[0]), ticks[0].sequence + 1, ticks[1..])
  {
    hide Primable, PrimeTick, InOrder;
    if ticks != [] {
      RestInOrder(expected, ticks);
    }
  }

  /** The sequence after a run of ticks, or the one given where there are none. */
  function After(expected: int, ticks: seq<Tick>): int {
    if ticks == [] then expected else ticks[|ticks| - 1].sequence + 1
  }

  /** A publisher that expects the tick, or waits behind a seam the tick lies beyond, takes it. */
  lemma TakesOne(settings: Settings, run: AssetRun, tick: Tick)
    requires RunSound(settings, run) && run.archive != [] && Published(tick)
    requires !Refuses(run.publisher, tick)
    ensures AcceptedCount(run.publisher, [tick]) == 1
    ensures RunSound(settings, ObserveRun(settings, run, [tick]))
    ensures ObserveRun(settings, run, [tick]).archive != []
    ensures ExpectedSequence(ObserveRun(settings, run, [tick]).publisher) == Some(tick.sequence + 1)
  {
    hide *;
    SoundIsReady(settings, run);
    OneTaken(run.publisher, tick);
    AllOf(tick);
    ObserveOneSound(settings, run, tick);
    ExpectsAfter(settings, run, [tick]);
    AfterIs(0, [tick]);
  }

  lemma AllOf(tick: Tick)
    requires Published(tick)
    ensures AllPublished([tick])
  {
  }

  lemma OneTaken(s: State, tick: Tick)
    requires !Refuses(s, tick)
    ensures AcceptedCount(s, [tick]) == 1
  {
    assert AcceptedCount(s, [tick]) == 1 + AcceptedCount(Push(s, tick), []);
  }

  lemma ObserveOneSound(settings: Settings, run: AssetRun, tick: Tick)
    requires RunSound(settings, run) && Published(tick) && run.archive != []
    ensures Ready(settings, run.publisher) && AllPublished([tick])
    ensures RunSound(settings, ObserveRun(settings, run, [tick]))
    ensures ObserveRun(settings, run, [tick]).archive != []
  {
    hide RunSound, Ready, Observed;
    SoundIsReady(settings, run);
    ActSound(settings, run, Observe([tick]));
  }

  /** After a batch taken whole the publisher expects what follows it. */
  lemma ExpectsAfter(settings: Settings, run: AssetRun, ticks: seq<Tick>)
    requires RunSound(settings, run) && AllPublished(ticks) && ticks != []
    requires AcceptedCount(run.publisher, ticks) == |ticks|
    ensures ExpectedSequence(ObserveRun(settings, run, ticks).publisher) == Some(After(0, ticks))
  {
    hide RunSound, Ready, CloseFull, Observed;
    SoundIsReady(settings, run);
    ObservedWhole(settings, run.publisher, ticks);
    CloseFullExpects(settings, PushAll(run.publisher, ticks));
    PushedExpects(settings, run.publisher, ticks);
  }

  lemma PushedExpects(settings: Settings, s: State, ticks: seq<Tick>)
    requires Ready(settings, s) && AllPublished(ticks) && ticks != []
    requires AcceptedCount(s, ticks) == |ticks|
    ensures ExpectedSequence(PushAll(s, ticks)) == Some(After(0, ticks))
  {
    hide Ready;
    TakenWhole(settings, s, ticks);
  }

  lemma {:induction false} CloseFullExpects(settings: Settings, s: State)
    requires Ready(settings, s)
    ensures ExpectedSequence(CloseFull(settings, s).1) == ExpectedSequence(s)
    decreases |s.open|
  {
    hide CloseOff;
    if |s.open| >= settings.windowTicks {
      CloseFullExpects(settings, CloseOff(settings, s, settings.windowTicks).1);
    }
  }

  lemma PrimeTickKeeps(settings: Settings, p: Primed, expected: int, tick: Tick)
    requires Primable(settings, p, expected) && Published(tick) && tick.sequence >= expected
    ensures Ready(settings, p.run.publisher)
    ensures var at := if tick.sequence == expected then p else SeamOnce(settings, p, Some(tick.sequence));
      && Ready(settings, at.run.publisher)
      && Primable(settings, at.(run := ObserveRun(settings, at.run, [tick])), tick.sequence + 1)
  {
    if tick.sequence == expected {
      TakesOne(settings, p.run, tick);
    } else {
      SeamSound(settings, p.run);
      SeamWaits(settings, p.run);
      hide RunSound, SeamRun;
      SoundIsReady(settings, SeamRun(settings, p.run));
      TakesOne(settings, SeamRun(settings, p.run), tick);
    }
  }

  // ---------------------------------------------------------------- cutting the fold

  lemma {:induction false} FoldCut(settings: Settings, p: Primed, expected: int, a: seq<Tick>, b: seq<Tick>)
    requires Primable(settings, p, expected) && InOrder(expected, a + b)
    ensures InOrder(expected, a) && InOrder(After(expected, a), b)
    ensures PrimeFold(settings, p, expected, a + b)
         == PrimeFold(settings, PrimeFold(settings, p, expected, a), After(expected, a), b)
    decreases |a|
  {
    hide Primable, PrimeTick, InOrder;
    PartsInOrder(expected, a, b);
    if a == [] {
      ConcatUnit(b);
    } else {
      assert (a + b)[1..] == a[1..] + b;
      RestInOrder(expected, a);
      RestInOrder(expected, a + b);
      FoldCut(settings, PrimeTick(settings, p, expected, a[0]), a[0].sequence + 1, a[1..], b);
    }
  }

  lemma PartsInOrder(expected: int, a: seq<Tick>, b: seq<Tick>)
    requires InOrder(expected, a + b)
    ensures InOrder(expected, a) && InOrder(After(expected, a), b)
  {
    var all := a + b;
    assert forall i :: 0 <= i < |a| ==> a[i] == all[i];
    assert forall i :: 0 <= i < |b| ==> b[i] == all[|a| + i];
    if a != [] && b != [] {
      assert all[|a| - 1].sequence < all[|a|].sequence;
    }
  }

  /** Two batches taken whole, one after the other, are one batch. */
  lemma ObserveRunConcat(settings: Settings, run: AssetRun, a: seq<Tick>, b: seq<Tick>)
    requires RunSound(settings, run) && AllPublished(a) && AllPublished(b)
    requires AcceptedCount(run.publisher, a + b) == |a + b|
    ensures RunSound(settings, ObserveRun(settings, run, a))
    ensures ObserveRun(settings, run, a + b) == ObserveRun(settings, ObserveRun(settings, run, a), b)
  {
    hide RunSound, Observed;
    SoundIsReady(settings, run);
    ActSound(settings, run, Observe(a));
    if a == [] {
      ConcatUnit(b);
    } else if b == [] {
      ConcatUnit(a);
    } else {
      ObserveConcat(settings, run.publisher, a, b);
      var first := Observed(settings, run.publisher, a);
      ConcatAssociates(run.archive, first.closed, Observed(settings, first.state, b).closed);
    }
  }

  /** The next tick in order extends a batch taken whole. */
  lemma BatchExtends(settings: Settings, run: AssetRun, batch: seq<Tick>, tick: Tick)
    requires RunSound(settings, run) && AllPublished(batch) && Published(tick)
    requires AcceptedCount(run.publisher, batch) == |batch|
    requires batch == [] ==> !Refuses(run.publisher, tick)
    requires batch != [] ==> tick.sequence == batch[|batch| - 1].sequence + 1
    ensures AcceptedCount(run.publisher, batch + [tick]) == |batch| + 1
    ensures RunSound(settings, ObserveRun(settings, run, batch))
    ensures ObserveRun(settings, run, batch + [tick])
         == ObserveRun(settings, ObserveRun(settings, run, batch), [tick])
  {
    hide RunSound;
    BatchTaken(run.publisher, batch, tick);
    ObserveRunConcat(settings, run, batch, [tick]);
  }

  lemma BatchTaken(s: State, batch: seq<Tick>, tick: Tick)
    requires AcceptedCount(s, batch) == |batch|
    requires batch == [] ==> !Refuses(s, tick)
    requires batch != [] ==> tick.sequence == batch[|batch| - 1].sequence + 1
    ensures AcceptedCount(s, batch + [tick]) == |batch| + 1
  {
    if batch == [] {
      ConcatUnit([tick]);
      assert AcceptedCount(s, [tick]) == 1 + AcceptedCount(Push(s, tick), []);
    } else {
      AcceptedWhole(s, batch);
      AcceptedWhole(s, batch + [tick]);
    }
  }

  // ---------------------------------------------------------------- what the fold does

  /** Priming commits or leaves open exactly the record's ticks, in order. */
  lemma {:induction false} PrimingConserves(settings: Settings, p: Primed, expected: int, ticks: seq<Tick>)
    requires Primable(settings, p, expected) && InOrder(expected, ticks)
    ensures Held(PrimeFold(settings, p, expected, ticks).run) == Held(p.run) + ticks
    decreases |ticks|
  {
    hide *;
    FoldFirst(settings, p, expected, ticks);
    if ticks == [] {
      ConcatUnit(Held(p.run));
    } else {
      TickConserves(settings, p, expected, ticks[0]);
      PrimingConserves(settings, PrimeTick(settings, p, expected, ticks[0]), ticks[0].sequence + 1, ticks[1..]);
      ConcatAssociates(Held(p.run), [ticks[0]], ticks[1..]);
      assert ticks == [ticks[0]] + ticks[1..];
    }
  }

  lemma TickConserves(settings: Settings, p: Primed, expected: int, tick: Tick)
    requires Primable(settings, p, expected) && Published(tick) && tick.sequence >= expected
    ensures Held(PrimeTick(settings, p, expected, tick).run) == Held(p.run) + [tick]
  {
    PrimeTickKeeps(settings, p, expected, tick);
    SealConserves(settings, p.run);
    if tick.sequence == expected {
      TakesOne(settings, p.run, tick);
      ObserveConserves(settings, p.run, [tick]);
    } else {
      SeamSound(settings, p.run);
      SeamWaits(settings, p.run);
      hide RunSound, SeamRun, Held;
      TakesOne(settings, SeamRun(settings, p.run), tick);
      ObserveConserves(settings, SeamRun(settings, p.run), [tick]);
    }
    assert [tick][..1] == [tick];
  }

  /** A forward run whose committed head lies below a sequence. */
  ghost predicate ForwardBelow(settings: Settings, run: AssetRun, sequence: int) {
    && Forward(settings, run) && run.archive != []
    && run.archive[|run.archive| - 1].signed.commitment.toSequence < sequence
  }

  /** Priming a chain that never went backwards leaves one that never did: the file still verifies. */
  lemma {:induction false} PrimingKeepsOneChain(settings: Settings, p: Primed, expected: int, ticks: seq<Tick>)
    requires Primable(settings, p, expected) && InOrder(expected, ticks)
    requires ForwardBelow(settings, p.run, expected)
    ensures ForwardBelow(settings, PrimeFold(settings, p, expected, ticks).run, After(expected, ticks))
    decreases |ticks|
  {
    hide *;
    FoldFirst(settings, p, expected, ticks);
    AfterIs(expected, ticks);
    if ticks != [] {
      TickForward(settings, p, expected, ticks[0]);
      PrimingKeepsOneChain(settings, PrimeTick(settings, p, expected, ticks[0]), ticks[0].sequence + 1, ticks[1..]);
      AfterIs(ticks[0].sequence + 1, ticks[1..]);
    }
  }

  lemma AfterIs(expected: int, ticks: seq<Tick>)
    ensures After(expected, ticks) == if ticks == [] then expected else ticks[|ticks| - 1].sequence + 1
  {
  }

  lemma TickForward(settings: Settings, p: Primed, expected: int, tick: Tick)
    requires Primable(settings, p, expected) && Published(tick) && tick.sequence >= expected
    requires ForwardBelow(settings, p.run, expected)
    ensures ForwardBelow(settings, PrimeTick(settings, p, expected, tick).run, tick.sequence + 1)
  {
    PrimeTickKeeps(settings, p, expected, tick);
    if tick.sequence == expected {
      TakesOneForward(settings, p.run, tick);
    } else {
      SeamForward(settings, p, expected);
      SeamWaits(settings, p.run);
      hide Forward, RunSound, SeamRun, ObserveRun;
      TakesOneForward(settings, SeamRun(settings, p.run), tick);
    }
  }

  lemma TakesOneForward(settings: Settings, run: AssetRun, tick: Tick)
    requires ForwardBelow(settings, run, tick.sequence) && Published(tick)
    requires !Refuses(run.publisher, tick)
    ensures ForwardBelow(settings, ObserveRun(settings, run, [tick]), tick.sequence + 1)
  {
    TakesOne(settings, run, tick);
    ObserveForward(settings, run, [tick]);
    hide RunSound, ObserveRun;
    HeadBelowExpected(settings, ObserveRun(settings, run, [tick]), tick.sequence + 1);
  }

  lemma SeamForward(settings: Settings, p: Primed, expected: int)
    requires Primable(settings, p, expected) && ForwardBelow(settings, p.run, expected)
    ensures Ready(settings, p.run.publisher)
    ensures ForwardBelow(settings, SeamRun(settings, p.run), expected)
  {
    SeamSound(settings, p.run);
    SealForward(settings, p.run);
    if p.run.publisher.open != [] {
      CommitSucceeds(settings, p.run.publisher, |p.run.publisher.open|);
    }
  }

  /** A forward publisher never expects a sequence its own file already covers. */
  lemma HeadBelowExpected(settings: Settings, run: AssetRun, expected: int)
    requires Forward(settings, run) && run.archive != []
    requires ExpectedSequence(run.publisher) == Some(expected)
    ensures ForwardBelow(settings, run, expected)
  {
    var s := run.publisher;
    if s.open != [] {
      assert s.open[|s.open| - 1].sequence == s.open[0].sequence + |s.open| - 1;
    }
  }

  // ---------------------------------------------------------------- the paged fold

  /** What priming from a record does, with no pages in it. */
  ghost function PrimedFrom(settings: Settings, run: AssetRun, from: int, tail: seq<Tick>, seamed: bool): Primed
    requires Primable(settings, Primed(run, None, 0), from) && InOrder(from, tail)
  {
    var folded := PrimeFold(settings, Primed(run, None, 0), from, tail);
    if seamed then SeamOnce(settings, folded, folded.restartedAt) else folded
  }

  ghost function Verdict(primed: Primed, from: int, folded: nat, seamed: bool): ChainPriming {
    if seamed || primed.restartedAt.Some? then Seamed(from, folded, primed.restartedAt, primed.sealed)
    else ChainPriming.Continued(from, folded)
  }

  lemma StartsPrimable(settings: Settings, run: AssetRun)
    requires RunSound(settings, run) && run.archive != [] && run == RestartRun(run)
    ensures Primable(settings, Primed(run, None, 0), run.archive[|run.archive| - 1].signed.commitment.toSequence + 1)
  {
    WindowEnds(settings, run.archive[|run.archive| - 1]);
  }

  lemma TailInOrder(record: seq<Tick>, from: int)
    requires AllPublished(record) && Increasing(record)
    ensures InOrder(from, record[FirstFrom(record, from)..])
  {
  }

  /** Every page is the tail's next ticks: a later one begins where the last one stopped. */
  lemma PageIs(record: seq<Tick>, start: int, k: nat, page: nat)
    requires AllPublished(record) && Increasing(record)
    requires k <= |record[FirstFrom(record, start)..]|
    ensures var tail := record[FirstFrom(record, start)..];
      Since(record, After(start, tail[..k]), page)
      == if |tail| - k <= page then tail[k..] else tail[k..k + page]
    ensures var tail := record[FirstFrom(record, start)..];
      var batch := Since(record, After(start, tail[..k]), page);
      k + |batch| <= |tail| && batch == tail[k..k + |batch|]
  {
    hide FirstFrom, After, Increasing, AllPublished;
    var first := FirstFrom(record, start);
    FirstFromSkips(record, start, k);
    PageSlice(record, first, k, page);
  }

  lemma PageSlice(record: seq<Tick>, first: nat, k: nat, page: nat)
    requires first + k <= |record|
    ensures var tail, rest := record[first..], record[first + k..];
      (if |rest| <= page then rest else rest[..page]) == if |tail| - k <= page then tail[k..] else tail[k..k + page]
    ensures record[first..][k..] == record[first..][k..|record[first..]|]
  {
    var tail := record[first..];
    DropDrop(record, first, k);
    if |tail| - k > page {
      DropTake(tail, k, page);
    }
  }

  lemma FirstFromSkips(record: seq<Tick>, start: int, k: nat)
    requires Increasing(record) && FirstFrom(record, start) + k <= |record|
    ensures FirstFrom(record, After(start, record[FirstFrom(record, start)..][..k])) == FirstFrom(record, start) + k
  {
    var first := FirstFrom(record, start);
    if k > 0 {
      assert record[first..][..k][k - 1] == record[first + k - 1];
      FirstFromUnique(record, record[first + k - 1].sequence + 1, first + k);
    }
  }

  /** One more tick folded is one more step. */
  lemma FoldOneMore(settings: Settings, p: Primed, expected: int, ticks: seq<Tick>, i: nat)
    requires Primable(settings, p, expected) && InOrder(expected, ticks) && i < |ticks|
    ensures InOrder(expected, ticks[..i]) && InOrder(expected, ticks[..i + 1])
    ensures Published(ticks[i]) && ticks[i].sequence >= After(expected, ticks[..i])
    ensures PrimeFold(settings, p, expected, ticks[..i + 1])
         == PrimeTick(settings, PrimeFold(settings, p, expected, ticks[..i]), After(expected, ticks[..i]), ticks[i])
  {
    hide Primable, InOrder, PrimeTick;
    var a, t := ticks[..i], ticks[i];
    CutAfter(ticks, i);
    CutAt(ticks, i + 1);
    PartsInOrder(expected, ticks[..i + 1], ticks[i + 1..]);
    PartsInOrder(expected, a, [t]);
    RestInOrder(After(expected, a), [t]);
    FoldCut(settings, p, expected, a, [t]);
    var q := PrimeFold(settings, p, expected, a);
    assert [t][1..] == [];
    assert PrimeFold(settings, q, After(expected, a), [t])
        == PrimeFold(settings, PrimeTick(settings, q, After(expected, a), t), t.sequence + 1, []);
  }

  /** Sealing before a seam changes nothing: the seam seals, and sealing twice is sealing once. */
  lemma SealThenSeam(settings: Settings, run: AssetRun)
    requires RunSound(settings, run)
    ensures RunSound(settings, SealRun(settings, run))
    ensures SeamRun(settings, SealRun(settings, run)) == SeamRun(settings, run)
    ensures Sealed(settings, run.publisher).0.Some? <==> run.publisher.open != []
  {
    SealSound(settings, run);
  }

  /**
  Where the page loop stands: the fold of the ticks it has passed is what the writer would
  hold once it is given the batch the loop has not handed over yet.
  */
  ghost predicate Pending(settings: Settings, folded: Primed, expected: int,
                          written: AssetRun, batch: seq<Tick>, restartedAt: Option<int>, sealed: nat)
  {
    && RunSound(settings, written) && written.archive != []
    && AllPublished(batch)
    && AcceptedCount(written.publisher, batch) == |batch|
    && Primable(settings, folded, expected)
    && folded == Primed(ObserveRun(settings, written, batch), restartedAt, sealed)
    && (batch != [] ==> batch[|batch| - 1].sequence + 1 == expected)
  }

  /** The next tick follows: it joins the batch. */
  lemma JoinBatch(settings: Settings, folded: Primed, expected: int, written: AssetRun,
                  batch: seq<Tick>, restartedAt: Option<int>, sealed: nat, tick: Tick)
    requires Pending(settings, folded, expected, written, batch, restartedAt, sealed)
    requires Published(tick) && tick.sequence == expected
    ensures Pending(settings, PrimeTick(settings, folded, expected, tick), tick.sequence + 1,
                    written, batch + [tick], restartedAt, sealed)
  {
    hide RunSound, Ready, Contiguous;
    BatchExtends(settings, written, batch, tick);
    hide ObserveRun, Refuses;
    assert (batch + [tick])[|batch|] == tick;
  }

  /** The next tick jumps: the batch is written, the chain seamed, and a new batch begun. */
  lemma BeginBatch(settings: Settings, folded: Primed, expected: int, written: AssetRun,
                   batch: seq<Tick>, restartedAt: Option<int>, sealed: nat, tick: Tick)
    requires Pending(settings, folded, expected, written, batch, restartedAt, sealed)
    requires Published(tick) && tick.sequence > expected
    ensures RunSound(settings, folded.run)
    ensures Pending(settings, PrimeTick(settings, folded, expected, tick), tick.sequence + 1,
                    SeamRun(settings, folded.run), [tick], Some(tick.sequence),
                    sealed + if folded.run.publisher.open != [] then 1 else 0)
  {
    hide RunSound, SeamRun, ObserveRun, Ready;
    SoundIsReady(settings, folded.run);
    SeamSound(settings, folded.run);
    SeamWaits(settings, folded.run);
    TakesOne(settings, SeamRun(settings, folded.run), tick);
  }

  lemma EmptyInOrder(from: int)
    ensures InOrder(from, [])
  {
  }

  lemma StartsPending(settings: Settings, p: Primed, from: int)
    requires Primable(settings, p, from)
    ensures Pending(settings, p, from, p.run, [], p.restartedAt, p.sealed)
  {
  }

  /** Handing the pending batch over is never refused, and lands on the fold. */
  lemma HandOver(settings: Settings, folded: Primed, expected: int, written: AssetRun,
                 batch: seq<Tick>, restartedAt: Option<int>, sealed: nat)
    requires Pending(settings, folded, expected, written, batch, restartedAt, sealed)
    ensures RunSound(settings, written) && Ready(settings, written.publisher)
    ensures AllPublished(batch) && AcceptedCount(written.publisher, batch) == |batch|
    ensures folded == Primed(ObserveRun(settings, written, batch), restartedAt, sealed)
  {
  }

  /** At a jump: the batch is written, what is open sealed, and the chain seamed. */
  method Jump(writer: AssetWriter, batch: seq<Tick>) returns (closed: bool)
    requires writer.Valid() && AllPublished(batch)
    requires RunSound(writer.settings, writer.Run()) && Ready(writer.settings, writer.Run().publisher)
    requires AcceptedCount(writer.Run().publisher, batch) == |batch|
    modifies writer, writer.publisher
    ensures writer.Valid() && fresh(writer.publisher)
    ensures RunSound(writer.settings, ObserveRun(writer.settings, old(writer.Run()), batch))
    ensures writer.Run() == SeamRun(writer.settings, ObserveRun(writer.settings, old(writer.Run()), batch))
    ensures closed <==> ObserveRun(writer.settings, old(writer.Run()), batch).publisher.open != []
  {
    hide RunSound, Ready, ObserveRun, SeamRun, SealRun, Sealed;
    ActSound(writer.settings, writer.Run(), Observe(batch));
    var refused := writer.Observe(batch);
    assert refused.None?;
    SealThenSeam(writer.settings, writer.Run());
    var seal := writer.SealChain();
    closed := seal.Some?;
    writer.SeamChain();
  }

  /** The inner loop: one page, cut at its jumps. */
  method PrimePage(writer: AssetWriter, page: seq<Tick>, from: int,
                   ghost p: Primed, restarted: Option<int>, closed: nat)
    returns (restartedAt: Option<int>, sealed: nat)
    requires writer.Valid() && page != [] && p == Primed(writer.Run(), restarted, closed)
    requires Primable(writer.settings, p, from) && InOrder(from, page)
    modifies writer, writer.publisher
    ensures writer.Valid()
    ensures writer.publisher == old(writer.publisher) || fresh(writer.publisher)
    ensures Primed(writer.Run(), restartedAt, sealed) == PrimeFold(writer.settings, p, from, page)
  {
    hide *;
    ghost var settings := writer.settings;
    restartedAt, sealed := restarted, closed;
    var runStart, i := 0, 0;
    ghost var folded, expected, batch := p, from, [];
    StartsPending(settings, p, from);
    FoldStart(settings, p, from, page);
    while i < |page|
      invariant 0 <= runStart <= i <= |page|
      invariant writer.Valid() && writer.settings == settings
      invariant writer.publisher == old(writer.publisher) || fresh(writer.publisher)
      invariant batch == page[runStart..i]
      invariant FoldedTo(settings, p, from, page, i, folded, expected)
      invariant Pending(settings, folded, expected, writer.Run(), batch, restartedAt, sealed)
    {
      var follows := if i == 0 then from else page[i - 1].sequence + 1;
      FoldStep(settings, p, from, page, i, folded, expected);
      SliceGrows(page, runStart, i);
      if page[i].sequence == follows {
        JoinBatch(settings, folded, expected, writer.Run(), batch, restartedAt, sealed, page[i]);
        batch := batch + [page[i]];
      } else {
        BeginBatch(settings, folded, expected, writer.Run(), batch, restartedAt, sealed, page[i]);
        HandOver(settings, folded, expected, writer.Run(), batch, restartedAt, sealed);
        var didClose := Jump(writer, page[runStart..i]);
        if didClose {
          sealed := sealed + 1;
        }
        restartedAt := Some(page[i].sequence);
        runStart := i;
        batch := [page[i]];
      }
      folded, expected := PrimeTick(settings, folded, expected, page[i]), page[i].sequence + 1;
      i := i + 1;
    }
    FoldEnd(settings, p, from, page, folded, expected);
    HandOver(settings, folded, expected, writer.Run(), batch, restartedAt, sealed);
    assert page[runStart..] == batch;
    var refused := writer.Observe(page[runStart..]);
    assert refused.None?;
  }

  /** The fold of a page's first i ticks, and the sequence expected after them. */
  ghost predicate FoldedTo(settings: Settings, p: Primed, from: int, page: seq<Tick>, i: nat,
                           folded: Primed, expected: int)
  {
    && i <= |page| && Primable(settings, p, from) && InOrder(from, page) && InOrder(from, page[..i])
    && folded == PrimeFold(settings, p, from, page[..i])
    && expected == After(from, page[..i])
  }

  lemma FoldStart(settings: Settings, p: Primed, from: int, page: seq<Tick>)
    requires Primable(settings, p, from) && InOrder(from, page)
    ensures FoldedTo(settings, p, from, page, 0, p, from)
  {
    hide Primable, InOrder, PrimeTick;
    EmptyInOrder(from);
    assert page[..0] == [];
  }

  lemma FoldStep(settings: Settings, p: Primed, from: int, page: seq<Tick>, i: nat, folded: Primed, expected: int)
    requires FoldedTo(settings, p, from, page, i, folded, expected) && i < |page|
    ensures Primable(settings, folded, expected) && Published(page[i])
    ensures expected == (if i == 0 then from else page[i - 1].sequence + 1) <= page[i].sequence
    ensures FoldedTo(settings, p, from, page, i + 1,
                     PrimeTick(settings, folded, expected, page[i]), page[i].sequence + 1)
  {
    hide Primable, InOrder, PrimeTick, PrimeFold;
    FoldOneMore(settings, p, from, page, i);
  }

  lemma FoldEnd(settings: Settings, p: Primed, from: int, page: seq<Tick>, folded: Primed, expected: int)
    requires FoldedTo(settings, p, from, page, |page|, folded, expected)
    ensures Primable(settings, p, from) && InOrder(from, page)
    ensures folded == PrimeFold(settings, p, from, page)
  {
    hide Primable, InOrder, PrimeTick, PrimeFold;
    assert page[..|page|] == page;
  }

  /** The next page is the tail's next ticks, and folding it is folding that much more of the tail. */
  lemma SliceAppends<T>(s: seq<T>, k: nat, n: nat)
    requires k <= n <= |s|
    ensures s[..n] == s[..k] + s[k..n]
  {
  }

  lemma PageFolds(settings: Settings, p: Primed, start: int, record: seq<Tick>, k: nat, page: nat,
                  fold: Primed, from: int)
    requires AllPublished(record) && Increasing(record) && page >= 1
    requires FoldedTo(settings, p, start, record[FirstFrom(record, start)..], k, fold, from)
    ensures var tail, batch := record[FirstFrom(record, start)..], Since(record, from, page);
      && k + |batch| <= |tail|
      && (|batch| < page ==> k + |batch| == |tail|)
    ensures var tail, batch := record[FirstFrom(record, start)..], Since(record, from, page);
      batch != [] ==>
        && Primable(settings, fold, from) && InOrder(from, batch)
        && FoldedTo(settings, p, start, tail, k + |batch|,
                    PrimeFold(settings, fold, from, batch), batch[|batch| - 1].sequence + 1)
  {
    hide Primable, InOrder, PrimeTick, PrimeFold, Since, Increasing, FirstFrom;
    var tail, batch := record[FirstFrom(record, start)..], Since(record, from, page);
    PageIs(record, start, k, page);
    if batch != [] {
      BatchFolds(settings, p, start, tail, k, batch, fold, from);
    }
  }

  /** One more stretch of the record folded onto what is folded so far. */
  lemma BatchFolds(settings: Settings, p: Primed, start: int, tail: seq<Tick>, k: nat, batch: seq<Tick>,
                   fold: Primed, from: int)
    requires FoldedTo(settings, p, start, tail, k, fold, from)
    requires batch != [] && k + |batch| <= |tail| && batch == tail[k..k + |batch|]
    ensures Primable(settings, fold, from) && InOrder(from, batch)
    ensures FoldedTo(settings, p, start, tail, k + |batch|,
                     PrimeFold(settings, fold, from, batch), batch[|batch| - 1].sequence + 1)
  {
    hide Primable, InOrder, PrimeTick, PrimeFold;
    var n := k + |batch|;
    CutAt(tail, n);
    PartsInOrder(start, tail[..n], tail[n..]);
    SliceAppends(tail, k, n);
    FoldCut(settings, p, start, tail[..k], batch);
  }

  /** The outer loop: pages until the record runs out. */
  method FoldPages(writer: AssetWriter, record: seq<Tick>, start: int, page: nat, ghost p: Primed)
    returns (folded: nat, restartedAt: Option<int>, sealed: nat)
    requires writer.Valid() && AllPublished(record) && Increasing(record) && page >= 1
    requires p == Primed(writer.Run(), None, 0) && Primable(writer.settings, p, start)
    requires InOrder(start, record[FirstFrom(record, start)..])
    modifies writer, writer.publisher
    ensures writer.Valid()
    ensures writer.publisher == old(writer.publisher) || fresh(writer.publisher)
    ensures folded == |record[FirstFrom(record, start)..]|
    ensures Primed(writer.Run(), restartedAt, sealed)
         == PrimeFold(writer.settings, p, start, record[FirstFrom(record, start)..])
  {
    hide *;
    ghost var settings := writer.settings;
    ghost var tail := record[FirstFrom(record, start)..];
    ghost var fold := p;
    var from := start;
    folded, restartedAt, sealed := 0, None, 0;
    FoldStart(settings, p, start, tail);
    while true
      invariant writer.Valid() && writer.settings == settings
      invariant fresh(writer.publisher) || writer.publisher == old(writer.publisher)
      invariant folded <= |tail|
      invariant FoldedTo(settings, p, start, tail, folded, fold, from)
      invariant fold == Primed(writer.Run(), restartedAt, sealed)
      decreases |tail| - folded
    {
      var batch := Since(record, from, page);
      PageFolds(settings, p, start, record, folded, page, fold, from);
      if batch == [] {
        break;
      }
      restartedAt, sealed := PrimePage(writer, batch, from, fold, restartedAt, sealed);
      fold := PrimeFold(settings, fold, from, batch);
      folded := folded + |batch|;
      from := batch[|batch| - 1].sequence + 1;
      if |batch| < page {
        break;
      }
    }
    FoldEnd(settings, p, start, tail, fold, from);
  }

  /**
  What `prime` does to a chain taken over from the tip of its file: it is broken off where the
  record does not reach the tip, and otherwise ends where the unpaged fold ends, with the
  fold's own verdict.
  */
  ghost predicate PrimesTo(settings: Settings, run: AssetRun, record: seq<Tick>, seamed: bool,
                           after: AssetRun, result: ChainPriming)
    requires RunSound(settings, run) && run.archive != []
  {
    var from := run.archive[|run.archive| - 1].signed.commitment.toSequence + 1;
    var tail := record[FirstFrom(record, from)..];
    if tail == [] || tail[0].sequence != from then
      && result == Broken(from, if tail == [] then None else Some(tail[0].sequence))
      && after == SeamRun(settings, run)
    else
      && Primable(settings, Primed(run, None, 0), from) && InOrder(from, tail)
      && after == PrimedFrom(settings, run, from, tail, seamed).run
      && result == Verdict(PrimedFrom(settings, run, from, tail, seamed), from, |tail|, seamed)
  }

  lemma FoldIsSound(settings: Settings, p: Primed, expected: int, ticks: seq<Tick>)
    requires Primable(settings, p, expected) && InOrder(expected, ticks)
    ensures RunSound(settings, PrimeFold(settings, p, expected, ticks).run)
    ensures Ready(settings, PrimeFold(settings, p, expected, ticks).run.publisher)
  {
  }

  lemma ResumesAtTip(archive: seq<ClosedWindow>)
    ensures archive == [] ==> ResumptionOf(TakeOver(archive)).FreshChain?
    ensures archive != [] ==>
      var tip := archive[|archive| - 1].signed.commitment;
      ResumptionOf(TakeOver(archive)) == Resumption.Continued(tip.root, tip.toSequence + 1)
  {
  }

  lemma PageOfOne(record: seq<Tick>, start: int)
    ensures var tail, first := record[FirstFrom(record, start)..], Since(record, start, 1);
      (first == [] <==> tail == []) && (first != [] ==> first[0] == tail[0])
  {
  }

  lemma BrokenPrimes(settings: Settings, run: AssetRun, record: seq<Tick>, seamed: bool, start: int,
                     result: ChainPriming)
    requires RunSound(settings, run) && Ready(settings, run.publisher) && run.archive != []
    requires start == run.archive[|run.archive| - 1].signed.commitment.toSequence + 1
    requires var tail := record[FirstFrom(record, start)..];
      && (tail == [] || tail[0].sequence != start)
      && result == Broken(start, if tail == [] then None else Some(tail[0].sequence))
    ensures PrimesTo(settings, run, record, seamed, SeamRun(settings, run), result)
  {
    hide RunSound, Ready, SeamRun, FirstFrom;
  }

  lemma FoldPrimes(settings: Settings, run: AssetRun, record: seq<Tick>, seamed: bool, start: int,
                   f: Primed, after: AssetRun, result: ChainPriming)
    requires RunSound(settings, run) && run.archive != []
    requires start == run.archive[|run.archive| - 1].signed.commitment.toSequence + 1
    requires var tail := record[FirstFrom(record, start)..];
      && tail != [] && tail[0].sequence == start && InOrder(start, tail)
      && Primable(settings, Primed(run, None, 0), start)
      && f == PrimeFold(settings, Primed(run, None, 0), start, tail)
    requires Ready(settings, f.run.publisher)
    requires seamed ==>
      && after == SeamRun(settings, f.run)
      && result == Seamed(start, |record[FirstFrom(record, start)..]|, f.restartedAt,
                          f.sealed + if f.run.publisher.open != [] then 1 else 0)
    requires !seamed ==>
      && after == f.run
      && result == if f.restartedAt.Some?
                   then Seamed(start, |record[FirstFrom(record, start)..]|, f.restartedAt, f.sealed)
                   else ChainPriming.Continued(start, |record[FirstFrom(record, start)..]|)
    ensures PrimesTo(settings, run, record, seamed, after, result)
  {
    hide RunSound, Ready, SeamRun, FirstFrom, InOrder, Primable, PrimeFold;
  }

  /**
  `prime`. Whatever the page size, the writer ends where the unpaged fold ends, and no batch
  it is given is refused.
  */
  method Prime(writer: AssetWriter, record: seq<Tick>, seamed: bool, page: nat) returns (result: ChainPriming)
    requires writer.Valid() && AllPublished(record) && Increasing(record) && page >= 1
    requires writer.Run() == RestartRun(writer.Run())
    requires writer.resumption == ResumptionOf(TakeOver(writer.archive))
    modifies writer, writer.publisher
    ensures writer.Valid()
    ensures old(writer.archive) == [] ==> result == Fresh && writer.Run() == old(writer.Run())
    ensures old(writer.archive) != [] ==>
      PrimesTo(writer.settings, old(writer.Run()), record, seamed, writer.Run(), result)
  {
    hide *;
    ValidIsSound(writer);
    ghost var run, settings := writer.Run(), writer.settings;
    ResumesAtTip(writer.archive);
    if !writer.resumption.Continued? {
      return Fresh;
    }
    StartsPrimable(settings, run);
    var start := writer.resumption.nextSequence;
    TailInOrder(record, start);
    PageOfOne(record, start);
    var first := Since(record, start, 1);
    if first == [] || first[0].sequence != start {
      writer.SeamChain();
      result := Broken(start, if first == [] then None else Some(first[0].sequence));
      BrokenPrimes(settings, run, record, seamed, start, result);
    } else {
      result := PrimeFromTip(writer, record, seamed, page, start);
    }
  }

  lemma ValidIsSound(writer: AssetWriter)
    requires writer.Valid()
    ensures RunSound(writer.settings, writer.Run()) && Ready(writer.settings, writer.Run().publisher)
    ensures writer.Run().archive == writer.archive
  {
  }

  /** The fold proper, once the record is known to reach the tip. */
  method PrimeFromTip(writer: AssetWriter, record: seq<Tick>, seamed: bool, page: nat, start: int)
    returns (result: ChainPriming)
    requires writer.Valid() && AllPublished(record) && Increasing(record) && page >= 1
    requires RunSound(writer.settings, writer.Run()) && writer.archive != []
    requires start == writer.archive[|writer.archive| - 1].signed.commitment.toSequence + 1
    requires Primable(writer.settings, Primed(writer.Run(), None, 0), start)
    requires var tail := record[FirstFrom(record, start)..];
      tail != [] && tail[0].sequence == start && InOrder(start, tail)
    modifies writer, writer.publisher
    ensures writer.Valid()
    ensures PrimesTo(writer.settings, old(writer.Run()), record, seamed, writer.Run(), result)
  {
    hide *;
    ValidIsSound(writer);
    ghost var run, settings := writer.Run(), writer.settings;
    ghost var p := Primed(run, None, 0);
    ghost var tail := record[FirstFrom(record, start)..];
    var folded, restartedAt, sealed := FoldPages(writer, record, start, page, p);
    ghost var f := PrimeFold(settings, p, start, tail);
    FoldIsSound(settings, p, start, tail);
    if seamed {
      SealThenSeam(settings, writer.Run());
      var closed := writer.SealChain();
      if closed.Some? {
        sealed := sealed + 1;
      }
      writer.SeamChain();
      result := Seamed(start, folded, restartedAt, sealed);
    } else if restartedAt.Some? {
      result := Seamed(start, folded, restartedAt, sealed);
    } else {
      result := ChainPriming.Continued(start, folded);
    }
    FoldPrimes(settings, run, record, seamed, start, f, writer.Run(), result);
  }
}
