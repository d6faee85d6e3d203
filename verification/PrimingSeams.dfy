/**
Where priming puts its seams (apps/api/src/publication.service.ts, `prime`): the resume links it
leaves are exactly the record's jumps, and the verdict names the last one.
*/
module PrimingSeams {
  import opened Prelude
  import opened Commitments
  import opened Chains
  import opened Publisher
  import opened PublicationRuns
  import opened Priming

  // ---------------------------------------------------------------- jumps on disk

  /** The record jumps here: something is missing before this tick. */
  predicate JumpsTo(ticks: seq<Tick>, q: nat)
    requires 0 < q < |ticks|
  {
    ticks[q].sequence > ticks[q - 1].sequence + 1
  }

  /** Where window i's ticks begin among all that is committed. */
  function Offset(archive: seq<ClosedWindow>, i: nat): nat
    requires i <= |archive|
  {
    |Joined(archive[..i])|
  }

  lemma {:induction false} OffsetStep(archive: seq<ClosedWindow>, i: nat)
    requires i < |archive|
    ensures Offset(archive, i + 1) == Offset(archive, i) + |archive[i].ticks|
  {
    assert archive[..i + 1] == archive[..i] + [archive[i]];
    JoinedConcat(archive[..i], [archive[i]]);
    assert Joined([archive[i]]) == archive[i].ticks + Joined([]);
  }

  lemma {:induction false} OffsetEnds(archive: seq<ClosedWindow>)
    ensures Offset(archive, 0) == 0
    ensures Offset(archive, |archive|) == |Joined(archive)|
  {
    assert archive[..0] == [];
    assert archive[..|archive|] == archive;
  }

  lemma {:induction false} OffsetsIncrease(settings: Settings, archive: seq<ClosedWindow>, i: nat, j: nat)
    requires ArchiveSound(settings, archive) && i < j <= |archive|
    ensures Offset(archive, i) < Offset(archive, j)
    decreases j
  {
    hide ArchiveSound, Offset;
    SoundWindow(settings, archive, j - 1);
    OffsetStep(archive, j - 1);
    if i < j - 1 {
      OffsetsIncrease(settings, archive, i, j - 1);
    }
  }

  lemma SoundWindow(settings: Settings, archive: seq<ClosedWindow>, i: nat)
    requires ArchiveSound(settings, archive) && i < |archive|
    ensures WindowSound(settings, archive[i]) && archive[i].ticks != [] && Contiguous(archive[i].ticks)
  {
    CommittedRun(archive[i].signed.commitment, archive[i].ticks);
    hide CommitsTo;
  }

  /** The ticks of window i, where they stand. */
  lemma {:induction false} WindowStands(archive: seq<ClosedWindow>, i: nat, d: nat)
    requires i < |archive| && d < |archive[i].ticks|
    ensures Offset(archive, i) + d < |Joined(archive)| && Joined(archive)[Offset(archive, i) + d] == archive[i].ticks[d]
  {
    var before, after := archive[..i], archive[i + 1..];
    assert archive == before + ([archive[i]] + after);
    JoinedConcat(before, [archive[i]] + after);
    JoinedCons(archive[i], after);
  }

  /** The window a place lies in. */
  lemma {:induction false} WindowOf(archive: seq<ClosedWindow>, n: nat, q: nat) returns (i: nat)
    requires n <= |archive| && q < Offset(archive, n)
    ensures i < n && Offset(archive, i) <= q < Offset(archive, i) + |archive[i].ticks|
    decreases n
  {
    OffsetEnds(archive);
    hide Offset;
    OffsetStep(archive, n - 1);
    if q < Offset(archive, n - 1) {
      i := WindowOf(archive, n - 1, q);
    } else {
      i := n - 1;
    }
  }

  /** A window that declares a resume begins at this place. */
  ghost predicate ResumeAt(archive: seq<ClosedWindow>, q: nat) {
    exists i :: 0 < i < |archive| && Offset(archive, i) == q && archive[i].signed.commitment.resumesAfter.Some?
  }

  lemma {:induction false} OnlyThere(settings: Settings, archive: seq<ClosedWindow>, i: nat, d: nat)
    requires ArchiveSound(settings, archive) && i < |archive| && d < |archive[i].ticks|
    ensures ResumeAt(archive, Offset(archive, i) + d) <==>
      d == 0 && i > 0 && archive[i].signed.commitment.resumesAfter.Some?
  {
    hide ArchiveSound, Offset;
    var q := Offset(archive, i) + d;
    OffsetStep(archive, i);
    forall k | 0 < k < |archive| && Offset(archive, k) == q
      ensures k == i
    {
      if k < i {
        OffsetsIncrease(settings, archive, k, i);
      } else if k > i + 1 {
        OffsetsIncrease(settings, archive, i + 1, k);
      }
    }
  }

  /** Between two windows the ticks jump exactly where the second declares a resume. */
  lemma BoundaryJumps(settings: Settings, archive: seq<ClosedWindow>, i: nat)
    requires ArchiveSound(settings, archive) && 0 < i < |archive|
    ensures archive[i].ticks != [] && archive[i - 1].ticks != []
    ensures archive[i].ticks[0].sequence > archive[i - 1].ticks[|archive[i - 1].ticks| - 1].sequence + 1
      <==> archive[i].signed.commitment.resumesAfter.Some?
  {
    LinkShapes(settings, archive, i - 1);
    SoundWindow(settings, archive, i);
    SoundWindow(settings, archive, i - 1);
    WindowEnds(settings, archive[i]);
    WindowEnds(settings, archive[i - 1]);
    hide ArchiveSound, WindowSound;
  }

  /** In any file a writer leaves, the resume declarations stand exactly where the committed ticks jump. */
  lemma {:induction false} CommittedJumps(settings: Settings, archive: seq<ClosedWindow>, q: nat)
    requires ArchiveSound(settings, archive) && 0 < q < |Joined(archive)|
    ensures JumpsTo(Joined(archive), q) <==> ResumeAt(archive, q)
  {
    hide ArchiveSound, Offset, Joined, WindowSound, ResumeAt;
    OffsetEnds(archive);
    var i := WindowOf(archive, |archive|, q);
    var d := q - Offset(archive, i);
    WindowStands(archive, i, d);
    SoundWindow(settings, archive, i);
    OnlyThere(settings, archive, i, d);
    if d > 0 {
      WindowStands(archive, i, d - 1);
    } else {
      BoundaryJumps(settings, archive, i);
      OffsetStep(archive, i - 1);
      WindowStands(archive, i - 1, |archive[i - 1].ticks| - 1);
    }
  }

  /** The open window begins at a jump exactly when the publisher waits to declare one. */
  lemma OpenJump(settings: Settings, run: AssetRun)
    requires RunSound(settings, run) && run.archive != [] && run.publisher.open != []
    ensures Joined(run.archive) != []
    ensures JumpsTo(Held(run), |Joined(run.archive)|) <==> run.publisher.resumesAfter.Some?
  {
    var n := |run.archive| - 1;
    SoundWindow(settings, run.archive, n);
    WindowEnds(settings, run.archive[n]);
    OffsetEnds(run.archive);
    OffsetStep(run.archive, n);
    WindowStands(run.archive, n, |run.archive[n].ticks| - 1);
    hide ArchiveSound, WindowSound, Joined, Offset;
  }

  /** And inside the open window nothing is missing. */
  lemma OpenIsWhole(settings: Settings, run: AssetRun, q: nat)
    requires RunSound(settings, run) && |Joined(run.archive)| < q < |Held(run)|
    ensures !JumpsTo(Held(run), q)
  {
    var n := |Joined(run.archive)|;
    assert Held(run)[q] == run.publisher.open[q - n] && Held(run)[q - 1] == run.publisher.open[q - 1 - n];
  }

  /** Where a resume is declared, or will be when the open window closes. */
  ghost predicate Declared(run: AssetRun, q: nat) {
    || ResumeAt(run.archive, q)
    || (q == |Joined(run.archive)| && run.publisher.open != [] && run.publisher.resumesAfter.Some?)
  }

  /** Over everything a sound run holds, committed or open: resumes are declared exactly at the jumps. */
  lemma {:induction false} HeldJumps(settings: Settings, run: AssetRun, q: nat)
    requires RunSound(settings, run) && run.archive != [] && 0 < q < |Held(run)|
    ensures JumpsTo(Held(run), q) <==> Declared(run, q)
  {
    var n := |Joined(run.archive)|;
    hide Joined;
    if q < n {
      assert ArchiveSound(settings, run.archive);
      hide RunSound, ResumeAt;
      CommittedJumps(settings, run.archive, q);
      assert Held(run)[q] == Joined(run.archive)[q] && Held(run)[q - 1] == Joined(run.archive)[q - 1];
    } else {
      NoneBeyond(settings, run.archive, q);
      hide ResumeAt;
      if q == n {
        OpenJump(settings, run);
      } else {
        OpenIsWhole(settings, run, q);
      }
      hide RunSound, Held;
    }
  }

  lemma {:induction false} NoneBeyond(settings: Settings, archive: seq<ClosedWindow>, q: nat)
    requires ArchiveSound(settings, archive) && q >= |Joined(archive)|
    ensures !ResumeAt(archive, q)
  {
    hide ArchiveSound, Offset, Joined;
    OffsetEnds(archive);
    forall k | 0 < k < |archive|
      ensures Offset(archive, k) < q
    {
      OffsetsIncrease(settings, archive, k, |archive|);
    }
  }

  // ---------------------------------------------------------------- what priming declares

  /** The record's i-th tick does not follow what came before it. */
  predicate Jumps(expected: int, ticks: seq<Tick>, i: nat)
    requires i < |ticks|
  {
    ticks[i].sequence != After(expected, ticks[..i])
  }

  /** The last jump among the first n ticks. */
  function LastJump(expected: int, ticks: seq<Tick>, n: nat): (at: Option<nat>)
    requires n <= |ticks|
    ensures at.Some? ==> at.value < n && Jumps(expected, ticks, at.value)
    ensures forall k :: (if at.Some? then at.value + 1 else 0) <= k < n ==> !Jumps(expected, ticks, k)
  {
    if n == 0 then None
    else if Jumps(expected, ticks, n - 1) then Some(n - 1)
    else LastJump(expected, ticks, n - 1)
  }

  /** The verdict names the sequence after the last jump, or says there was none. */
  lemma {:induction false} RestartedAtLastJump(settings: Settings, p: Primed, expected: int, ticks: seq<Tick>, n: nat)
    requires Primable(settings, p, expected) && InOrder(expected, ticks) && n <= |ticks|
    ensures InOrder(expected, ticks[..n])
    ensures PrimeFold(settings, p, expected, ticks[..n]).restartedAt ==
      match LastJump(expected, ticks, n)
      case None => p.restartedAt
      case Some(i) => Some(ticks[i].sequence)
    decreases n
  {
    hide Primable, InOrder, PrimeTick, PrimeFold;
    if n == 0 {
      assert ticks[..0] == [];
      EmptyInOrder(expected);
      FoldFirst(settings, p, expected, []);
    } else {
      RestartedAtLastJump(settings, p, expected, ticks, n - 1);
      FoldOneMore(settings, p, expected, ticks, n - 1);
      var before := PrimeFold(settings, p, expected, ticks[..n - 1]);
      PrimeTickRestarts(settings, before, After(expected, ticks[..n - 1]), ticks[n - 1]);
    }
  }

  lemma PrimeTickRestarts(settings: Settings, p: Primed, expected: int, tick: Tick)
    requires Primable(settings, p, expected) && Published(tick) && tick.sequence >= expected
    ensures PrimeTick(settings, p, expected, tick).restartedAt ==
      if tick.sequence == expected then p.restartedAt else Some(tick.sequence)
  {
    PrimeTickKeeps(settings, p, expected, tick);
    hide Primable;
  }

  /**
  Priming a chain taken over from its tip: over everything the writer then holds behind the tip,
  committed or open, the resume links are exactly the record's jumps.
  */
  lemma {:induction false} SeamsAreJumps(settings: Settings, run: AssetRun, tail: seq<Tick>, i: nat)
    requires RunSound(settings, run) && run.archive != [] && run == RestartRun(run) && i < |tail|
    requires Primable(settings, Primed(run, None, 0), Tip(run.archive).value.toSequence + 1)
    requires InOrder(Tip(run.archive).value.toSequence + 1, tail)
    ensures var expected := Tip(run.archive).value.toSequence + 1;
      var primed := PrimeFold(settings, Primed(run, None, 0), expected, tail);
      && Held(primed.run) == Joined(run.archive) + tail
      && (Declared(primed.run, |Joined(run.archive)| + i) <==> Jumps(expected, tail, i))
  {
    hide *;
    NothingOpenHeld(settings, run);
    var expected := Tip(run.archive).value.toSequence + 1;
    var p := Primed(run, None, 0);
    var primed := PrimeFold(settings, p, expected, tail);
    FoldIsSound(settings, p, expected, tail);
    PrimedKeepsArchive(settings, p, expected, tail);
    PrimingConserves(settings, p, expected, tail);
    HeldJumps(settings, primed.run, |Joined(run.archive)| + i);
    TailJumps(Joined(run.archive), tail, expected, i);
  }

  /** A chain just taken over holds what its file does, up to its tip. */
  lemma NothingOpenHeld(settings: Settings, run: AssetRun)
    requires RunSound(settings, run) && run.archive != [] && run == RestartRun(run)
    ensures Held(run) == Joined(run.archive) != []
    ensures Tip(run.archive).Some?
    ensures Joined(run.archive)[|Joined(run.archive)| - 1].sequence == Tip(run.archive).value.toSequence
  {
    LastOfJoined(settings, run.archive);
    ConcatUnit(Joined(run.archive));
    hide RunSound, Joined;
  }

  /** A jump of what is held is a jump of the record behind it. */
  lemma TailJumps(joined: seq<Tick>, tail: seq<Tick>, expected: int, i: nat)
    requires joined != [] && joined[|joined| - 1].sequence + 1 == expected
    requires InOrder(expected, tail) && i < |tail|
    ensures JumpsTo(joined + tail, |joined| + i) <==> Jumps(expected, tail, i)
  {
    if i > 0 {
      assert (joined + tail)[|joined| + i - 1] == tail[i - 1];
      assert tail[..i][i - 1] == tail[i - 1];
    }
  }

  lemma PrimedKeepsArchive(settings: Settings, p: Primed, expected: int, tail: seq<Tick>)
    requires Primable(settings, p, expected) && InOrder(expected, tail)
    ensures PrimeFold(settings, p, expected, tail).run.archive != []
  {
  }

  lemma {:induction false} LastOfJoined(settings: Settings, archive: seq<ClosedWindow>)
    requires ArchiveSound(settings, archive) && archive != []
    ensures Joined(archive) != []
    ensures Joined(archive)[|Joined(archive)| - 1].sequence == Tip(archive).value.toSequence
  {
    var n := |archive| - 1;
    SoundWindow(settings, archive, n);
    WindowEnds(settings, archive[n]);
    OffsetEnds(archive);
    OffsetStep(archive, n);
    WindowStands(archive, n, |archive[n].ticks| - 1);
    hide ArchiveSound, WindowSound, Joined, Offset;
  }

  // ---------------------------------------------------------------- windows sealed short

  /** Where the stretch without a jump begins that the first n ticks end in. */
  function StretchStart(expected: int, ticks: seq<Tick>, n: nat): (start: nat)
    requires n <= |ticks|
    ensures start <= n
  {
    match LastJump(expected, ticks, n)
    case None => 0
    case Some(i) => i
  }

  /** Ticks left over when a stretch is cut into full windows. */
  function LeftOver(length: nat, windowTicks: nat): (open: nat)
    requires windowTicks >= 1
    ensures open < windowTicks
  {
    length % windowTicks
  }

  /** The jumps among the first n ticks at which a window is open: those whose stretch is no whole number of windows. */
  function ShortWindows(expected: int, ticks: seq<Tick>, n: nat, windowTicks: nat): nat
    requires n <= |ticks| && windowTicks >= 1
  {
    if n == 0 then 0
    else
      ShortWindows(expected, ticks, n - 1, windowTicks)
      + if Jumps(expected, ticks, n - 1) && LeftOver(n - 1 - StretchStart(expected, ticks, n - 1), windowTicks) != 0 then 1 else 0
  }

  /** One more open tick: a window that fills is closed at once. */
  function OneMore(open: nat, windowTicks: nat): nat {
    if open + 1 == windowTicks then 0 else open + 1
  }

  lemma OpensOne(settings: Settings, run: AssetRun, tick: Tick)
    requires RunSound(settings, run) && Published(tick) && !Refuses(run.publisher, tick)
    requires |run.publisher.open| < settings.windowTicks
    ensures Ready(settings, run.publisher) && AllPublished([tick])
    ensures |ObserveRun(settings, run, [tick]).publisher.open| == OneMore(|run.publisher.open|, settings.windowTicks)
  {
    var s := run.publisher;
    SoundIsReady(settings, run);
    OneTaken(s, tick);
    ObservedWhole(settings, s, [tick]);
    TakenWhole(settings, s, [tick]);
    hide RunSound, Ready, Observed, PushAll, Push, Refuses, AcceptedCount;
    FullOnce(settings, PushAll(s, [tick]));
  }

  lemma FullOnce(settings: Settings, s: State)
    requires Ready(settings, s) && 0 < |s.open| <= settings.windowTicks
    ensures |CloseFull(settings, s).1.open| == if |s.open| == settings.windowTicks then 0 else |s.open|
  {
    hide CloseOff, Ready;
  }

  lemma PrimeTickOpens(settings: Settings, p: Primed, expected: int, tick: Tick)
    requires Primable(settings, p, expected) && Published(tick) && tick.sequence >= expected
    requires |p.run.publisher.open| < settings.windowTicks
    ensures var q := PrimeTick(settings, p, expected, tick);
      var kept := if tick.sequence == expected then |p.run.publisher.open| else 0;
      && |q.run.publisher.open| == OneMore(kept, settings.windowTicks)
      && q.sealed == p.sealed + if tick.sequence != expected && p.run.publisher.open != [] then 1 else 0
  {
    PrimeTickKeeps(settings, p, expected, tick);
    SoundOf(settings, p, expected);
    SeamSound(settings, p.run);
    SeamWaits(settings, p.run);
    assert tick.sequence == expected ==> !Refuses(p.run.publisher, tick);
    assert !Refuses(SeamRun(settings, p.run).publisher, tick);
    hide RunSound, ObserveRun, SeamRun, Primable, Ready, Refuses, OneMore;
    if tick.sequence == expected {
      OpensOne(settings, p.run, tick);
    } else {
      OpensOne(settings, SeamRun(settings, p.run), tick);
    }
  }

  lemma SoundOf(settings: Settings, p: Primed, expected: int)
    requires Primable(settings, p, expected)
    ensures RunSound(settings, p.run) && p.run.archive != []
    ensures ExpectedSequence(p.run.publisher) == Some(expected) && settings.windowTicks >= 1
  {
  }

  lemma NothingSealed(settings: Settings, p: Primed, expected: int, ticks: seq<Tick>)
    requires Primable(settings, p, expected) && settings.windowTicks >= 1
    ensures InOrder(expected, ticks[..0])
    ensures PrimeFold(settings, p, expected, ticks[..0]) == p
    ensures ShortWindows(expected, ticks, 0, settings.windowTicks) == 0
    ensures LeftOver(0 - StretchStart(expected, ticks, 0), settings.windowTicks) == 0
  {
    assert ticks[..0] == [];
    EmptyInOrder(expected);
    FoldFirst(settings, p, expected, []);
    NothingLeftOver(settings.windowTicks);
    hide Primable, PrimeFold, LeftOver;
  }

  /** How many windows the seams close: one at each jump that does not fall on the end of a full window. */
  lemma {:induction false} SealedAreShortWindows(settings: Settings, p: Primed, expected: int, ticks: seq<Tick>, n: nat)
    requires Primable(settings, p, expected) && InOrder(expected, ticks) && n <= |ticks|
    requires p.run.publisher.open == [] && settings.windowTicks >= 1
    ensures InOrder(expected, ticks[..n])
    ensures var primed := PrimeFold(settings, p, expected, ticks[..n]);
      && primed.sealed == p.sealed + ShortWindows(expected, ticks, n, settings.windowTicks)
      && |primed.run.publisher.open| == LeftOver(n - StretchStart(expected, ticks, n), settings.windowTicks)
    decreases n
  {
    hide *;
    if n == 0 {
      NothingSealed(settings, p, expected, ticks);
    } else {
      SealedAreShortWindows(settings, p, expected, ticks, n - 1);
      FoldOneMore(settings, p, expected, ticks, n - 1);
      JumpStep(expected, ticks, n, settings.windowTicks);
      PrimeTickOpens(settings, PrimeFold(settings, p, expected, ticks[..n - 1]), After(expected, ticks[..n - 1]), ticks[n - 1]);
    }
  }

  // ---------------------------------------------------------------- what priming leaves and says

  /** Everything held is committed, and the publisher waits to resume behind the head. */
  ghost predicate Waits(run: AssetRun) {
    && run.archive != [] && Joined(run.archive) == Held(run) && run.publisher.open == []
    && run.publisher.nextSequence.None?
    && run.publisher.resumesAfter == Some(run.archive[|run.archive| - 1].signed.commitment.toSequence)
  }

  /**
  What priming a chain from its tip leaves, and what it says: with a seam asked for, everything is
  committed and the publisher waits behind the head; without one, what is left open is what does not
  fill a window, and the next tick expected is the record's. It says the chain is continued exactly
  when no seam was asked for and the record has no jump, and otherwise where it last restarted and
  how many windows were sealed short.
  */
  lemma {:induction false} PrimingSays(settings: Settings, run: AssetRun, tail: seq<Tick>, seamed: bool)
    requires RunSound(settings, run) && run.archive != [] && run == RestartRun(run) && settings.windowTicks >= 1
    requires Primable(settings, Primed(run, None, 0), Tip(run.archive).value.toSequence + 1)
    requires InOrder(Tip(run.archive).value.toSequence + 1, tail)
    ensures var from, n := Tip(run.archive).value.toSequence + 1, |tail|;
      var primed := PrimedFrom(settings, run, from, tail, seamed);
      var left := LeftOver(n - StretchStart(from, tail, n), settings.windowTicks);
      var restarted := LastJump(from, tail, n);
      && Held(primed.run) == Joined(run.archive) + tail
      && (if seamed then Waits(primed.run)
          else |primed.run.publisher.open| == left && ExpectedSequence(primed.run.publisher) == Some(After(from, tail)))
      && Verdict(primed, from, n, seamed) ==
         if !seamed && restarted.None? then ChainPriming.Continued(from, n)
         else Seamed(from, n, if restarted.Some? then Some(tail[restarted.value].sequence) else None,
                     ShortWindows(from, tail, n, settings.windowTicks) + if seamed && left != 0 then 1 else 0)
  {
    hide *;
    NothingOpenHeld(settings, run);
    var from, n := Tip(run.archive).value.toSequence + 1, |tail|;
    var p := Primed(run, None, 0);
    var folded := PrimeFold(settings, p, from, tail);
    assert tail[..n] == tail;
    TakenOverOpen(run);
    FoldIsSound(settings, p, from, tail);
    PrimedKeepsArchive(settings, p, from, tail);
    PrimingConserves(settings, p, from, tail);
    RestartedAtLastJump(settings, p, from, tail, n);
    SealedAreShortWindows(settings, p, from, tail, n);
    FoldExpects(settings, p, from, tail);
    PrimedFromIs(settings, run, from, tail, seamed);
    VerdictIs(PrimedFrom(settings, run, from, tail, seamed), from, n, seamed);
    if seamed {
      SeamedWaits(settings, folded.run);
    }
  }

  lemma TakenOverOpen(run: AssetRun)
    requires run == RestartRun(run)
    ensures run.publisher.open == []
  {
  }

  lemma FoldExpects(settings: Settings, p: Primed, from: int, tail: seq<Tick>)
    requires Primable(settings, p, from) && InOrder(from, tail)
    ensures ExpectedSequence(PrimeFold(settings, p, from, tail).run.publisher) == Some(After(from, tail))
  {
  }

  lemma PrimedFromIs(settings: Settings, run: AssetRun, from: int, tail: seq<Tick>, seamed: bool)
    requires Primable(settings, Primed(run, None, 0), from) && InOrder(from, tail)
    ensures var folded := PrimeFold(settings, Primed(run, None, 0), from, tail);
      var primed := PrimedFrom(settings, run, from, tail, seamed);
      if seamed then
        && Ready(settings, folded.run.publisher) && primed.run == SeamRun(settings, folded.run)
        && primed.restartedAt == folded.restartedAt
        && primed.sealed == folded.sealed + if |folded.run.publisher.open| != 0 then 1 else 0
      else primed == folded
  {
    FoldIsSound(settings, Primed(run, None, 0), from, tail);
    hide Primable, PrimeFold, SeamRun, Ready, RunSound;
  }

  lemma VerdictIs(primed: Primed, from: int, folded: nat, seamed: bool)
    ensures Verdict(primed, from, folded, seamed) ==
      if seamed || primed.restartedAt.Some? then Seamed(from, folded, primed.restartedAt, primed.sealed)
      else ChainPriming.Continued(from, folded)
  {
  }

  lemma SeamedWaits(settings: Settings, run: AssetRun)
    requires RunSound(settings, run) && run.archive != [] && Ready(settings, run.publisher)
    ensures Waits(SeamRun(settings, run)) && Held(SeamRun(settings, run)) == Held(run)
  {
    hide Joined, RunSound;
    SeamWaits(settings, run);
    SealConserves(settings, run);
    ConcatUnit(Joined(SeamRun(settings, run).archive));
  }

  /** What one more tick does to the count and to the open window. */
  lemma JumpStep(expected: int, ticks: seq<Tick>, n: nat, windowTicks: nat)
    requires 0 < n <= |ticks| && windowTicks >= 1
    ensures var jumps := ticks[n - 1].sequence != After(expected, ticks[..n - 1]);
      var open := LeftOver(n - 1 - StretchStart(expected, ticks, n - 1), windowTicks);
      && ShortWindows(expected, ticks, n, windowTicks)
         == ShortWindows(expected, ticks, n - 1, windowTicks) + (if jumps && open != 0 then 1 else 0)
      && LeftOver(n - StretchStart(expected, ticks, n), windowTicks)
         == OneMore(if jumps then 0 else open, windowTicks)
  {
    if Jumps(expected, ticks, n - 1) {
      assert StretchStart(expected, ticks, n) == n - 1;
      hide *;
      ModuloOne(windowTicks);
    } else {
      assert StretchStart(expected, ticks, n) == StretchStart(expected, ticks, n - 1);
      OneMoreModulo(n - 1 - StretchStart(expected, ticks, n - 1), windowTicks);
    }
  }

  lemma NothingLeftOver(w: nat)
    requires w >= 1
    ensures LeftOver(0, w) == 0
  {
  }

  lemma ModuloOne(w: nat)
    requires w >= 1
    ensures LeftOver(1, w) == OneMore(0, w)
  {
    OneMoreModulo(0, w);
  }

  lemma Distribute(w: int, a: int, b: int)
    ensures w * (a - b) == w * a - w * b
  {
  }

  lemma AtLeast(w: int, d: int)
    requires w > 0 && d >= 1
    ensures w * d >= w
  {
  }

  lemma OneRemainder(w: int, a: int, r: int, b: int, t: int)
    requires 0 <= r < w && 0 <= t < w && w * a + r == w * b + t
    ensures r == t
  {
    if a > b {
      Distribute(w, a, b);
      AtLeast(w, a - b);
    } else if a < b {
      Distribute(w, b, a);
      AtLeast(w, b - a);
    }
  }

  lemma Divided(n: nat, w: nat)
    requires w >= 1
    ensures w * (n / w) + n % w == n && 0 <= n % w < w
  {
  }

  lemma OneMoreModulo(n: nat, w: nat)
    requires w >= 1
    ensures (n + 1) % w == if n % w + 1 == w then 0 else n % w + 1
  {
    Divided(n, w);
    Divided(n + 1, w);
    if n % w + 1 < w {
      OneRemainder(w, n / w, n % w + 1, (n + 1) / w, (n + 1) % w);
    } else {
      Distribute(w, n / w + 1, 1);
      OneRemainder(w, n / w + 1, 0, (n + 1) / w, (n + 1) % w);
    }
  }
}
