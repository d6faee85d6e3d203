/**
Whole runs of one asset's publication: every interleaving of observing, sealing, seaming and
restarting from the file's tip (packages/distribution/src/publisher.ts and
packages/distribution/src/publicationWriter.ts), and what the file they leave behind is.
*/
module PublicationRuns {
  import opened Prelude
  import opened Commitments
  import opened Chains
  import opened Publisher

  /** One asset: the publisher in memory, and every window written to disk so far. */
  datatype AssetRun = AssetRun(publisher: State, archive: seq<ClosedWindow>)

  datatype Action =
    | Observe(ticks: seq<Tick>)
    | SealChain
    | SeamChain
    | Restart

  function Links(archive: seq<ClosedWindow>): (links: seq<Commitment>)
    ensures |links| == |archive|
  {
    seq(|archive|, i requires 0 <= i < |archive| => archive[i].signed.commitment)
  }

  function Windows(archive: seq<ClosedWindow>): (windows: seq<seq<Tick>>)
    ensures |windows| == |archive|
  {
    seq(|archive|, i requires 0 <= i < |archive| => archive[i].ticks)
  }

  const BEGIN := AssetRun(Initial(FRESH), [])

  /** How a writer takes an asset over: from the tip of its file, or afresh. */
  function TakeOver(archive: seq<ClosedWindow>): Options {
    if archive == [] then FRESH
    else
      var tip := archive[|archive| - 1].signed.commitment;
      Continue(tip.root, tip.toSequence + 1)
  }

  function ObserveRun(settings: Settings, run: AssetRun, ticks: seq<Tick>): AssetRun
    requires Ready(settings, run.publisher) && AllPublished(ticks)
  {
    if ticks == [] then run
    else
      var outcome := Observed(settings, run.publisher, ticks);
      AssetRun(outcome.state, run.archive + outcome.closed)
  }

  function SealRun(settings: Settings, run: AssetRun): AssetRun
    requires Ready(settings, run.publisher)
  {
    var (sealed, after) := Sealed(settings, run.publisher);
    AssetRun(after, if sealed.Some? then run.archive + [sealed.value] else run.archive)
  }

  /** After the seal: resume behind the sealed head, or afresh where nothing was ever committed. */
  function SeamOptions(s: State): Options {
    if s.previousRoot.Blank? || s.tipSequence.None? then FRESH
    else ResumeAfter(s.previousRoot, s.tipSequence.value)
  }

  function SeamRun(settings: Settings, run: AssetRun): AssetRun
    requires Ready(settings, run.publisher)
  {
    var sealed := SealRun(settings, run);
    sealed.(publisher := Initial(SeamOptions(sealed.publisher)))
  }

  function RestartRun(run: AssetRun): AssetRun {
    run.(publisher := Initial(TakeOver(run.archive)))
  }

  /** An action the market can take: what it publishes are published ticks. */
  predicate Takeable(action: Action) {
    action.Observe? ==> AllPublished(action.ticks)
  }

  function Act(settings: Settings, run: AssetRun, action: Action): AssetRun
    requires Ready(settings, run.publisher) && Takeable(action)
  {
    match action
    case Observe(ticks) => ObserveRun(settings, run, ticks)
    case SealChain => SealRun(settings, run)
    case SeamChain => SeamRun(settings, run)
    case Restart => RestartRun(run)
  }

  // ---------------------------------------------------------------- the invariant

  /** How one window follows another: truthfully bound, or an unbound restart over old ground. */
  ghost predicate Follows(previous: Commitment, link: Commitment) {
    if link.fromSequence <= previous.toSequence
    then link.previousRoot.Blank? && link.resumesAfter.None?
    else SoundStep(previous, link)
  }

  ghost predicate WindowSound(settings: Settings, w: ClosedWindow) {
    && CommitsTo(w.signed.commitment, w.ticks)
    && AllPublished(w.ticks)
    && w.signed.commitment.assetId == settings.assetId
  }

  ghost predicate ArchiveSound(settings: Settings, archive: seq<ClosedWindow>) {
    && (forall i :: 0 <= i < |archive| ==> WindowSound(settings, archive[i]))
    && (archive != [] ==>
      && archive[0].signed.commitment.previousRoot.Blank?
      && archive[0].signed.commitment.resumesAfter.None?)
    && (forall i, j :: 0 <= i && j == i + 1 && j < |archive| ==>
      Follows(archive[i].signed.commitment, archive[j].signed.commitment))
  }

  /**
  What the publisher's fields say about the file's last link. With no file it is at genesis.
  Otherwise it continues the tip, waits to resume after it, or has restarted over old ground.
  */
  ghost predicate PublisherAt(s: State, tip: Option<Commitment>) {
    match tip
    case None =>
      s.previousRoot.Blank? && s.tipSequence.None? && s.resumesAfter.None?
      && (s.open == [] ==> s.nextSequence.None?)
    case Some(link) =>
      || (&& s.previousRoot == link.root && s.resumesAfter.None?
          && s.tipSequence == Some(link.toSequence) && s.nextSequence == Some(link.toSequence + 1))
      || (&& s.previousRoot == link.root && s.resumesAfter == Some(link.toSequence)
          && s.tipSequence == Some(link.toSequence))
      || (&& s.previousRoot.Blank? && s.resumesAfter.None? && s.tipSequence.None?
          && s.open != [] && s.open[0].sequence <= link.toSequence)
  }

  function Tip(archive: seq<ClosedWindow>): Option<Commitment> {
    if archive == [] then None else Some(archive[|archive| - 1].signed.commitment)
  }

  ghost predicate RunSound(settings: Settings, run: AssetRun) {
    && Ready(settings, run.publisher)
    && ArchiveSound(settings, run.archive)
    && PublisherAt(run.publisher, Tip(run.archive))
  }

  lemma SoundIsReady(settings: Settings, run: AssetRun)
    requires RunSound(settings, run)
    ensures Ready(settings, run.publisher)
  {
  }

  lemma WindowEnds(settings: Settings, w: ClosedWindow)
    requires WindowSound(settings, w)
    ensures w.ticks != []
    ensures w.signed.commitment.root.Digits?
    ensures w.signed.commitment.count == |w.ticks| >= 1
    ensures w.signed.commitment.fromSequence == w.ticks[0].sequence
    ensures w.signed.commitment.toSequence == w.ticks[|w.ticks| - 1].sequence
    ensures 0 <= w.signed.commitment.fromSequence <= w.signed.commitment.toSequence
    ensures w.signed.commitment.toSequence == w.signed.commitment.fromSequence + w.signed.commitment.count - 1
    ensures IsSafeInteger(w.signed.commitment.fromSequence) && IsSafeInteger(w.signed.commitment.toSequence)
  {
    CommittedRun(w.signed.commitment, w.ticks);
    assert Published(w.ticks[0]) && Published(w.ticks[|w.ticks| - 1]);
  }

  lemma ArchiveGrows(settings: Settings, archive: seq<ClosedWindow>, w: ClosedWindow)
    requires ArchiveSound(settings, archive) && WindowSound(settings, w)
    requires archive == [] ==>
      w.signed.commitment.previousRoot.Blank? && w.signed.commitment.resumesAfter.None?
    requires archive != [] ==> Follows(archive[|archive| - 1].signed.commitment, w.signed.commitment)
    ensures ArchiveSound(settings, archive + [w])
  {
    var longer := archive + [w];
    forall i, j | 0 <= i && j == i + 1 && j < |longer|
      ensures Follows(longer[i].signed.commitment, longer[j].signed.commitment)
    {
      if j < |archive| {
        assert longer[i] == archive[i] && longer[j] == archive[j];
      }
    }
  }

  /** Closing any leading part of the open window keeps the run sound. */
  lemma CloseOffSound(settings: Settings, run: AssetRun, n: nat)
    requires RunSound(settings, run) && 0 < n <= |run.publisher.open|
    ensures var (w, after) := CloseOff(settings, run.publisher, n);
      RunSound(settings, AssetRun(after, run.archive + [w]))
  {
    var s := run.publisher;
    CommitSucceeds(settings, s, n);
    var (w, after) := CloseOff(settings, s, n);
    hide CloseOff, Commit, Ready;
    assert w.ticks == s.open[..n] && after.open == s.open[n..];
    assert AllPublished(w.ticks);
    WindowEnds(settings, w);
    if run.archive != [] {
      WindowEnds(settings, run.archive[|run.archive| - 1]);
    }
    ArchiveGrows(settings, run.archive, w);
    assert Tip(run.archive + [w]) == Some(w.signed.commitment);
  }

  lemma {:induction false} CloseFullSound(settings: Settings, run: AssetRun)
    requires RunSound(settings, run)
    ensures var (closed, after) := CloseFull(settings, run.publisher);
      RunSound(settings, AssetRun(after, run.archive + closed))
    decreases |run.publisher.open|
  {
    if |run.publisher.open| >= settings.windowTicks {
      CloseOffSound(settings, run, settings.windowTicks);
      hide CloseOff;
      var (w, after) := CloseOff(settings, run.publisher, settings.windowTicks);
      CloseFullSound(settings, AssetRun(after, run.archive + [w]));
      ConcatAssociates(run.archive, [w], CloseFull(settings, after).0);
    } else {
      ConcatUnit(run.archive);
    }
  }

  lemma PushSound(settings: Settings, run: AssetRun, tick: Tick)
    requires RunSound(settings, run) && Published(tick) && !Refuses(run.publisher, tick)
    ensures RunSound(settings, run.(publisher := Push(run.publisher, tick)))
  {
    PushReady(settings, run.publisher, tick);
    if run.archive != [] {
      WindowEnds(settings, run.archive[|run.archive| - 1]);
    }
    hide Ready;
    assert Push(run.publisher, tick).open[0] == if run.publisher.open == [] then tick else run.publisher.open[0];
    NextIsOpenHead(settings, run.publisher);
  }

  lemma NextIsOpenHead(settings: Settings, s: State)
    requires Ready(settings, s)
    ensures s.open != [] ==> s.nextSequence == Some(s.open[0].sequence)
    ensures s.resumesAfter.Some? ==> (s.nextSequence.Some? <==> s.open != [])
  {
  }

  lemma {:induction false} PushAllSound(settings: Settings, run: AssetRun, ticks: seq<Tick>, n: nat)
    requires RunSound(settings, run) && AllPublished(ticks) && n <= AcceptedCount(run.publisher, ticks)
    ensures RunSound(settings, run.(publisher := PushAll(run.publisher, ticks[..n])))
    decreases n
  {
    hide RunSound, Push;
    if n > 0 {
      PushSound(settings, run, ticks[0]);
      PushAllSound(settings, run.(publisher := Push(run.publisher, ticks[0])), ticks[1..], n - 1);
      assert ticks[..n][1..] == ticks[1..][..n - 1];
    }
  }

  lemma SealSound(settings: Settings, run: AssetRun)
    requires RunSound(settings, run)
    ensures RunSound(settings, SealRun(settings, run))
    ensures SealRun(settings, run).publisher.open == []
  {
    if run.publisher.open != [] {
      CloseOffSound(settings, run, |run.publisher.open|);
    }
  }

  lemma SeamSound(settings: Settings, run: AssetRun)
    requires RunSound(settings, run)
    ensures RunSound(settings, SeamRun(settings, run))
  {
    SealSound(settings, run);
    var sealed := SealRun(settings, run);
    hide SealRun;
    if sealed.archive != [] {
      WindowEnds(settings, sealed.archive[|sealed.archive| - 1]);
    }
  }

  lemma RestartSound(settings: Settings, run: AssetRun)
    requires RunSound(settings, run)
    ensures RunSound(settings, RestartRun(run))
  {
    if run.archive != [] {
      WindowEnds(settings, run.archive[|run.archive| - 1]);
    }
  }

  /** Every action keeps the invariant, a refused batch included. */
  lemma ActSound(settings: Settings, run: AssetRun, action: Action)
    requires RunSound(settings, run) && Takeable(action)
    ensures RunSound(settings, Act(settings, run, action))
  {
    match action
    case Observe(ticks) =>
      if ticks != [] {
        var n := AcceptedCount(run.publisher, ticks);
        PushAllSound(settings, run, ticks, n);
        if n == |ticks| {
          CloseFullSound(settings, run.(publisher := PushAll(run.publisher, ticks[..n])));
        } else {
          ConcatUnit(run.archive);
        }
      }
    case SealChain => SealSound(settings, run);
    case SeamChain => SeamSound(settings, run);
    case Restart => RestartSound(settings, run);
  }

  // ---------------------------------------------------------------- runs

  ghost predicate AllTakeable(actions: seq<Action>) {
    forall i :: 0 <= i < |actions| ==> Takeable(actions[i])
  }

  /** The state a run of actions leads to, from a sound state. */
  ghost function RunAll(settings: Settings, run: AssetRun, actions: seq<Action>): AssetRun
    requires RunSound(settings, run) && AllTakeable(actions)
    decreases |actions|
  {
    if actions == [] then run
    else
      ActSound(settings, run, actions[0]);
      RunAll(settings, Act(settings, run, actions[0]), actions[1..])
  }

  lemma BeginSound(settings: Settings)
    requires settings.windowTicks >= 1 && IsAssetId(settings.assetId)
    ensures RunSound(settings, BEGIN)
  {
  }

  /** From window n on, every window is signed with this writer's key. */
  ghost predicate SignedFrom(settings: Settings, archive: seq<ClosedWindow>, n: nat) {
    forall i :: n <= i < |archive| ==> archive[i].signed == SignCommitment(archive[i].signed.commitment, settings.key)
  }

  /** What was written stays as it is, and what is added is signed with this writer's key. */
  ghost predicate Extends(settings: Settings, before: seq<ClosedWindow>, after: seq<ClosedWindow>) {
    before <= after && SignedFrom(settings, after, |before|)
  }

  lemma {:induction false} ExtendsTransits(settings: Settings, a: seq<ClosedWindow>, b: seq<ClosedWindow>, c: seq<ClosedWindow>)
    requires Extends(settings, a, b) && Extends(settings, b, c)
    ensures Extends(settings, a, c)
  {
    forall i | |a| <= i < |c|
      ensures c[i].signed == SignCommitment(c[i].signed.commitment, settings.key)
    {
      if i < |b| {
        assert c[i] == b[i];
      }
    }
  }

  lemma CloseOffSigns(settings: Settings, s: State, n: nat)
    requires Ready(settings, s) && 0 < n <= |s.open|
    ensures var w := CloseOff(settings, s, n).0; w.signed == SignCommitment(w.signed.commitment, settings.key)
  {
    CommitSucceeds(settings, s, n);
    hide Ready, Commit;
  }

  lemma {:induction false} CloseFullSigns(settings: Settings, s: State)
    requires Ready(settings, s)
    ensures SignedFrom(settings, CloseFull(settings, s).0, 0)
    decreases |s.open|
  {
    if |s.open| >= settings.windowTicks {
      CloseOffSigns(settings, s, settings.windowTicks);
      hide CloseOff, Ready;
      CloseFullSigns(settings, CloseOff(settings, s, settings.windowTicks).1);
    }
  }

  /** Every action leaves the file as it was, with this writer's windows behind it. */
  lemma ActExtends(settings: Settings, run: AssetRun, action: Action)
    requires Ready(settings, run.publisher) && Takeable(action)
    ensures Extends(settings, run.archive, Act(settings, run, action).archive)
  {
    match action
    case Observe(ticks) =>
      if ticks != [] {
        var n := AcceptedCount(run.publisher, ticks);
        PushAllReady(settings, run.publisher, ticks, n);
        CloseFullSigns(settings, PushAll(run.publisher, ticks[..n]));
      }
      hide Ready, CloseFull, CloseOff;
    case SealChain => SealExtends(settings, run);
    case SeamChain => SealExtends(settings, run);
    case Restart =>
  }

  lemma SealExtends(settings: Settings, run: AssetRun)
    requires Ready(settings, run.publisher)
    ensures Extends(settings, run.archive, SealRun(settings, run).archive)
  {
    if run.publisher.open != [] {
      CloseOffSigns(settings, run.publisher, |run.publisher.open|);
    }
    hide Ready, CloseOff;
  }

  /**
  Every interleaving of the four actions leaves a sound archive: the file it found, with windows
  signed by its own key behind it.
  */
  lemma {:induction false} EveryRunIsSound(settings: Settings, run: AssetRun, actions: seq<Action>)
    requires RunSound(settings, run) && AllTakeable(actions)
    ensures RunSound(settings, RunAll(settings, run, actions))
    ensures Extends(settings, run.archive, RunAll(settings, run, actions).archive)
    decreases |actions|
  {
    if actions != [] {
      SoundIsReady(settings, run);
      ActSound(settings, run, actions[0]);
      ActExtends(settings, run, actions[0]);
      hide RunSound, Act, Extends;
      var next := Act(settings, run, actions[0]);
      EveryRunIsSound(settings, next, actions[1..]);
      ExtendsTransits(settings, run.archive, next.archive, RunAll(settings, next, actions[1..]).archive);
    }
  }

  // ---------------------------------------------------------------- what the file is

  /**
  The shape of every link in every file a writer leaves, read off its sequences: it restarts
  unbound exactly where the record went back over committed ground, declares a resume exactly
  where sequences jump, and then names its predecessor's end.
  */
  lemma LinkShapes(settings: Settings, archive: seq<ClosedWindow>, i: nat)
    requires ArchiveSound(settings, archive) && i + 1 < |archive|
    ensures var previous, link := Links(archive)[i], Links(archive)[i + 1];
      && (link.previousRoot.Blank? <==> link.fromSequence <= previous.toSequence)
      && (link.previousRoot.Digits? <==> link.fromSequence > previous.toSequence)
      && (link.previousRoot.Digits? ==> link.previousRoot == previous.root)
      && (link.resumesAfter.Some? <==> link.fromSequence > previous.toSequence + 1)
      && (link.resumesAfter.Some? ==> link.resumesAfter.value == previous.toSequence)
  {
    var previous, link := archive[i].signed.commitment, archive[i + 1].signed.commitment;
    assert Follows(previous, link);
    WindowEnds(settings, archive[i]);
  }

  /** The record never went back over committed ground. */
  ghost predicate OnlyForward(archive: seq<ClosedWindow>) {
    forall i, j :: 0 <= i && j == i + 1 && j < |archive| ==>
      archive[j].signed.commitment.fromSequence > archive[i].signed.commitment.toSequence
  }

  /** Exactly when the file a run leaves is one valid chain. */
  lemma FileVerifiesIff(settings: Settings, archive: seq<ClosedWindow>)
    requires ArchiveSound(settings, archive) && archive != []
    ensures Verifies(Links(archive)) <==> OnlyForward(archive)
    ensures Committed(Links(archive), Windows(archive))
  {
    var links := Links(archive);
    VerifiesMeansSound(links);
    WindowEnds(settings, archive[0]);
    forall i, j | 0 <= i && j == i + 1 && j < |archive|
      ensures SoundStep(links[i], links[j]) <==>
        archive[j].signed.commitment.fromSequence > archive[i].signed.commitment.toSequence
    {
      assert Follows(archive[i].signed.commitment, archive[j].signed.commitment);
    }
    if OnlyForward(archive) {
      forall j | 0 < j < |links|
        ensures SoundStep(links[j - 1], links[j])
      {
        var i := j - 1;
        assert archive[j].signed.commitment.fromSequence > archive[i].signed.commitment.toSequence;
      }
    }
  }

  /** A batch the caller can check beforehand: it starts beyond everything committed. */
  ghost predicate Beyond(run: AssetRun, action: Action) {
    action.Observe? && action.ticks != [] && run.archive != [] ==>
      action.ticks[0].sequence > run.archive[|run.archive| - 1].signed.commitment.toSequence
  }

  ghost predicate AllBeyond(settings: Settings, run: AssetRun, actions: seq<Action>)
    requires RunSound(settings, run) && AllTakeable(actions)
    decreases |actions|
  {
    actions == [] ||
    (ActSound(settings, run, actions[0]);
     Beyond(run, actions[0]) && AllBeyond(settings, Act(settings, run, actions[0]), actions[1..]))
  }

  /** Sound, and never gone backwards: neither in the file nor in the open window. */
  ghost predicate Forward(settings: Settings, run: AssetRun) {
    && RunSound(settings, run)
    && OnlyForward(run.archive)
    && (run.archive != [] && run.publisher.open != [] ==>
      run.publisher.open[0].sequence > run.archive[|run.archive| - 1].signed.commitment.toSequence)
  }

  lemma CloseOffForward(settings: Settings, run: AssetRun, n: nat)
    requires Forward(settings, run) && 0 < n <= |run.publisher.open|
    ensures var (w, after) := CloseOff(settings, run.publisher, n);
      Forward(settings, AssetRun(after, run.archive + [w]))
  {
    CloseOffSound(settings, run, n);
    var s := run.publisher;
    var (w, after) := CloseOff(settings, s, n);
    CommitSucceeds(settings, s, n);
    hide CloseOff, Commit, PublisherAt;
    var longer := run.archive + [w];
    forall i, j | 0 <= i && j == i + 1 && j < |longer|
      ensures longer[j].signed.commitment.fromSequence > longer[i].signed.commitment.toSequence
    {
      if j < |run.archive| {
        assert longer[i] == run.archive[i] && longer[j] == run.archive[j];
      }
    }
    if n < |s.open| {
      assert after.open[0] == s.open[n];
    }
  }

  lemma {:induction false} CloseFullForward(settings: Settings, run: AssetRun)
    requires Forward(settings, run)
    ensures var (closed, after) := CloseFull(settings, run.publisher);
      Forward(settings, AssetRun(after, run.archive + closed))
    decreases |run.publisher.open|
  {
    if |run.publisher.open| >= settings.windowTicks {
      CloseOffForward(settings, run, settings.windowTicks);
      hide CloseOff, Forward;
      var (w, after) := CloseOff(settings, run.publisher, settings.windowTicks);
      CloseFullForward(settings, AssetRun(after, run.archive + [w]));
      ConcatAssociates(run.archive, [w], CloseFull(settings, after).0);
    } else {
      ConcatUnit(run.archive);
    }
  }

  lemma ActForward(settings: Settings, run: AssetRun, action: Action)
    requires Forward(settings, run) && Takeable(action) && Beyond(run, action)
    ensures Forward(settings, Act(settings, run, action))
  {
    match action
    case Observe(ticks) => ObserveForward(settings, run, ticks);
    case SealChain => SealForward(settings, run);
    case SeamChain =>
      SealForward(settings, run);
      SeamSound(settings, run);
    case Restart => RestartSound(settings, run);
  }

  lemma ObserveForward(settings: Settings, run: AssetRun, ticks: seq<Tick>)
    requires Forward(settings, run) && AllPublished(ticks) && Beyond(run, Observe(ticks))
    ensures Forward(settings, ObserveRun(settings, run, ticks))
  {
    if ticks != [] {
      var n := AcceptedCount(run.publisher, ticks);
      TakenForward(settings, run, ticks, n);
      hide Forward, Ready, CloseFull;
      if n == |ticks| {
        CloseFullForward(settings, run.(publisher := PushAll(run.publisher, ticks[..n])));
      } else {
        ConcatUnit(run.archive);
      }
    }
  }

  lemma TakenForward(settings: Settings, run: AssetRun, ticks: seq<Tick>, n: nat)
    requires Forward(settings, run) && AllPublished(ticks) && ticks != [] && Beyond(run, Observe(ticks))
    requires n <= AcceptedCount(run.publisher, ticks)
    ensures Forward(settings, run.(publisher := PushAll(run.publisher, ticks[..n])))
  {
    PushAllSound(settings, run, ticks, n);
    PushAllReady(settings, run.publisher, ticks, n);
    hide RunSound, OnlyForward, Ready;
    var open := PushAll(run.publisher, ticks[..n]).open;
    if open != [] {
      assert open[0] == if run.publisher.open != [] then run.publisher.open[0] else ticks[0];
    }
  }

  lemma SealForward(settings: Settings, run: AssetRun)
    requires Forward(settings, run)
    ensures Forward(settings, SealRun(settings, run))
  {
    SealSound(settings, run);
    if run.publisher.open != [] {
      CloseOffForward(settings, run, |run.publisher.open|);
    }
  }

  /**
  Every run whose batches start beyond what is committed leaves one valid chain, whatever the
  interleaving of batches, seals, seams and restarts, refused batches included.
  */
  lemma {:induction false} ForwardRunsLeaveOneChain(settings: Settings, run: AssetRun, actions: seq<Action>)
    requires Forward(settings, run) && AllTakeable(actions)
    requires AllBeyond(settings, run, actions)
    ensures var final := RunAll(settings, run, actions);
      && Forward(settings, final)
      && (final.archive != [] ==> Verifies(Links(final.archive)))
    decreases |actions|
  {
    if actions == [] {
      if run.archive != [] {
        FileVerifiesIff(settings, run.archive);
      }
    } else {
      ActForward(settings, run, actions[0]);
      ForwardRunsLeaveOneChain(settings, Act(settings, run, actions[0]), actions[1..]);
    }
  }

  // ---------------------------------------------------------------- conservation

  /** Everything accepted so far, less the open windows that restarts lost. */
  ghost function Kept(settings: Settings, run: AssetRun, actions: seq<Action>, kept: seq<Tick>): seq<Tick>
    requires RunSound(settings, run) && AllTakeable(actions)
    decreases |actions|
  {
    if actions == [] then kept
    else
      ActSound(settings, run, actions[0]);
      Kept(settings, Act(settings, run, actions[0]), actions[1..], KeptStep(run, actions[0], kept))
  }

  ghost function KeptStep(run: AssetRun, action: Action, kept: seq<Tick>): seq<Tick> {
    match action
    case Observe(ticks) => kept + ticks[..AcceptedCount(run.publisher, ticks)]
    case SealChain => kept
    case SeamChain => kept
    case Restart => if |run.publisher.open| <= |kept| then kept[..|kept| - |run.publisher.open|] else []
  }

  /** Ticks on disk, then ticks still open. */
  function Held(run: AssetRun): seq<Tick> {
    Joined(run.archive) + run.publisher.open
  }

  lemma ActConserves(settings: Settings, run: AssetRun, action: Action)
    requires RunSound(settings, run) && Takeable(action)
    ensures Held(Act(settings, run, action)) == KeptStep(run, action, Held(run))
  {
    match action
    case Observe(ticks) => ObserveConserves(settings, run, ticks);
    case SealChain => SealConserves(settings, run);
    case SeamChain => SealConserves(settings, run);
    case Restart =>
      var before := Joined(run.archive);
      assert Held(run)[..|before|] == before;
      ConcatUnit(before);
  }

  lemma ObserveConserves(settings: Settings, run: AssetRun, ticks: seq<Tick>)
    requires RunSound(settings, run) && AllPublished(ticks)
    ensures Held(ObserveRun(settings, run, ticks))
         == Held(run) + ticks[..AcceptedCount(run.publisher, ticks)]
  {
    var n := AcceptedCount(run.publisher, ticks);
    if ticks == [] {
      ConcatUnit(Held(run));
    } else {
      PushAllReady(settings, run.publisher, ticks, n);
      hide Ready, RunSound;
      var taken := PushAll(run.publisher, ticks[..n]);
      var before := Joined(run.archive);
      ConcatAssociates(before, run.publisher.open, ticks[..n]);
      if n == |ticks| {
        var (closed, after) := CloseFull(settings, taken);
        CloseFullConserves(settings, taken);
        JoinedConcat(run.archive, closed);
        ConcatAssociates(before, Joined(closed), after.open);
      } else {
        ConcatUnit(run.archive);
      }
    }
  }

  lemma SealConserves(settings: Settings, run: AssetRun)
    requires RunSound(settings, run)
    ensures Joined(SealRun(settings, run).archive) == Held(run)
    ensures SealRun(settings, run).publisher.open == []
    ensures Held(SealRun(settings, run)) == Held(run)
    ensures Held(SeamRun(settings, run)) == Held(run)
  {
    if run.publisher.open != [] {
      var (w, after) := CloseOff(settings, run.publisher, |run.publisher.open|);
      hide CloseOff;
      assert w.ticks == run.publisher.open;
      JoinedConcat(run.archive, [w]);
      JoinedCons(w, []);
      ConcatUnit(w.ticks);
    }
    ConcatUnit(Held(run));
    ConcatUnit(Joined(run.archive));
  }

  /**
  Conservation: in every run, the windows on disk followed by the open window are exactly the
  accepted ticks in order, less the open windows that restarts lost. Nothing is committed
  twice, reordered or dropped.
  */
  lemma {:induction false} EveryRunConserves(settings: Settings, run: AssetRun, actions: seq<Action>)
    requires RunSound(settings, run) && AllTakeable(actions)
    ensures Held(RunAll(settings, run, actions)) == Kept(settings, run, actions, Held(run))
    decreases |actions|
  {
    if actions != [] {
      ActSound(settings, run, actions[0]);
      ActConserves(settings, run, actions[0]);
      EveryRunConserves(settings, Act(settings, run, actions[0]), actions[1..]);
    }
  }

  // ---------------------------------------------------------------- the unbound restart

  /** Consecutive windows over one unbroken range that starts at `from`. */
  ghost predicate Tiles(windows: seq<ClosedWindow>, from: int) {
    windows == [] ||
    (&& windows[0].signed.commitment.fromSequence == from
     && Tiles(windows[1..], windows[0].signed.commitment.toSequence + 1))
  }

  /** Where the range tiled by the windows ends, exclusively. */
  function TiledTo(windows: seq<ClosedWindow>, from: int): int {
    if windows == [] then from else windows[|windows| - 1].signed.commitment.toSequence + 1
  }

  lemma {:induction false} TilesAt(windows: seq<ClosedWindow>, from: int, i: nat)
    requires Tiles(windows, from) && i < |windows|
    ensures windows[i].signed.commitment.fromSequence
         == if i == 0 then from else windows[i - 1].signed.commitment.toSequence + 1
    decreases i
  {
    if i > 0 {
      TilesAt(windows[1..], windows[0].signed.commitment.toSequence + 1, i - 1);
    }
  }

  lemma {:induction false} TilesAppend(windows: seq<ClosedWindow>, from: int, w: ClosedWindow)
    requires Tiles(windows, from) && w.signed.commitment.fromSequence == TiledTo(windows, from)
    ensures Tiles(windows + [w], from)
    decreases |windows|
  {
    if windows == [] {
      assert windows + [w] == [w];
    } else {
      TilesAppend(windows[1..], windows[0].signed.commitment.toSequence + 1, w);
      assert (windows + [w])[1..] == windows[1..] + [w];
    }
  }

  /** Windows closed off one open window tile it from its first sequence to what stays open. */
  lemma {:induction false} CloseFullTiles(settings: Settings, s: State)
    requires Ready(settings, s) && s.open != []
    ensures Tiles(CloseFull(settings, s).0, s.open[0].sequence)
    ensures CloseFull(settings, s).1.open != [] ==>
      CloseFull(settings, s).1.open[0].sequence == TiledTo(CloseFull(settings, s).0, s.open[0].sequence)
    ensures CloseFull(settings, s).1.open == [] ==> CloseFull(settings, s).0 != []
    decreases |s.open|
  {
    if |s.open| >= settings.windowTicks {
      var n := settings.windowTicks;
      CommitSucceeds(settings, s, n);
      var (first, after) := CloseOff(settings, s, n);
      hide CloseOff, Commit;
      if n < |s.open| {
        assert after.open[0] == s.open[n];
        assert s.open[n].sequence == s.open[n - 1].sequence + 1;
        hide Ready, Contiguous;
        CloseFullTiles(settings, after);
        var (rest, final) := CloseFull(settings, after);
        assert ([first] + rest)[1..] == rest;
      } else {
        assert CloseFull(settings, s).0[1..] == [];
      }
    }
  }

  /**
  After a seam, a record that starts again at or before the head costs exactly one unbound
  restart: the first window of the batch begins an unbound chain where the batch begins, and
  every window after it is bound to the one before.
  */
  lemma BackwardBatchRestartsOnce(settings: Settings, run: AssetRun, ticks: seq<Tick>)
    requires RunSound(settings, run) && run.archive != [] && AllPublished(ticks)
    requires ticks != [] && Contiguous(ticks)
    requires var seamed := SeamRun(settings, run);
      ticks[0].sequence <= seamed.archive[|seamed.archive| - 1].signed.commitment.toSequence
    ensures RunSound(settings, SeamRun(settings, run))
    ensures var seamed := SeamRun(settings, run);
      RunSound(settings, ObserveRun(settings, seamed, ticks))
    ensures var seamed := SeamRun(settings, run);
      var final := SealRun(settings, ObserveRun(settings, seamed, ticks));
      var n := |seamed.archive|;
      && ArchiveSound(settings, final.archive)
      && n < |final.archive| && final.archive[..n] == seamed.archive
      && Links(final.archive)[n].previousRoot.Blank?
      && Links(final.archive)[n].fromSequence == ticks[0].sequence
      && forall i :: n < i < |final.archive| ==> Links(final.archive)[i].previousRoot.Digits?
  {
    SeamSound(settings, run);
    SeamWaits(settings, run);
    var seamed := SeamRun(settings, run);
    var observed := ObserveRun(settings, seamed, ticks);
    var all := BatchThenSeal(settings, seamed, ticks);
    ActSound(settings, seamed, Observe(ticks));
    SealSound(settings, observed);
    var final := SealRun(settings, observed);
    hide Ready, ArchiveSound, SeamRun, ObserveRun, SealRun;
    var n := |seamed.archive|;
    assert final.archive[n..] == all;
    RestartShape(settings, final.archive, n, ticks[0].sequence);
  }

  /** Tiling windows behind a head they start at or before: the first is unbound, the rest bound. */
  lemma RestartShape(settings: Settings, archive: seq<ClosedWindow>, n: nat, from: int)
    requires ArchiveSound(settings, archive)
    requires 0 < n < |archive| && Tiles(archive[n..], from)
    requires from <= archive[n - 1].signed.commitment.toSequence
    ensures Links(archive)[n].previousRoot.Blank? && Links(archive)[n].fromSequence == from
    ensures forall i :: n < i < |archive| ==> Links(archive)[i].previousRoot.Digits?
  {
    TilesAt(archive[n..], from, 0);
    LinkShapes(settings, archive, n - 1);
    forall i | n < i < |archive|
      ensures Links(archive)[i].previousRoot.Digits?
    {
      RestartedWindowBound(settings, archive, n, from, i);
    }
  }

  lemma RestartedWindowBound(settings: Settings, archive: seq<ClosedWindow>, n: nat, from: int, i: nat)
    requires ArchiveSound(settings, archive) && n < i < |archive| && Tiles(archive[n..], from)
    ensures Links(archive)[i].previousRoot.Digits?
  {
    var previous, w := archive[i - 1], archive[i];
    assert w.signed.commitment.fromSequence == previous.signed.commitment.toSequence + 1 by {
      hide ArchiveSound, Tiles;
      var tail := archive[n..];
      assert tail[i - n] == w && tail[i - n - 1] == previous;
      TilesAt(tail, from, i - n);
    }
    hide Tiles;
    LinkShapes(settings, archive, i - 1);
  }

  /** A batch taken whole by an empty publisher and then sealed is one row of tiling windows. */
  lemma BatchThenSeal(settings: Settings, run: AssetRun, ticks: seq<Tick>) returns (all: seq<ClosedWindow>)
    requires RunSound(settings, run) && AllPublished(ticks) && ticks != [] && Contiguous(ticks)
    requires run.publisher.open == [] && run.publisher.nextSequence.None?
    ensures Ready(settings, ObserveRun(settings, run, ticks).publisher)
    ensures SealRun(settings, ObserveRun(settings, run, ticks)).archive == run.archive + all
    ensures all != [] && Tiles(all, ticks[0].sequence)
  {
    var s := run.publisher;
    AcceptedWhole(s, ticks);
    TakenWhole(settings, s, ticks);
    ObservedWhole(settings, s, ticks);
    ConcatUnit(ticks);
    var taken := PushAll(s, ticks);
    var (closed, after) := CloseFull(settings, taken);
    CloseFullTiles(settings, taken);
    SealTile(settings, after);
    hide CloseFull, Ready;
    var tail := if after.open == [] then [] else [Sealed(settings, after).0.value];
    all := closed + tail;
    if after.open != [] {
      TilesAppend(closed, ticks[0].sequence, tail[0]);
    } else {
      ConcatUnit(closed);
    }
    ConcatAssociates(run.archive, closed, tail);
    ConcatUnit(run.archive + closed);
  }

  lemma SealTile(settings: Settings, s: State)
    requires Ready(settings, s)
    ensures s.open != [] ==>
      && Sealed(settings, s).0.Some?
      && Sealed(settings, s).0.value.signed.commitment.fromSequence == s.open[0].sequence
  {
    if s.open != [] {
      CommitSucceeds(settings, s, |s.open|);
    }
  }

  /** After a seam behind a committed head the publisher waits for whatever comes. */
  lemma SeamWaits(settings: Settings, run: AssetRun)
    requires RunSound(settings, run) && run.archive != []
    ensures var seamed := SeamRun(settings, run);
      && seamed.archive != []
      && seamed.publisher.open == [] && seamed.publisher.nextSequence.None?
      && seamed.publisher.resumesAfter == Some(seamed.archive[|seamed.archive| - 1].signed.commitment.toSequence)
  {
    SealSound(settings, run);
    var sealed := SealRun(settings, run);
    WindowEnds(settings, sealed.archive[|sealed.archive| - 1]);
  }
}
