/**
The publisher: turns a market's ticks into signed, chained windows
(packages/distribution/src/publisher.ts).

The class holds the source's five mutable fields and its three methods; each is proved
against a function on the publisher's state, and the laws of the state machine are lemmas
about those functions.
*/
module Publisher {
  import opened Prelude
  import opened Digests
  import opened Commitments

  /** A publishing key: its public identity and what it signs a link with. */
  datatype Key = Key(publicKey: string, sign: Commitment -> string)

  /** A link with the signature that attributes it. */
  datatype SignedCommitment = SignedCommitment(
    commitment: Commitment,
    signature: string,
    publicKey: string)

  function SignCommitment(link: Commitment, key: Key): SignedCommitment {
    SignedCommitment(link, key.sign(link), key.publicKey)
  }

  /** A window that closed: its signed link, and the ticks it commits to. */
  datatype ClosedWindow = ClosedWindow(signed: SignedCommitment, ticks: seq<Tick>)

  datatype Settings = Settings(assetId: string, windowTicks: nat, key: Key)

  datatype State = State(
    open: seq<Tick>,
    previousRoot: Hex,
    nextSequence: Option<int>,
    tipSequence: Option<int>,
    resumesAfter: Option<int>)

  datatype PublisherError =
    | BadWindowSize
    | Unusable(error: CommitmentError)
    | MustSayWhereItResumes
    | MustNameTheRootItResumesAfter
    | ResumesAndKnowsNext
    | Unexpected(expected: int, received: int)

  // ---------------------------------------------------------------- construction

  datatype Options = Options(
    previousRoot: Option<Hex>,
    nextSequence: Option<int>,
    resumesAfter: Option<int>)

  const FRESH := Options(None, None, None)

  function Continue(tipRoot: Hex, nextSequence: int): Options {
    Options(Some(tipRoot), Some(nextSequence), None)
  }

  function ResumeAfter(tipRoot: Hex, resumesAfter: int): Options {
    Options(Some(tipRoot), None, Some(resumesAfter))
  }

  function OptionsFault(settings: Settings, options: Options): Option<PublisherError> {
    if settings.windowTicks < 1 then Some(BadWindowSize)
    else if !IsAssetId(settings.assetId) then Some(Unusable(BadAssetId))
    else if options.previousRoot.Some? && !IsPreviousRoot(options.previousRoot.value) then Some(Unusable(BadPreviousRoot))
    else if options.previousRoot.Some? && options.nextSequence.None? && options.resumesAfter.None? then
      Some(MustSayWhereItResumes)
    else if options.resumesAfter.Some? && (options.previousRoot.None? || options.previousRoot.value.Blank?) then
      Some(MustNameTheRootItResumesAfter)
    else if options.resumesAfter.Some? && options.nextSequence.Some? then Some(ResumesAndKnowsNext)
    else None
  }

  function Initial(options: Options): State {
    State(
      [],
      if options.previousRoot.Some? then options.previousRoot.value else Blank,
      options.nextSequence,
      if options.nextSequence.Some? then Some(options.nextSequence.value - 1) else options.resumesAfter,
      options.resumesAfter)
  }

  // ---------------------------------------------------------------- the state machine

  /**
  What every method keeps, and what makes committing the open window succeed: it is
  contiguous, and a pending resume declaration names a digest and a gap.
  */
  ghost predicate Ready(settings: Settings, s: State) {
    && settings.windowTicks >= 1 && IsAssetId(settings.assetId)
    && IsPreviousRoot(s.previousRoot)
    && Contiguous(s.open) && AllPublished(s.open)
    && (s.open != [] ==> s.nextSequence == Some(s.open[0].sequence))
    && (s.resumesAfter.Some? ==>
      && s.previousRoot.Digits?
      && IsSafeInteger(s.resumesAfter.value) && s.resumesAfter.value >= 0
      && (s.nextSequence.Some? <==> s.open != [])
      && (s.open != [] ==> s.open[0].sequence > s.resumesAfter.value + 1))
  }

  function ExpectedSequence(s: State): Option<int> {
    if s.open != [] then Some(s.open[|s.open| - 1].sequence + 1) else s.nextSequence
  }

  /** What the first tick after a seam decides: a gap, no gap after all, or a record gone backwards. */
  function SettleResume(s: State, sequence: int): State {
    if s.resumesAfter.None? || s.nextSequence.Some? then s
    else if sequence <= s.resumesAfter.value then
      s.(previousRoot := Blank, resumesAfter := None, tipSequence := None)
    else if sequence == s.resumesAfter.value + 1 then s.(resumesAfter := None)
    else s
  }

  function Push(s: State, tick: Tick): State {
    var settled := SettleResume(s, tick.sequence);
    settled.(
      open := settled.open + [tick],
      nextSequence := if settled.nextSequence.None? then Some(tick.sequence) else settled.nextSequence)
  }

  predicate Refuses(s: State, tick: Tick) {
    ExpectedSequence(s).Some? && tick.sequence != ExpectedSequence(s).value
  }

  /** How many leading ticks of a batch are taken before one is refused. */
  function AcceptedCount(s: State, ticks: seq<Tick>): (n: nat)
    ensures n <= |ticks|
    decreases |ticks|
  {
    if ticks == [] || Refuses(s, ticks[0]) then 0
    else 1 + AcceptedCount(Push(s, ticks[0]), ticks[1..])
  }

  /** The state after the leading n ticks were taken. */
  function PushAll(s: State, ticks: seq<Tick>): State
    decreases |ticks|
  {
    if ticks == [] then s else PushAll(Push(s, ticks[0]), ticks[1..])
  }

  /** The link a window closes with, and the state behind it; the window has left `open`. */
  function CloseWindow(settings: Settings, s: State, window: seq<Tick>): Result<(ClosedWindow, State), CommitmentError> {
    match Commit(settings.assetId, window, s.previousRoot, s.resumesAfter)
    case Err(error) => Err(error)
    case Ok(link) => Ok((
      ClosedWindow(SignCommitment(link, settings.key), window),
      s.(previousRoot := link.root,
         nextSequence := Some(link.toSequence + 1),
         tipSequence := Some(link.toSequence),
         resumesAfter := None)))
  }

  /** A state with its first n open ticks taken out, as `splice` leaves it. */
  function Splice(s: State, n: nat): State
    requires n <= |s.open|
  {
    s.(open := s.open[n..])
  }

  lemma CommitSucceeds(settings: Settings, s: State, n: nat)
    requires Ready(settings, s) && 0 < n <= |s.open|
    ensures CloseWindow(settings, Splice(s, n), s.open[..n]).Ok?
    ensures var (closed, after) := CloseWindow(settings, Splice(s, n), s.open[..n]).value;
      && CommitsTo(closed.signed.commitment, s.open[..n])
      && closed.signed.commitment.assetId == settings.assetId
      && closed.signed.commitment.previousRoot == s.previousRoot
      && closed.signed.commitment.resumesAfter == s.resumesAfter
      && closed.ticks == s.open[..n]
      && closed.signed.commitment.toSequence == s.open[n - 1].sequence
      && closed.signed.commitment.fromSequence == s.open[0].sequence
      && Ready(settings, after)
  {
    var window := s.open[..n];
    assert Published(s.open[0]) && Published(s.open[n - 1]);
    forall i | 0 <= i < |window|
      ensures window[i].Encodable()
    {
      assert Published(s.open[i]);
    }
    assert Commit(settings.assetId, window, s.previousRoot, s.resumesAfter).Ok?;
  }

  /** Close the first n open ticks as one window. */
  function CloseOff(settings: Settings, s: State, n: nat): (r: (ClosedWindow, State))
    requires Ready(settings, s) && 0 < n <= |s.open|
    ensures Ready(settings, r.1)
    ensures r.0.ticks == s.open[..n] && r.1.open == s.open[n..]
    ensures r.1.nextSequence.Some? && ExpectedSequence(r.1) == ExpectedSequence(s)
  {
    CommitSucceeds(settings, s, n);
    CloseWindow(settings, Splice(s, n), s.open[..n]).value
  }

  /** Close every window that is full. */
  function CloseFull(settings: Settings, s: State): (r: (seq<ClosedWindow>, State))
    requires Ready(settings, s)
    ensures Ready(settings, r.1)
    decreases |s.open|
  {
    if |s.open| < settings.windowTicks then ([], s)
    else
      var (closed, after) := CloseOff(settings, s, settings.windowTicks);
      var (rest, final) := CloseFull(settings, after);
      ([closed] + rest, final)
  }

  datatype Outcome = Outcome(closed: seq<ClosedWindow>, state: State, error: Option<PublisherError>)

  /**
  `observe`. A refused batch throws before any window closes, and leaves the ticks it had
  already taken in the open window.
  */
  function Observed(settings: Settings, s: State, ticks: seq<Tick>): Outcome
    requires Ready(settings, s) && AllPublished(ticks)
  {
    var n := AcceptedCount(s, ticks);
    var taken := PushAll(s, ticks[..n]);
    PushAllReady(settings, s, ticks, n);
    if n < |ticks| then
      Outcome([], taken, Some(Unexpected(ExpectedAfter(s, ticks, n), ticks[n].sequence)))
    else
      var (closed, after) := CloseFull(settings, taken);
      Outcome(closed, after, None)
  }

  function ExpectedAfter(s: State, ticks: seq<Tick>, n: nat): int
    requires n < |ticks| && n == AcceptedCount(s, ticks)
  {
    RefusalHasExpectation(s, ticks, n);
    ExpectedSequence(PushAll(s, ticks[..n])).value
  }

  /** `sealChain`: whatever is open becomes a window of its own. */
  function Sealed(settings: Settings, s: State): (r: (Option<ClosedWindow>, State))
    requires Ready(settings, s)
  {
    if s.open == [] then (None, s)
    else
      var (closed, after) := CloseOff(settings, s, |s.open|);
      (Some(closed), after)
  }

  // ---------------------------------------------------------------- laws of the state machine

  lemma PushReady(settings: Settings, s: State, tick: Tick)
    requires Ready(settings, s) && Published(tick) && !Refuses(s, tick)
    ensures Ready(settings, Push(s, tick))
    ensures Push(s, tick).open == s.open + [tick]
  {
  }

  lemma {:induction false} PushAllReady(settings: Settings, s: State, ticks: seq<Tick>, n: nat)
    requires Ready(settings, s) && AllPublished(ticks) && n <= AcceptedCount(s, ticks)
    ensures Ready(settings, PushAll(s, ticks[..n]))
    ensures PushAll(s, ticks[..n]).open == s.open + ticks[..n]
    decreases n
  {
    hide Ready;
    if n > 0 {
      PushReady(settings, s, ticks[0]);
      hide Push;
      PushAllReady(settings, Push(s, ticks[0]), ticks[1..], n - 1);
      assert ticks[..n][1..] == ticks[1..][..n - 1];
      assert ticks[..n] == [ticks[0]] + ticks[1..][..n - 1];
    }
  }

  lemma {:induction false} RefusalHasExpectation(s: State, ticks: seq<Tick>, n: nat)
    requires n < |ticks| && n == AcceptedCount(s, ticks)
    ensures Refuses(PushAll(s, ticks[..n]), ticks[n])
    decreases n
  {
    if n > 0 {
      RefusalHasExpectation(Push(s, ticks[0]), ticks[1..], n - 1);
      assert ticks[..n][1..] == ticks[1..][..n - 1];
    }
  }

  lemma {:induction false} PushAllSplits(s: State, a: seq<Tick>, b: seq<Tick>)
    ensures PushAll(s, a + b) == PushAll(PushAll(s, a), b)
    ensures AcceptedCount(s, a + b) ==
      if AcceptedCount(s, a) < |a| then AcceptedCount(s, a)
      else |a| + AcceptedCount(PushAll(s, a), b)
    decreases |a|
  {
    if a == [] {
      assert a + b == b;
    } else {
      assert (a + b)[1..] == a[1..] + b;
      PushAllSplits(Push(s, a[0]), a[1..], b);
    }
  }

  /**
  What a batch is judged by: it is taken whole exactly when it is contiguous and starts where
  the publisher expects, or anywhere if it expects nothing.
  */
  lemma {:induction false} AcceptedWhole(s: State, ticks: seq<Tick>)
    requires ticks != []
    ensures AcceptedCount(s, ticks) == |ticks| <==>
      && Contiguous(ticks)
      && (ExpectedSequence(s).Some? ==> ticks[0].sequence == ExpectedSequence(s).value)
    decreases |ticks|
  {
    if |ticks| > 1 {
      AcceptedWhole(Push(s, ticks[0]), ticks[1..]);
      if AcceptedCount(s, ticks) == |ticks| {
        assert forall i :: 1 <= i < |ticks| ==> ticks[i] == ticks[1..][i - 1];
      }
    }
  }

  /** Every window `observe` closes is exactly full, and less than a window stays open. */
  lemma {:induction false} CloseFullExact(settings: Settings, s: State)
    requires Ready(settings, s)
    ensures |CloseFull(settings, s).1.open| < settings.windowTicks
    ensures forall w :: w in CloseFull(settings, s).0 ==> |w.ticks| == settings.windowTicks
    decreases |s.open|
  {
    hide CloseOff, Contiguous, Commit;
    if |s.open| >= settings.windowTicks {
      CloseFullExact(settings, CloseOff(settings, s, settings.windowTicks).1);
    }
  }

  /** Closing windows moves ticks out of the open window and loses none. */
  lemma {:induction false} CloseFullConserves(settings: Settings, s: State)
    requires Ready(settings, s)
    ensures Joined(CloseFull(settings, s).0) + CloseFull(settings, s).1.open == s.open
    decreases |s.open|
  {
    hide CloseOff, Ready, Contiguous, Commit;
    if |s.open| >= settings.windowTicks {
      assert settings.windowTicks > 0 by {
        TakenWhole(settings, s, []);
      }
      var (first, after) := CloseOff(settings, s, settings.windowTicks);
      CloseFullConserves(settings, after);
      var (rest, final) := CloseFull(settings, after);
      JoinedCons(first, rest);
      ConcatAssociates(first.ticks, Joined(rest), final.open);
      CutAt(s.open, settings.windowTicks);
    } else {
      ConcatUnit(s.open);
    }
  }

  /** The ticks of closed windows, in order. */
  function Joined(closed: seq<ClosedWindow>): seq<Tick> {
    if closed == [] then [] else closed[0].ticks + Joined(closed[1..])
  }

  lemma JoinedCons(first: ClosedWindow, rest: seq<ClosedWindow>)
    ensures Joined([first] + rest) == first.ticks + Joined(rest)
  {
    assert ([first] + rest)[1..] == rest;
  }

  lemma {:induction false} JoinedConcat(a: seq<ClosedWindow>, b: seq<ClosedWindow>)
    ensures Joined(a + b) == Joined(a) + Joined(b)
    decreases |a|
  {
    if a == [] {
      assert a + b == b;
    } else {
      JoinedConcat(a[1..], b);
      assert (a + b)[1..] == a[1..] + b;
    }
  }

  /** Once the next sequence is known, pushing changes nothing but the open window. */
  lemma {:induction false} PushAllKeepsRest(s: State, ticks: seq<Tick>)
    requires s.nextSequence.Some?
    ensures PushAll(s, ticks) == s.(open := s.open + ticks)
    decreases |ticks|
  {
    if ticks != [] {
      PushAllKeepsRest(Push(s, ticks[0]), ticks[1..]);
      assert s.open + ticks == (s.open + [ticks[0]]) + ticks[1..];
    } else {
      assert s.open + ticks == s.open;
    }
  }

  /** The first window closes alike, whether or not more ticks wait behind it. */
  lemma CloseOffIgnoresLater(settings: Settings, s: State, n: nat, ticks: seq<Tick>)
    requires Ready(settings, s) && 0 < n <= |s.open|
    requires Ready(settings, s.(open := s.open + ticks))
    ensures CloseOff(settings, s.(open := s.open + ticks), n).0 == CloseOff(settings, s, n).0
    ensures CloseOff(settings, s.(open := s.open + ticks), n).1
         == CloseOff(settings, s, n).1.(open := CloseOff(settings, s, n).1.open + ticks)
  {
    hide Commit, Ready;
    assert (s.open + ticks)[..n] == s.open[..n];
    assert (s.open + ticks)[n..] == s.open[n..] + ticks;
  }

  /** Closing what is full and then pushing more is pushing more and then closing what is full. */
  lemma {:induction false} CloseThenPush(settings: Settings, s: State, ticks: seq<Tick>)
    requires Ready(settings, s) && s.nextSequence.Some? && AllPublished(ticks)
    requires AcceptedCount(s, ticks) == |ticks|
    ensures Ready(settings, PushAll(s, ticks))
    ensures AcceptedCount(CloseFull(settings, s).1, ticks) == |ticks|
    ensures Ready(settings, PushAll(CloseFull(settings, s).1, ticks))
    ensures var (closed, after) := CloseFull(settings, s);
      var (more, final) := CloseFull(settings, PushAll(after, ticks));
      CloseFull(settings, PushAll(s, ticks)) == (closed + more, final)
    decreases |s.open|
  {
    hide CloseOff, Ready, Contiguous;
    TakenWhole(settings, s, ticks);
    if |s.open| >= settings.windowTicks {
      var n := settings.windowTicks;
      var (first, after) := CloseOff(settings, s, n);
      SameExpectationSameCount(s, after, ticks);
      CloseThenPush(settings, after, ticks);
      PushAllKeepsRest(s, ticks);
      PushAllKeepsRest(after, ticks);
      CloseOffIgnoresLater(settings, s, n, ticks);
      var (closed, rest) := CloseFull(settings, after);
      var more := CloseFull(settings, PushAll(rest, ticks)).0;
      ConcatAssociates([first], closed, more);
    } else {
      ConcatUnit(CloseFull(settings, PushAll(s, ticks)).0);
    }
  }

  lemma TakenWhole(settings: Settings, s: State, ticks: seq<Tick>)
    requires Ready(settings, s) && AllPublished(ticks) && AcceptedCount(s, ticks) == |ticks|
    ensures Ready(settings, PushAll(s, ticks)) && settings.windowTicks >= 1
    ensures PushAll(s, ticks).open == s.open + ticks
    ensures ticks != [] ==> PushAll(s, ticks).nextSequence.Some?
  {
    assert ticks[..|ticks|] == ticks;
    PushAllReady(settings, s, ticks, |ticks|);
  }

  lemma SameExpectationSameCount(s: State, t: State, ticks: seq<Tick>)
    requires ExpectedSequence(s) == ExpectedSequence(t) && AcceptedCount(s, ticks) == |ticks|
    ensures AcceptedCount(t, ticks) == |ticks|
  {
    if ticks != [] {
      AcceptedWhole(s, ticks);
      AcceptedWhole(t, ticks);
    }
  }

  /** A batch can be cut anywhere: observing it whole or in two pieces is one thing. */
  lemma ObserveConcat(settings: Settings, s: State, a: seq<Tick>, b: seq<Tick>)
    requires Ready(settings, s) && AllPublished(a) && AllPublished(b)
    requires AcceptedCount(s, a + b) == |a + b|
    ensures Observed(settings, s, a).error.None? && Ready(settings, Observed(settings, s, a).state)
    ensures var first := Observed(settings, s, a);
      var second := Observed(settings, first.state, b);
      Observed(settings, s, a + b) == Outcome(first.closed + second.closed, second.state, None)
  {
    PushAllSplits(s, a, b);
    TakenWhole(settings, s, a);
    var taken := PushAll(s, a);
    TakenWhole(settings, taken, b);
    TakenWhole(settings, s, a + b);
    ObservedWhole(settings, s, a);
    ObservedWhole(settings, s, a + b);
    hide CloseOff, Ready, Observed, Contiguous;
    if taken.nextSequence.Some? {
      CloseThenPush(settings, taken, b);
    } else {
      assert taken == s;
      NothingOpen(settings, s);
      assert CloseFull(settings, s) == ([], s);
      ConcatUnit(CloseFull(settings, PushAll(s, b)).0);
    }
    ObservedWhole(settings, Observed(settings, s, a).state, b);
  }

  lemma ObservedWhole(settings: Settings, s: State, ticks: seq<Tick>)
    requires Ready(settings, s) && AllPublished(ticks) && AcceptedCount(s, ticks) == |ticks|
    ensures Ready(settings, PushAll(s, ticks))
    ensures Observed(settings, s, ticks)
         == Outcome(CloseFull(settings, PushAll(s, ticks)).0, CloseFull(settings, PushAll(s, ticks)).1, None)
  {
    assert ticks[..|ticks|] == ticks;
    TakenWhole(settings, s, ticks);
  }

  /** A batch is refused exactly when it is not taken whole, and then closes nothing. */
  lemma ObservedRefusal(settings: Settings, s: State, ticks: seq<Tick>)
    requires Ready(settings, s) && AllPublished(ticks)
    ensures Observed(settings, s, ticks).error.Some? <==> AcceptedCount(s, ticks) < |ticks|
    ensures Observed(settings, s, ticks).error.Some? ==> Observed(settings, s, ticks).closed == []
  {
  }

  /**
  A refused batch leaves its accepted prefix open and closes nothing, so the open window can reach
  a full one. Exactly when it stays below one after `observe`:
  */
  lemma OpenBelowWindowIff(settings: Settings, s: State, ticks: seq<Tick>)
    requires Ready(settings, s) && AllPublished(ticks)
    ensures |Observed(settings, s, ticks).state.open| < settings.windowTicks <==>
      || AcceptedCount(s, ticks) == |ticks|
      || |s.open| + AcceptedCount(s, ticks) < settings.windowTicks
    ensures Observed(settings, s, ticks).error.Some? ==>
      Observed(settings, s, ticks).state.open == s.open + ticks[..AcceptedCount(s, ticks)]
  {
    var n := AcceptedCount(s, ticks);
    PushAllReady(settings, s, ticks, n);
    CloseFullExact(settings, PushAll(s, ticks[..n]));
    hide Ready, PushAll, CloseFull, AcceptedCount;
  }

  /**
  And it does reach one: a new publisher given any run longer than a window and then a tick out of
  place refuses the batch, keeps the whole run open, and a seal commits it as one window over-long.
  */
  lemma RefusedBatchOverfills(settings: Settings, ticks: seq<Tick>, stray: Tick)
    requires settings.windowTicks >= 1 && IsAssetId(settings.assetId)
    requires AllPublished(ticks + [stray]) && Contiguous(ticks) && |ticks| > settings.windowTicks
    requires stray.sequence != ticks[|ticks| - 1].sequence + 1
    ensures Ready(settings, Initial(FRESH))
    ensures var outcome := Observed(settings, Initial(FRESH), ticks + [stray]);
      && outcome.error.Some? && outcome.closed == [] && outcome.state.open == ticks
      && Ready(settings, outcome.state)
      && Sealed(settings, outcome.state).0.Some?
      && |Sealed(settings, outcome.state).0.value.ticks| > settings.windowTicks
  {
    var s, all := Initial(FRESH), ticks + [stray];
    assert Ready(settings, s);
    hide Contiguous, PushAll, AcceptedCount, CloseFull, CloseOff, Commit, Ready, AllPublished, ExpectedAfter;
    StrayRefused(s, ticks, stray);
    assert all[..|ticks|] == ticks;
    PushAllReady(settings, s, all, |ticks|);
    assert s.open + ticks == ticks;
    assert ticks[..|ticks|] == ticks;
  }

  lemma StrayRefused(s: State, ticks: seq<Tick>, stray: Tick)
    requires ExpectedSequence(s).None? && ticks != [] && Contiguous(ticks)
    requires stray.sequence != ticks[|ticks| - 1].sequence + 1
    ensures AcceptedCount(s, ticks + [stray]) == |ticks|
  {
    var all := ticks + [stray];
    AcceptedWhole(s, ticks);
    AcceptedWhole(s, all);
    assert all[|ticks|] == stray && all[|ticks| - 1] == ticks[|ticks| - 1];
    PushAllSplits(s, ticks, [stray]);
  }

  lemma NothingOpen(settings: Settings, s: State)
    requires Ready(settings, s) && s.nextSequence.None?
    ensures s.open == [] && |s.open| < settings.windowTicks
  {
  }

  // ---------------------------------------------------------------- the object

  class CommitmentPublisher {
    const settings: Settings
    var open: seq<Tick>
    var previousRoot: Hex
    var nextSequence: Option<int>
    var tipSequence: Option<int>
    var resumesAfter: Option<int>

    ghost function Now(): State
      reads this
    {
      State(open, previousRoot, nextSequence, tipSequence, resumesAfter)
    }

    ghost predicate Valid()
      reads this
    {
      Ready(settings, Now())
    }

    /** The source's constructor throws where `OptionsFault` finds something. */
    constructor (settings: Settings, options: Options)
      requires OptionsFault(settings, options).None?
      ensures this.settings == settings && Now() == Initial(options)
      ensures Valid() <==> options.resumesAfter.Some? ==>
        IsSafeInteger(options.resumesAfter.value) && options.resumesAfter.value >= 0
    {
      this.settings := settings;
      open := [];
      previousRoot := if options.previousRoot.Some? then options.previousRoot.value else Blank;
      nextSequence := options.nextSequence;
      resumesAfter := options.resumesAfter;
      tipSequence := if options.nextSequence.Some? then Some(options.nextSequence.value - 1)
                     else options.resumesAfter;
    }

    /** `observe`: take the ticks one by one, then close whatever is full. */
    method Observe(ticks: seq<Tick>) returns (closed: seq<ClosedWindow>, error: Option<PublisherError>)
      requires Valid() && AllPublished(ticks)
      modifies this
      ensures Valid()
      ensures Outcome(closed, Now(), error) == Observed(settings, old(Now()), ticks)
    {
      hide CloseOff, Ready, Contiguous, Commit, CloseFull;
      ghost var start := Now();
      var i := 0;
      while i < |ticks|
        invariant 0 <= i <= AcceptedCount(start, ticks)
        invariant Now() == PushAll(start, ticks[..i])
      {
        CutAfter(ticks, i);
        PushAllSplits(start, ticks[..i], ticks[i..]);
        error := Take(ticks[i]);
        if error.Some? {
          PushAllReady(settings, start, ticks, i);
          return [], error;
        }
        PushAllSplits(start, ticks[..i], [ticks[i]]);
        i := i + 1;
      }
      assert ticks[..i] == ticks;
      TakenWhole(settings, start, ticks);
      ObservedWhole(settings, start, ticks);
      closed := CloseFilled();
      error := None;
    }

    /** The body of the first loop: one tick refused, or pushed onto the open window. */
    method Take(tick: Tick) returns (error: Option<PublisherError>)
      modifies this
      ensures Refuses(old(Now()), tick) ==>
        && Now() == old(Now())
        && error == Some(Unexpected(ExpectedSequence(old(Now())).value, tick.sequence))
      ensures !Refuses(old(Now()), tick) ==> error.None? && Now() == Push(old(Now()), tick)
    {
      var expected := if |open| > 0 then Some(open[|open| - 1].sequence + 1) else nextSequence;
      if expected.Some? && tick.sequence != expected.value {
        return Some(Unexpected(expected.value, tick.sequence));
      }
      if resumesAfter.Some? && nextSequence.None? {
        if tick.sequence <= resumesAfter.value {
          previousRoot := Blank;
          resumesAfter := None;
          tipSequence := None;
        } else if tick.sequence == resumesAfter.value + 1 {
          resumesAfter := None;
        }
      }
      open := open + [tick];
      if nextSequence.None? {
        nextSequence := Some(tick.sequence);
      }
      return None;
    }

    /** The second loop: every full window is spliced off the open ticks and closed. */
    method CloseFilled() returns (closed: seq<ClosedWindow>)
      requires Valid()
      modifies this
      ensures Valid()
      ensures (closed, Now()) == CloseFull(settings, old(Now()))
    {
      hide Ready, Contiguous, Commit;
      closed := [];
      ConcatUnit(CloseFull(settings, Now()).0);
      assert settings.windowTicks >= 1 by {
        TakenWhole(settings, Now(), []);
      }
      while |open| >= settings.windowTicks
        invariant Valid()
        invariant CloseFull(settings, old(Now()))
               == (closed + CloseFull(settings, Now()).0, CloseFull(settings, Now()).1)
        decreases |open|
      {
        ghost var rest := CloseFull(settings, CloseOff(settings, Now(), settings.windowTicks).1).0;
        var window := open[..settings.windowTicks];
        CommitSucceeds(settings, Now(), settings.windowTicks);
        open := open[settings.windowTicks..];
        var next := Close(window);
        ConcatAssociates(closed, [next], rest);
        closed := closed + [next];
      }
      ConcatUnit(closed);
    }

    /** `sealChain`: the open ticks as one window, or None. */
    method SealChain() returns (sealed: Option<ClosedWindow>)
      requires Valid()
      modifies this
      ensures Valid() && (sealed, Now()) == Sealed(settings, old(Now()))
    {
      if |open| == 0 {
        return None;
      }
      CommitSucceeds(settings, Now(), |open|);
      assert open[..|open|] == open;
      var window := open;
      open := [];
      var closed := Close(window);
      sealed := Some(closed);
    }

    /** `#close`: the window's link, and the fields that follow from it. */
    method Close(window: seq<Tick>) returns (closed: ClosedWindow)
      requires CloseWindow(settings, Now(), window).Ok?
      modifies this
      ensures (closed, Now()) == CloseWindow(settings, old(Now()), window).value
    {
      var link := Commit(settings.assetId, window, previousRoot, resumesAfter).value;
      previousRoot := link.root;
      nextSequence := Some(link.toSequence + 1);
      tipSequence := Some(link.toSequence);
      resumesAfter := None;
      closed := ClosedWindow(SignCommitment(link, settings.key), window);
    }
  }
}
