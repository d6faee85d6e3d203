/**
The fan-out of one asset's ticks to its subscribers (packages/distribution/src/feed.ts) as a state
machine: what every interleaving of its operations keeps, and exactly which one step breaks it.
*/
module Feeds {
  import opened Prelude
  import opened TickWindows

  const FIRST_SEQUENCE: int := 1

  datatype FeedSeam = FeedSeam(publishedThrough: int, resumesAt: int)

  /**
  One subscription, live or ended. A sink is its answers: whether it accepts its n-th delivery.
  `delivered` is everything it accepted, and `run` which of the feed's runs it subscribed in:
  `forget` ends a run.
  */
  datatype Subscriber = Subscriber(
    from: Option<int>,
    run: nat,
    answers: nat -> bool,
    calls: nat,
    delivered: seq<Tick>,
    deliveredThrough: Option<int>,
    active: bool)

  /** The feed's state for one asset, with every tick of every run and every subscription it ever issued. */
  datatype Channel = Channel(
    history: seq<Tick>,
    seam: Option<FeedSeam>,
    runs: seq<seq<Tick>>,
    subscribers: seq<Subscriber>)

  datatype FeedError =
    | OutOfOrder
    | UnknownSequence(newest: int)
    | Evicted(oldest: int)
    | BadSeam

  const SILENT := Channel([], None, [[]], [])

  // ---------------------------------------------------------------- the steps

  function Accepted(s: Subscriber, ticks: seq<Tick>): Subscriber
    requires ticks != []
  {
    s.(calls := s.calls + 1, delivered := s.delivered + ticks, deliveredThrough := Some(ticks[|ticks| - 1].sequence))
  }

  /** A push to one subscription: accepted, or the end of it. */
  function Offer(s: Subscriber, ticks: seq<Tick>): Subscriber
    requires ticks != []
  {
    if !s.active then s
    else if s.answers(s.calls) then Accepted(s, ticks)
    else s.(calls := s.calls + 1, active := false)
  }

  function OfferAll(subscribers: seq<Subscriber>, ticks: seq<Tick>): (offered: seq<Subscriber>)
    requires ticks != []
    ensures |offered| == |subscribers|
  {
    seq(|subscribers|, i requires 0 <= i < |subscribers| => Offer(subscribers[i], ticks))
  }

  function Run(c: Channel): seq<Tick>
    requires c.runs != []
  {
    c.runs[|c.runs| - 1]
  }

  function Published(retain: nat, c: Channel, ticks: seq<Tick>): Channel
    requires c.runs != []
  {
    if ticks == [] || !Continues(c.history, ticks) then c
    else Channel(Newest(c.history + ticks, retain), None, c.runs[|c.runs| - 1 := Run(c) + ticks],
                 OfferAll(c.subscribers, ticks))
  }

  /** `since`: the retained ticks from a sequence on, or why they cannot be had. */
  function Since(c: Channel, from: int): Result<seq<Tick>, FeedError> {
    if !IsSafeInteger(from) || from < 0 then Err(UnknownSequence(FIRST_SEQUENCE - 1))
    else if c.history == [] then
      match c.seam
      case Some(seam) =>
        if from < seam.resumesAt then Err(Evicted(seam.resumesAt))
        else if from > seam.resumesAt then Err(UnknownSequence(seam.publishedThrough))
        else Ok([])
      case None =>
        if from != FIRST_SEQUENCE then Err(UnknownSequence(FIRST_SEQUENCE - 1)) else Ok([])
    else
      var oldest, newest := c.history[0].sequence, c.history[|c.history| - 1].sequence;
      if from < oldest then Err(Evicted(oldest))
      else if from > newest + 1 then Err(UnknownSequence(newest))
      else if from - oldest <= |c.history| then Ok(c.history[from - oldest..])
      else Ok([])
  }

  function Fresh(c: Channel, from: Option<int>, answers: nat -> bool): Subscriber
    requires c.runs != []
  {
    Subscriber(from, |c.runs| - 1, answers, 0, [], None, true)
  }

  /** A subscription with its backlog replayed, where one was asked for. */
  function Admit(c: Channel, from: Option<int>, answers: nat -> bool): Result<Subscriber, FeedError>
    requires c.runs != []
  {
    if from.None? then Ok(Fresh(c, from, answers))
    else
      match Since(c, from.value)
      case Err(error) => Err(error)
      case Ok(backlog) =>
        if backlog == [] then Ok(Fresh(c, from, answers)) else Ok(Offer(Fresh(c, from, answers), backlog))
  }

  function Subscribed(c: Channel, from: Option<int>, answers: nat -> bool): Channel
    requires c.runs != []
  {
    match Admit(c, from, answers)
    case Err(_) => c
    case Ok(s) => c.(subscribers := c.subscribers + [s])
  }

  function Cancelled(c: Channel, i: nat): Channel {
    if i < |c.subscribers| then c.(subscribers := c.subscribers[i := c.subscribers[i].(active := false)]) else c
  }

  predicate SeamDescribesAWindow(seam: FeedSeam) {
    && IsSafeInteger(seam.resumesAt) && seam.resumesAt >= FIRST_SEQUENCE
    && IsSafeInteger(seam.publishedThrough) && seam.publishedThrough < seam.resumesAt
  }

  function Seamed(c: Channel, seam: FeedSeam): Channel {
    if SeamDescribesAWindow(seam) then c.(seam := Some(seam)) else c
  }

  function EndAll(subscribers: seq<Subscriber>): (ended: seq<Subscriber>)
    ensures |ended| == |subscribers|
  {
    seq(|subscribers|, i requires 0 <= i < |subscribers| => subscribers[i].(active := false))
  }

  function Forgotten(c: Channel): Channel {
    Channel([], None, c.runs + [[]], EndAll(c.subscribers))
  }

  datatype Event =
    | Publish(ticks: seq<Tick>)
    | Subscribe(from: Option<int>, answers: nat -> bool)
    | Cancel(at: nat)
    | Seam(seam: FeedSeam)
    | Forget

  function Step(retain: nat, c: Channel, event: Event): (after: Channel)
    requires c.runs != []
    ensures after.runs != []
  {
    match event
    case Publish(ticks) => Published(retain, c, ticks)
    case Subscribe(from, answers) => Subscribed(c, from, answers)
    case Cancel(at) => Cancelled(c, at)
    case Seam(seam) => Seamed(c, seam)
    case Forget => Forgotten(c)
  }

  // ---------------------------------------------------------------- what every step keeps

  /** What was delivered is a stretch of the run without a hole, a repeat or a skip, from where it was asked for. */
  ghost predicate InStep(s: Subscriber, run: seq<Tick>) {
    if s.delivered == [] then s.deliveredThrough.None?
    else
      && run != []
      && (s.from.Some? ==> s.delivered[0].sequence == s.from.value)
      && s.deliveredThrough == Some(s.delivered[|s.delivered| - 1].sequence)
      && Stretch(s.delivered, run)
  }

  /** A stretch of a run, placed by its first sequence. */
  predicate Stretch(part: seq<Tick>, run: seq<Tick>)
    requires part != [] && run != []
  {
    var a := part[0].sequence - run[0].sequence;
    0 <= a && a + |part| <= |run| && part == run[a..a + |part|]
  }

  /** The sequence the run's next tick will have: after the newest, or where the feed opens. */
  function NextSequence(c: Channel): int
    requires c.runs != []
  {
    if Run(c) != [] then Run(c)[|Run(c)| - 1].sequence + 1
    else if c.seam.Some? then c.seam.value.resumesAt
    else FIRST_SEQUENCE
  }

  /** A live subscription's place in a run: at its newest tick, or waiting for the sequence it asked for. */
  ghost predicate Placed(s: Subscriber, run: seq<Tick>, next: int) {
    if s.delivered == [] then s.from.Some? ==> s.from.value == next
    else run != [] && s.deliveredThrough == Some(run[|run| - 1].sequence)
  }

  /**
  A live subscription with deliveries stands at the newest tick; one without waits for the very
  next. Before a run's first tick a subscription may wait for anything: a seam can be declared, or
  declared again, after it came.
  */
  ghost predicate AtNewest(s: Subscriber, c: Channel)
    requires c.runs != []
  {
    Run(c) != [] ==> Placed(s, Run(c), NextSequence(c))
  }

  ghost predicate SubscriberSound(s: Subscriber, c: Channel)
    requires c.runs != []
  {
    s.run < |c.runs| && InStep(s, c.runs[s.run]) && (s.active ==> s.run == |c.runs| - 1 && AtNewest(s, c))
  }

  ghost predicate RunsContiguous(runs: seq<seq<Tick>>) {
    forall r :: 0 <= r < |runs| ==> Contiguous(runs[r])
  }

  ghost predicate ChannelSound(retain: nat, c: Channel) {
    && retain >= 1 && c.runs != []
    && RunsContiguous(c.runs) && c.history == Newest(Run(c), retain)
    && forall i :: 0 <= i < |c.subscribers| ==> SubscriberSound(c.subscribers[i], c)
  }

  predicate WaitsElsewhere(s: Subscriber, sequence: int) {
    s.active && s.delivered == [] && s.from.Some? && s.from.value != sequence
  }

  predicate MisledAt(c: Channel, ticks: seq<Tick>, i: nat)
    requires i < |c.subscribers| && ticks != []
  {
    WaitsElsewhere(c.subscribers[i], ticks[0].sequence) && c.subscribers[i].answers(c.subscribers[i].calls)
  }

  /** Someone who waits for another sequence accepts this delivery: a hole or a repeat, undetected. */
  ghost predicate Misled(c: Channel, ticks: seq<Tick>) {
    ticks != [] && exists i :: 0 <= i < |c.subscribers| && MisledAt(c, ticks, i)
  }

  /**
  The one step that leaves an observer with a hole or a repeat: a run's first batch, taken because
  the feed compares it with nothing, and accepted by someone who asked for another sequence.
  */
  ghost predicate Misleads(c: Channel, event: Event)
    requires c.runs != []
  {
    event.Publish? && Run(c) == [] && Contiguous(event.ticks) && Misled(c, event.ticks)
  }

  lemma HistoryContinues(retain: nat, run: seq<Tick>, ticks: seq<Tick>)
    requires retain >= 1 && Contiguous(run)
    ensures Continues(Newest(run, retain), ticks) <==> Continues(run, ticks)
  {
    NewestContiguous(run, retain);
  }

  /** A stretch found at a place is at the place its first sequence says. */
  lemma StretchAt(part: seq<Tick>, run: seq<Tick>, a: nat)
    requires part != [] && a + |part| <= |run| && part == run[a..a + |part|] && Contiguous(run)
    ensures Stretch(part, run)
  {
    assert part[0] == run[a];
  }

  lemma StretchEnd(part: seq<Tick>, run: seq<Tick>)
    requires part != [] && run != [] && Contiguous(run) && Stretch(part, run)
    requires part[|part| - 1].sequence == run[|run| - 1].sequence
    ensures |part| <= |run| && part == run[|run| - |part|..]
  {
    var a := part[0].sequence - run[0].sequence;
    assert part[|part| - 1] == run[a + |part| - 1];
  }

  lemma StretchKept(part: seq<Tick>, run: seq<Tick>, ticks: seq<Tick>)
    requires part != [] && run != [] && Stretch(part, run)
    ensures Stretch(part, run + ticks)
  {
    var a := part[0].sequence - run[0].sequence;
    assert (run + ticks)[a..a + |part|] == run[a..a + |part|];
  }

  /** The end of a run, grown with the run. */
  lemma TailGrows(part: seq<Tick>, run: seq<Tick>, ticks: seq<Tick>)
    requires |part| <= |run| && part == run[|run| - |part|..] && Contiguous(run + ticks) && part + ticks != []
    ensures Stretch(part + ticks, run + ticks)
  {
    var all, longer := run + ticks, part + ticks;
    assert all[|all| - |longer|..] == longer;
    hide Contiguous, Stretch;
    StretchAt(longer, all, |all| - |longer|);
  }

  /** What is in step stays in step while its run grows. */
  lemma StaysInStep(s: Subscriber, t: Subscriber, run: seq<Tick>, ticks: seq<Tick>)
    requires InStep(s, run)
    requires t.delivered == s.delivered && t.deliveredThrough == s.deliveredThrough && t.from == s.from
    ensures InStep(t, run + ticks)
  {
    hide Stretch;
    if s.delivered != [] {
      StretchKept(s.delivered, run, ticks);
    }
  }

  /** What a live subscription was delivered is the end of its run, or nothing. */
  lemma DeliveredEnds(s: Subscriber, run: seq<Tick>, next: int)
    requires Contiguous(run) && InStep(s, run) && Placed(s, run, next)
    ensures |s.delivered| <= |run| && s.delivered == run[|run| - |s.delivered|..]
  {
    if s.delivered == [] {
      NothingAfterEnd(run);
    } else {
      hide Contiguous, Stretch;
      StretchEnd(s.delivered, run);
    }
  }

  lemma AcceptedShape(s: Subscriber, run: seq<Tick>, ticks: seq<Tick>)
    requires ticks != [] && InStep(s, run) && Placed(s, run, ticks[0].sequence)
    requires s.delivered + ticks != [] && run + ticks != [] && Stretch(s.delivered + ticks, run + ticks)
    ensures InStep(Accepted(s, ticks), run + ticks)
  {
    hide Stretch;
    Ends(s.delivered, ticks);
  }

  /** Ticks that continue the run, after everything delivered, are delivered in step. */
  lemma AcceptedInStep(s: Subscriber, run: seq<Tick>, ticks: seq<Tick>)
    requires Contiguous(run) && Continues(run, ticks) && ticks != []
    requires InStep(s, run) && Placed(s, run, ticks[0].sequence)
    ensures InStep(Accepted(s, ticks), run + ticks)
  {
    hide Contiguous, Stretch, Continues, InStep, Placed, Accepted;
    ContinuesIsContiguous(run, ticks);
    DeliveredEnds(s, run, ticks[0].sequence);
    TailGrows(s.delivered, run, ticks);
    AcceptedShape(s, run, ticks);
  }

  lemma Ends<T>(a: seq<T>, b: seq<T>)
    requires b != []
    ensures a + b != [] && (a + b)[|a + b| - 1] == b[|b| - 1]
    ensures (a + b)[0] == if a == [] then b[0] else a[0]
  {
  }

  lemma NothingAfterEnd<T>(s: seq<T>)
    ensures s[|s|..] == []
  {
  }

  /** One push keeps a subscription in step, if it waited for nothing else than what comes. */
  lemma OfferInStep(s: Subscriber, run: seq<Tick>, ticks: seq<Tick>)
    requires Contiguous(run) && Continues(run, ticks) && ticks != []
    requires s.active && InStep(s, run) && Placed(s, run, ticks[0].sequence)
    ensures InStep(Offer(s, ticks), run + ticks)
    ensures Offer(s, ticks).active ==> Offer(s, ticks) == Accepted(s, ticks)
  {
    hide InStep, Continues, Contiguous, Accepted, Placed;
    if s.answers(s.calls) {
      AcceptedInStep(s, run, ticks);
    } else {
      StaysInStep(s, Offer(s, ticks), run, ticks);
    }
  }

  lemma PublishKeeps(retain: nat, c: Channel, ticks: seq<Tick>)
    requires ChannelSound(retain, c) && !Misleads(c, Publish(ticks))
    ensures ChannelSound(retain, Published(retain, c, ticks))
  {
    if ticks != [] && Continues(c.history, ticks) {
      var after := Published(retain, c, ticks);
      HistoryContinues(retain, Run(c), ticks);
      ContinuesIsContiguous(Run(c), ticks);
      NewestGrows(Run(c), ticks, retain);
      assert Run(after) == Run(c) + ticks;
      forall i | 0 <= i < |after.subscribers|
        ensures SubscriberSound(after.subscribers[i], after)
      {
        assert Run(c) == [] ==> !MisledAt(c, ticks, i);
        OfferedSound(retain, c, ticks, c.subscribers[i]);
      }
    }
  }

  /** A subscription after a publication, whether it was live or not. */
  lemma OfferedSound(retain: nat, c: Channel, ticks: seq<Tick>, s: Subscriber)
    requires c.runs != [] && Contiguous(Run(c)) && c.history == Newest(Run(c), retain) && retain >= 1
    requires ticks != [] && Continues(c.history, ticks) && Continues(Run(c), ticks)
    requires SubscriberSound(s, c)
    requires Run(c) == [] ==> !(WaitsElsewhere(s, ticks[0].sequence) && s.answers(s.calls))
    ensures SubscriberSound(Offer(s, ticks), Published(retain, c, ticks))
  {
    hide Contiguous, Newest, Stretch;
    var after := Published(retain, c, ticks);
    assert Run(after) == Run(c) + ticks;
    if s.active && (Run(c) == [] ==> !WaitsElsewhere(s, ticks[0].sequence)) {
      assert Placed(s, Run(c), ticks[0].sequence);
      hide InStep, Continues;
      OfferInStep(s, Run(c), ticks);
      assert Run(after)[|Run(after)| - 1] == ticks[|ticks| - 1];
    } else if s.run == |c.runs| - 1 {
      StaysInStep(s, Offer(s, ticks), Run(c), ticks);
    }
  }

  lemma HistoryIsTail(retain: nat, c: Channel)
    requires ChannelSound(retain, c)
    ensures c.runs != []
    ensures |c.history| <= |Run(c)| && c.history == Run(c)[|Run(c)| - |c.history|..]
    ensures c.history == [] <==> Run(c) == []
    ensures c.history != [] ==>
      && c.history[|c.history| - 1] == Run(c)[|Run(c)| - 1]
      && c.history[|c.history| - 1].sequence == c.history[0].sequence + |c.history| - 1
      && forall d :: 0 <= d < |c.history| ==> c.history[d].sequence == c.history[0].sequence + d
  {
    NewestContiguous(Run(c), retain);
  }

  /** What a backlog replays is the end of the run, from the sequence asked for. */
  lemma BacklogIsTail(retain: nat, c: Channel, from: int)
    requires ChannelSound(retain, c) && Since(c, from).Ok?
    ensures var backlog := Since(c, from).value;
      && |backlog| <= |Run(c)| && backlog == Run(c)[|Run(c)| - |backlog|..]
      && from + |backlog| == NextSequence(c)
      && (backlog != [] ==> backlog[0].sequence == from)
  {
    hide ChannelSound;
    HistoryIsTail(retain, c);
    NothingAfterEnd(Run(c));
    if c.history != [] {
      TailFrom(Run(c), |c.history|, from);
    }
  }

  lemma TailFrom(run: seq<Tick>, n: nat, from: int)
    requires 0 < n <= |run|
    requires var history := run[|run| - n..];
      && (forall d :: 0 <= d < n ==> history[d].sequence == history[0].sequence + d)
      && 0 <= from - history[0].sequence <= n
    ensures var history := run[|run| - n..];
      var backlog := history[from - history[0].sequence..];
      && backlog == run[|run| - |backlog|..]
      && from + |backlog| == run[|run| - 1].sequence + 1
      && (backlog != [] ==> backlog[0].sequence == from)
  {
    var history := run[|run| - n..];
    var d := from - history[0].sequence;
    DropDrop(run, |run| - n, d);
    assert history[n - 1] == run[|run| - 1];
    if d < n {
      assert history[d..][0] == history[d];
    }
  }

  lemma SubscribeKeeps(retain: nat, c: Channel, from: Option<int>, answers: nat -> bool)
    requires ChannelSound(retain, c)
    ensures ChannelSound(retain, Subscribed(c, from, answers))
  {
    var admitted := Admit(c, from, answers);
    if admitted.Ok? {
      var after := Subscribed(c, from, answers);
      assert Run(after) == Run(c);
      AdmittedSound(retain, c, from, answers);
      forall i | 0 <= i < |after.subscribers|
        ensures SubscriberSound(after.subscribers[i], after)
      {
        if i < |c.subscribers| {
          assert after.subscribers[i] == c.subscribers[i];
          assert SubscriberSound(c.subscribers[i], c);
        }
      }
    }
  }

  lemma AdmittedSound(retain: nat, c: Channel, from: Option<int>, answers: nat -> bool)
    requires ChannelSound(retain, c) && Admit(c, from, answers).Ok?
    ensures SubscriberSound(Admit(c, from, answers).value, c)
  {
    hide ChannelSound, Since, SubscriberSound;
    FreshSound(c, from, answers);
    if from.Some? {
      BacklogIsTail(retain, c, from.value);
      var backlog := Since(c, from.value).value;
      if backlog != [] {
        TailIsStretch(retain, c, backlog);
        BacklogSound(c, from, answers, backlog);
      }
    }
  }

  lemma FreshSound(c: Channel, from: Option<int>, answers: nat -> bool)
    requires c.runs != []
    ensures SubscriberSound(Fresh(c, from, answers), c) <==>
      (Run(c) != [] && from.Some? ==> from.value == NextSequence(c))
  {
  }

  lemma BacklogSound(c: Channel, from: Option<int>, answers: nat -> bool, backlog: seq<Tick>)
    requires c.runs != [] && Run(c) != [] && backlog != [] && Stretch(backlog, Run(c))
    requires from == Some(backlog[0].sequence) && backlog[|backlog| - 1] == Run(c)[|Run(c)| - 1]
    ensures SubscriberSound(Offer(Fresh(c, from, answers), backlog), c)
  {
    hide Stretch;
    ConcatUnit(backlog);
  }

  lemma TailIsStretch(retain: nat, c: Channel, tail: seq<Tick>)
    requires ChannelSound(retain, c) && tail != []
    requires |tail| <= |Run(c)| && tail == Run(c)[|Run(c)| - |tail|..]
    ensures Stretch(tail, Run(c)) && tail[|tail| - 1] == Run(c)[|Run(c)| - 1]
  {
    StretchAt(tail, Run(c), |Run(c)| - |tail|);
  }

  /** An ended subscription stays sound while its run is kept, and so does one that is not touched. */
  lemma EndedSound(s: Subscriber, t: Subscriber, c: Channel, after: Channel)
    requires c.runs != [] && SubscriberSound(s, c) && (t == s || t == s.(active := false))
    requires after.runs == c.runs
    ensures SubscriberSound(t, after)
  {
    hide Stretch;
  }

  lemma CancelKeeps(retain: nat, c: Channel, at: nat)
    requires ChannelSound(retain, c)
    ensures ChannelSound(retain, Cancelled(c, at))
  {
    var after := Cancelled(c, at);
    forall i | 0 <= i < |after.subscribers|
      ensures SubscriberSound(after.subscribers[i], after)
    {
      EndedSound(c.subscribers[i], after.subscribers[i], c, after);
    }
  }

  lemma SeamKeeps(retain: nat, c: Channel, seam: FeedSeam)
    requires ChannelSound(retain, c)
    ensures ChannelSound(retain, Seamed(c, seam))
  {
    var after := Seamed(c, seam);
    forall i | 0 <= i < |after.subscribers|
      ensures SubscriberSound(after.subscribers[i], after)
    {
      EndedSound(c.subscribers[i], after.subscribers[i], c, after);
    }
  }

  lemma ForgetKeeps(retain: nat, c: Channel)
    requires ChannelSound(retain, c)
    ensures ChannelSound(retain, Forgotten(c))
  {
    var after := Forgotten(c);
    forall i | 0 <= i < |after.subscribers|
      ensures SubscriberSound(after.subscribers[i], after)
    {
      assert SubscriberSound(c.subscribers[i], c);
    }
  }

  /** One step keeps every observer in step, unless it is the one that misleads. */
  lemma StepKeepsIff(retain: nat, c: Channel, event: Event)
    requires c.runs != [] && ChannelSound(retain, c)
    ensures ChannelSound(retain, Step(retain, c, event)) <==> !Misleads(c, event)
    ensures Misleads(c, event) ==> Wronged(Step(retain, c, event))
  {
    hide ChannelSound, Misleads, Wronged, Published, Subscribed, Cancelled, Seamed, Forgotten;
    match event
    case Publish(ticks) =>
      if Misleads(c, event) {
        MisleadingWrongs(retain, c, ticks);
        WrongedIsUnsound(retain, Step(retain, c, event));
      } else {
        PublishKeeps(retain, c, ticks);
      }
    case Subscribe(from, answers) =>
      OnlyPublishing(c, event);
      SubscribeKeeps(retain, c, from, answers);
    case Cancel(at) =>
      OnlyPublishing(c, event);
      CancelKeeps(retain, c, at);
    case Seam(seam) =>
      OnlyPublishing(c, event);
      SeamKeeps(retain, c, seam);
    case Forget =>
      OnlyPublishing(c, event);
      ForgetKeeps(retain, c);
  }

  lemma OnlyPublishing(c: Channel, event: Event)
    requires c.runs != [] && !event.Publish?
    ensures !Misleads(c, event)
  {
  }

  /** Someone was delivered, first of all, a tick that is not the one asked for. */
  ghost predicate Wronged(c: Channel) {
    exists i :: 0 <= i < |c.subscribers| && WrongedAt(c, i)
  }

  predicate WrongedAt(c: Channel, i: nat)
    requires i < |c.subscribers|
  {
    var s := c.subscribers[i];
    s.delivered != [] && s.from.Some? && s.delivered[0].sequence != s.from.value
  }

  lemma MisleadingWrongs(retain: nat, c: Channel, ticks: seq<Tick>)
    requires ChannelSound(retain, c) && Misleads(c, Publish(ticks))
    ensures Wronged(Published(retain, c, ticks))
  {
    var i :| 0 <= i < |c.subscribers| && MisledAt(c, ticks, i);
    var s, after := c.subscribers[i], Published(retain, c, ticks);
    HistoryContinues(retain, Run(c), ticks);
    assert after.subscribers[i] == Accepted(s, ticks);
    Ends(s.delivered, ticks);
    assert WrongedAt(after, i);
  }

  lemma WrongedIsUnsound(retain: nat, c: Channel)
    requires Wronged(c) && c.runs != []
    ensures !ChannelSound(retain, c) && !AllInStep(c)
  {
    var i :| 0 <= i < |c.subscribers| && WrongedAt(c, i);
    assert forall run :: !InStep(c.subscribers[i], run);
  }

  /** What was delivered is never taken back: a wronged observer stays wronged. */
  lemma WrongedForever(retain: nat, c: Channel, event: Event)
    requires Wronged(c) && c.runs != []
    ensures Wronged(Step(retain, c, event))
  {
    var i :| 0 <= i < |c.subscribers| && WrongedAt(c, i);
    var after := Step(retain, c, event);
    assert after.subscribers[i].from == c.subscribers[i].from && c.subscribers[i].delivered <= after.subscribers[i].delivered;
    assert WrongedAt(after, i);
  }

  /** Every subscription ever issued holds a hole-free stretch of its run from where it asked. */
  ghost predicate AllInStep(c: Channel) {
    forall i :: 0 <= i < |c.subscribers| ==>
      c.subscribers[i].run < |c.runs| && InStep(c.subscribers[i], c.runs[c.subscribers[i].run])
  }

  function After(retain: nat, c: Channel, events: seq<Event>): (final: Channel)
    requires c.runs != []
    ensures final.runs != []
    decreases |events|
  {
    if events == [] then c
    else After(retain, Step(retain, c, events[0]), events[1..])
  }

  ghost predicate NeverMisleads(retain: nat, c: Channel, events: seq<Event>)
    requires c.runs != []
    decreases |events|
  {
    events != [] ==>
      !Misleads(c, events[0]) && NeverMisleads(retain, Step(retain, c, events[0]), events[1..])
  }

  lemma {:induction false} WrongedAfter(retain: nat, c: Channel, events: seq<Event>)
    requires Wronged(c) && c.runs != []
    ensures Wronged(After(retain, c, events))
    decreases |events|
  {
    if events != [] {
      hide Wronged, Step;
      WrongedForever(retain, c, events[0]);
      WrongedAfter(retain, Step(retain, c, events[0]), events[1..]);
    }
  }

  /**
  Whatever the interleaving of publications, subscriptions, cancellations, refusing sinks, seams
  and retirements: no observer ever gets a hole, a repeat or a skip, exactly when no run's first
  batch was accepted by someone waiting for another sequence.
  */
  lemma {:induction false} EveryObserverInStep(retain: nat, c: Channel, events: seq<Event>)
    requires c.runs != [] && ChannelSound(retain, c)
    ensures AllInStep(After(retain, c, events)) <==> NeverMisleads(retain, c, events)
    ensures ChannelSound(retain, After(retain, c, events)) <==> NeverMisleads(retain, c, events)
    decreases |events|
  {
    hide Misleads, Step, Wronged;
    hide ChannelSound, AllInStep;
    if events == [] {
      SoundIsInStep(retain, c);
    } else {
      var next := Step(retain, c, events[0]);
      StepKeepsIff(retain, c, events[0]);
      if Misleads(c, events[0]) {
        WrongedAfter(retain, next, events[1..]);
        WrongedIsUnsound(retain, After(retain, c, events));
      } else {
        EveryObserverInStep(retain, next, events[1..]);
      }
    }
  }

  lemma SoundIsInStep(retain: nat, c: Channel)
    requires ChannelSound(retain, c)
    ensures AllInStep(c)
  {
    forall i | 0 <= i < |c.subscribers|
      ensures c.subscribers[i].run < |c.runs| && InStep(c.subscribers[i], c.runs[c.subscribers[i].run])
    {
      assert SubscriberSound(c.subscribers[i], c);
    }
  }

  lemma SilentIsSound(retain: nat)
    requires retain >= 1
    ensures ChannelSound(retain, SILENT)
  {
  }

  // ---------------------------------------------------------------- what a caller can keep to

  /**
  A rule that is enough: open a run at the first sequence or the declared resume point, and
  declare a seam before anyone waits for another sequence.
  */
  ghost predicate Orderly(c: Channel, event: Event)
    requires c.runs != []
  {
    match event
    case Publish(ticks) => ticks != [] && Run(c) == [] ==> ticks[0].sequence == NextSequence(c)
    case Seam(seam) => Run(c) == [] ==> NobodyElsewhere(c, seam.resumesAt)
    case _ => true
  }

  ghost predicate NobodyElsewhere(c: Channel, sequence: int) {
    forall i :: 0 <= i < |c.subscribers| ==> !WaitsElsewhere(c.subscribers[i], sequence)
  }

  /** Before a run's first tick, whoever waits for a sequence waits for the next one. */
  ghost predicate Aligned(c: Channel)
    requires c.runs != []
  {
    Run(c) == [] ==> NobodyElsewhere(c, NextSequence(c))
  }

  ghost predicate AllOrderly(retain: nat, c: Channel, events: seq<Event>)
    requires c.runs != []
    decreases |events|
  {
    events != [] ==>
      Orderly(c, events[0]) && AllOrderly(retain, Step(retain, c, events[0]), events[1..])
  }

  /** A caller that keeps to the rule misleads nobody, and leaves the feed where the rule still is enough. */
  lemma OrderlyStep(retain: nat, c: Channel, event: Event)
    requires ChannelSound(retain, c) && Aligned(c) && Orderly(c, event)
    ensures !Misleads(c, event) && Aligned(Step(retain, c, event))
  {
    hide Newest, Contiguous, RunsContiguous, InStep;
    match event
    case Publish(ticks) =>
      assert forall i :: 0 <= i < |c.subscribers| && ticks != [] && Run(c) == [] ==> !MisledAt(c, ticks, i);
    case Subscribe(from, answers) => SubscribeAligned(retain, c, from, answers);
    case Cancel(at) =>
    case Seam(seam) =>
    case Forget =>
  }

  lemma SubscribeAligned(retain: nat, c: Channel, from: Option<int>, answers: nat -> bool)
    requires ChannelSound(retain, c) && Aligned(c)
    ensures Aligned(Subscribed(c, from, answers))
  {
    if Run(c) == [] && from.Some? && Since(c, from.value).Ok? {
      BacklogIsTail(retain, c, from.value);
    }
  }

  lemma {:induction false} OrderlyNeverMisleads(retain: nat, c: Channel, events: seq<Event>)
    requires ChannelSound(retain, c) && Aligned(c) && AllOrderly(retain, c, events)
    ensures NeverMisleads(retain, c, events)
    decreases |events|
  {
    if events != [] {
      hide ChannelSound, Aligned, Orderly, Misleads, Step;
      OrderlyStep(retain, c, events[0]);
      StepKeepsIff(retain, c, events[0]);
      OrderlyNeverMisleads(retain, Step(retain, c, events[0]), events[1..]);
    }
  }

  // ---------------------------------------------------------------- the unchecked first tick

  /** Exactly when opening a run away from where the feed said keeps every observer in step. */
  lemma FirstPublishIff(retain: nat, c: Channel, ticks: seq<Tick>)
    requires ChannelSound(retain, c) && Run(c) == [] && ticks != [] && Contiguous(ticks)
    ensures ChannelSound(retain, Published(retain, c, ticks)) <==> !Misled(c, ticks)
  {
    var after := Published(retain, c, ticks);
    HistoryContinues(retain, Run(c), ticks);
    NewestGrows(Run(c), ticks, retain);
    assert [] + ticks == ticks;
    assert Run(after) == ticks;
    forall i | 0 <= i < |c.subscribers|
      ensures SubscriberSound(after.subscribers[i], after) <==> !MisledAt(c, ticks, i)
    {
      FirstOfferIff(retain, c, ticks, i);
    }
  }

  lemma FirstOfferIff(retain: nat, c: Channel, ticks: seq<Tick>, i: nat)
    requires ChannelSound(retain, c) && Run(c) == [] && ticks != [] && Contiguous(ticks) && i < |c.subscribers|
    ensures SubscriberSound(Offer(c.subscribers[i], ticks), Published(retain, c, ticks)) <==> !MisledAt(c, ticks, i)
  {
    var s, after := c.subscribers[i], Published(retain, c, ticks);
    assert SubscriberSound(s, c);
    ConcatUnit(ticks);
    HistoryIsTail(retain, c);
    assert Run(after) == ticks && |after.runs| == |c.runs|;
    hide ChannelSound, Newest, Contiguous, Published;
    if s.active {
      assert s.delivered == [];
      FirstOffer(s, ticks);
      hide Stretch, InStep;
    } else {
      assert s.run < |c.runs| - 1 ==> after.runs[s.run] == c.runs[s.run];
    }
  }

  lemma FirstOffer(s: Subscriber, ticks: seq<Tick>)
    requires ticks != [] && Contiguous(ticks)
    requires s.active && s.delivered == [] && s.deliveredThrough.None?
    ensures InStep(Offer(s, ticks), ticks) <==>
      !(WaitsElsewhere(s, ticks[0].sequence) && s.answers(s.calls))
  {
    StretchAt(ticks, ticks, 0);
    ConcatUnit(ticks);
    hide Stretch, Contiguous;
  }

  /** After the first tick nothing is left to the caller: any batch keeps every observer in step. */
  lemma LaterPublishKeeps(retain: nat, c: Channel, ticks: seq<Tick>)
    requires ChannelSound(retain, c) && Run(c) != []
    ensures ChannelSound(retain, Published(retain, c, ticks))
    ensures Published(retain, c, ticks) == c || Run(Published(retain, c, ticks)) == Run(c) + ticks
  {
    PublishKeeps(retain, c, ticks);
  }

  /** A batch that is not taken changes no field of the channel. */
  lemma RefusedChangesNothing(retain: nat, c: Channel, ticks: seq<Tick>)
    requires ChannelSound(retain, c)
    requires !Contiguous(ticks) || (Run(c) != [] && ticks != [] && ticks[0].sequence != NextSequence(c))
    ensures Published(retain, c, ticks) == c
  {
    HistoryContinues(retain, Run(c), ticks);
  }

  /** `since` answers with a tail of the run, or names what it cannot account for. */
  lemma SinceIff(retain: nat, c: Channel, from: int)
    requires ChannelSound(retain, c) && (c.seam.Some? ==> SeamDescribesAWindow(c.seam.value))
    requires Run(c) != [] ==> IsSafeInteger(NextSequence(c)) && Newest(Run(c), retain)[0].sequence >= 0
    ensures Since(c, from).Ok? <==>
      if Run(c) == [] then from == NextSequence(c)
      else Newest(Run(c), retain)[0].sequence <= from <= NextSequence(c)
  {
    NewestContiguous(Run(c), retain);
  }

  /** One subscriber who asked for the first sequence and accepts everything. */
  function FirstComer(): Event {
    Subscribe(Some(FIRST_SEQUENCE), n => true)
  }

  /**
  On a feed that has published nothing: opening away from the first sequence hands the subscriber
  of the first sequence another one.
  */
  lemma FirstTickElsewhereMisleads(retain: nat, ticks: seq<Tick>)
    requires retain >= 1 && ticks != [] && Contiguous(ticks) && ticks[0].sequence != FIRST_SEQUENCE
    ensures var c := After(retain, SILENT, [FirstComer(), Publish(ticks)]);
      |c.subscribers| == 1 && c.subscribers[0].delivered == ticks && !InStep(c.subscribers[0], Run(c))
  {
    var waiting := Subscribed(SILENT, Some(FIRST_SEQUENCE), n => true);
    TwoSteps(retain, FirstComer(), Publish(ticks));
    DeliveredElsewhere(retain, waiting, ticks);
  }

  /**
  A seam declared while the subscriber of the first sequence waits: the run then opens exactly at
  the declared resume point, and that subscriber is still handed another sequence than it asked for.
  */
  lemma SeamWhileWaitingMisleads(retain: nat, seam: FeedSeam, ticks: seq<Tick>)
    requires retain >= 1 && SeamDescribesAWindow(seam) && seam.resumesAt != FIRST_SEQUENCE
    requires ticks != [] && Contiguous(ticks) && ticks[0].sequence == seam.resumesAt
    ensures var before := After(retain, SILENT, [FirstComer(), Seam(seam)]);
      ChannelSound(retain, before) && ticks[0].sequence == NextSequence(before)
    ensures var c := After(retain, SILENT, [FirstComer(), Seam(seam), Publish(ticks)]);
      |c.subscribers| == 1 && c.subscribers[0].delivered == ticks && !InStep(c.subscribers[0], Run(c))
  {
    SilentIsSound(retain);
    TwoSteps(retain, FirstComer(), Seam(seam));
    StepKeepsIff(retain, SILENT, FirstComer());
    var waiting := Subscribed(SILENT, Some(FIRST_SEQUENCE), n => true);
    StepKeepsIff(retain, waiting, Seam(seam));
    ThreeSteps(retain, FirstComer(), Seam(seam), Publish(ticks));
    DeliveredElsewhere(retain, Seamed(waiting, seam), ticks);
  }

  lemma TwoSteps(retain: nat, first: Event, second: Event)
    ensures After(retain, SILENT, [first, second]) == Step(retain, Step(retain, SILENT, first), second)
  {
    hide Step;
    var events := [first, second];
    assert events[1..] == [second];
    assert [second][1..] == [];
    calc {
      After(retain, SILENT, events);
      After(retain, Step(retain, SILENT, first), [second]);
      After(retain, Step(retain, Step(retain, SILENT, first), second), []);
    }
  }

  lemma ThreeSteps(retain: nat, first: Event, second: Event, third: Event)
    ensures After(retain, SILENT, [first, second, third]) ==
      Step(retain, Step(retain, Step(retain, SILENT, first), second), third)
  {
    hide Step;
    var events := [first, second, third];
    assert events[1..] == [second, third];
    assert [second, third][1..] == [third];
    assert [third][1..] == [];
    var c := Step(retain, SILENT, first);
    calc {
      After(retain, SILENT, events);
      After(retain, c, [second, third]);
      After(retain, Step(retain, c, second), [third]);
      After(retain, Step(retain, Step(retain, c, second), third), []);
    }
  }

  lemma DeliveredElsewhere(retain: nat, c: Channel, ticks: seq<Tick>)
    requires c.runs == [[]] && c.history == [] && |c.subscribers| == 1
    requires ticks != [] && Contiguous(ticks) && ticks[0].sequence != FIRST_SEQUENCE
    requires var s := c.subscribers[0];
      s.active && s.from == Some(FIRST_SEQUENCE) && s.delivered == [] && s.answers(s.calls)
    ensures var after := Published(retain, c, ticks);
      |after.subscribers| == 1 && after.subscribers[0].delivered == ticks && !InStep(after.subscribers[0], Run(after))
  {
    assert [] + ticks == ticks;
  }
}
