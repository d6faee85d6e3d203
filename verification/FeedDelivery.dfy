/**
What the feed owes its subscribers (packages/distribution/src/feed.ts): which batches are taken, who
is served, what ends a subscription, and which answer a resume gets. Stated from the record and the
sinks alone, for every interleaving, whether or not somebody was misled on the way.
*/
module FeedDelivery {
  import opened Prelude
  import opened TickWindows
  import opened Feeds

  /** The window is the newest of the record: kept by every step, whoever waits for what. */
  ghost predicate Recorded(retain: nat, c: Channel) {
    retain >= 1 && c.runs != [] && RunsContiguous(c.runs) && c.history == Newest(Run(c), retain)
  }

  lemma SoundIsRecorded(retain: nat, c: Channel)
    requires ChannelSound(retain, c)
    ensures Recorded(retain, c)
  {
  }

  lemma SilentIsRecorded(retain: nat)
    requires retain >= 1
    ensures Recorded(retain, SILENT)
  {
  }

  /** The sequence after the run's newest tick. */
  function Following(run: seq<Tick>): int
    requires run != []
  {
    run[|run| - 1].sequence + 1
  }

  /** A batch the feed owes its subscribers: gapless, and joined to the run where there is one. */
  predicate Due(c: Channel, ticks: seq<Tick>)
    requires c.runs != []
  {
    ticks != [] && Contiguous(ticks) && (Run(c) != [] ==> ticks[0].sequence == Following(Run(c)))
  }

  lemma DueIsTaken(retain: nat, c: Channel, ticks: seq<Tick>)
    requires Recorded(retain, c)
    ensures Due(c, ticks) <==> ticks != [] && Continues(c.history, ticks)
  {
    HistoryContinues(retain, Run(c), ticks);
  }

  // ---------------------------------------------------------------- the record

  /** What a step makes of the record: the current run, the seam, and whether a new run begins. */
  ghost predicate RecordAfter(c: Channel, event: Event, after: Channel)
    requires c.runs != [] && after.runs != []
  {
    if event.Forget? then after.runs == c.runs + [[]] && after.seam.None?
    else
      && |after.runs| == |c.runs|
      && (forall r :: 0 <= r < |c.runs| - 1 ==> after.runs[r] == c.runs[r])
      && Run(after) == (if event.Publish? && Due(c, event.ticks) then Run(c) + event.ticks else Run(c))
      && after.seam ==
         if event.Publish? && Due(c, event.ticks) then None
         else if event.Seam? && SeamDescribesAWindow(event.seam) then Some(event.seam)
         else c.seam
  }

  /** A batch is on the record exactly when it was due, and the window stays the newest of the record. */
  lemma RecordGrows(retain: nat, c: Channel, event: Event)
    requires Recorded(retain, c)
    ensures Recorded(retain, Step(retain, c, event))
    ensures RecordAfter(c, event, Step(retain, c, event))
  {
    if event.Publish? {
      hide Recorded, Step, RecordAfter;
      PublishRecords(retain, c, event.ticks);
      PublishStep(retain, c, event.ticks);
    } else {
      hide Contiguous, Newest;
      assert Newest<Tick>([], retain) == [];
      assert Contiguous([]);
    }
  }

  lemma PublishStep(retain: nat, c: Channel, ticks: seq<Tick>)
    requires c.runs != []
    ensures Step(retain, c, Publish(ticks)) == Published(retain, c, ticks)
  {
    hide Published;
  }

  lemma PublishRecords(retain: nat, c: Channel, ticks: seq<Tick>)
    requires Recorded(retain, c)
    ensures var after := Published(retain, c, ticks); Recorded(retain, after) && RecordAfter(c, Publish(ticks), after)
  {
    DueIsTaken(retain, c, ticks);
    hide Due;
    if Due(c, ticks) {
      var run := Run(c);
      HistoryContinues(retain, run, ticks);
      ContinuesIsContiguous(run, ticks);
      NewestGrows(run, ticks, retain);
      hide Contiguous, Continues, Newest, OfferAll;
      assert Run(Published(retain, c, ticks)) == run + ticks;
    }
  }

  // ---------------------------------------------------------------- one subscription, one step

  /** A step delivers to a live subscription exactly when it publishes a batch that is due and its sink takes it. */
  predicate Serves(c: Channel, event: Event, s: Subscriber)
    requires c.runs != []
  {
    event.Publish? && Due(c, event.ticks) && s.active && s.answers(s.calls)
  }

  /** What ends a live subscription: its own refusal of a batch that was due, its own cancellation, or retirement. */
  predicate EndedBy(c: Channel, event: Event, i: nat)
    requires c.runs != [] && i < |c.subscribers|
  {
    match event
    case Publish(ticks) => Due(c, ticks) && !c.subscribers[i].answers(c.subscribers[i].calls)
    case Cancel(at) => at == i
    case Forget => true
    case _ => false
  }

  ghost predicate SameAsked(s: Subscriber, t: Subscriber) {
    t.from == s.from && t.run == s.run && t.answers == s.answers
  }

  /** What one step does to one subscription. */
  lemma StepServes(retain: nat, c: Channel, event: Event, i: nat)
    requires Recorded(retain, c) && i < |c.subscribers|
    ensures i < |Step(retain, c, event).subscribers|
    ensures var s, t := c.subscribers[i], Step(retain, c, event).subscribers[i];
      && SameAsked(s, t)
      && (t.active <==> s.active && !EndedBy(c, event, i))
      && t.delivered == (if Serves(c, event, s) then s.delivered + event.ticks else s.delivered)
      && t.deliveredThrough ==
         (if Serves(c, event, s) then Some(event.ticks[|event.ticks| - 1].sequence) else s.deliveredThrough)
      && t.calls == (if event.Publish? && Due(c, event.ticks) && s.active then s.calls + 1 else s.calls)
  {
    if event.Publish? {
      DueIsTaken(retain, c, event.ticks);
    }
    hide Due, Continues, Newest, Recorded, Since;
  }

  /** A step issues a subscription exactly when it is one that is admitted, as the last. */
  lemma StepIssues(retain: nat, c: Channel, event: Event)
    requires Recorded(retain, c)
    ensures var after := Step(retain, c, event);
      if event.Subscribe? && Admit(c, event.from, event.answers).Ok? then
        |after.subscribers| == |c.subscribers| + 1 &&
        after.subscribers[|c.subscribers|] == Admit(c, event.from, event.answers).value
      else |after.subscribers| == |c.subscribers|
  {
    hide Admit;
  }

  // ---------------------------------------------------------------- one subscription, every run of steps

  /** None of these steps ends this subscription. */
  ghost predicate NeverEnds(retain: nat, c: Channel, events: seq<Event>, i: nat)
    requires c.runs != []
    decreases |events|
  {
    events != [] ==>
      && i < |c.subscribers| && !EndedBy(c, events[0], i)
      && NeverEnds(retain, Step(retain, c, events[0]), events[1..], i)
  }

  /** What came onto the current run since. */
  function Grown(c: Channel, final: Channel): seq<Tick>
    requires c.runs != [] && final.runs != []
  {
    if |Run(c)| <= |Run(final)| then Run(final)[|Run(c)|..] else []
  }

  /** Served with everything: the record's growth, all of it, and the place at its end. */
  ghost predicate ServedAll(c: Channel, final: Channel, s: Subscriber, t: Subscriber)
    requires c.runs != [] && final.runs != []
  {
    && |final.runs| == |c.runs| && Run(c) <= Run(final)
    && t.delivered == s.delivered + Grown(c, final)
    && t.deliveredThrough ==
       if Grown(c, final) == [] then s.deliveredThrough else Some(Run(final)[|Run(final)| - 1].sequence)
  }

  /**
  Over every run of steps: a live subscription is live at the end exactly when no step ended it, and
  then it was delivered everything that came onto the record, once and in order. One that has ended
  gets nothing more.
  */
  lemma {:induction false} LiveIff(retain: nat, c: Channel, events: seq<Event>, i: nat)
    requires c.runs != [] && Recorded(retain, c) && i < |c.subscribers|
    ensures Recorded(retain, After(retain, c, events)) && i < |After(retain, c, events).subscribers|
    ensures var s, t := c.subscribers[i], After(retain, c, events).subscribers[i];
      && SameAsked(s, t)
      && (t.active <==> s.active && NeverEnds(retain, c, events, i))
      && (t.active ==> ServedAll(c, After(retain, c, events), s, t))
      && (!s.active ==> t.delivered == s.delivered)
    decreases |events|
  {
    hide Recorded, Step, EndedBy, ServedAll, Serves;
    if events == [] {
      ServedNothing(c, c.subscribers[i]);
    } else {
      var next, final := Step(retain, c, events[0]), After(retain, c, events);
      RecordGrows(retain, c, events[0]);
      StepServes(retain, c, events[0], i);
      LiveIff(retain, next, events[1..], i);
      var s, u, t := c.subscribers[i], next.subscribers[i], final.subscribers[i];
      if !s.active {
        NotServed(c, events[0], s);
      }
      if t.active {
        ServedOnce(c, events[0], next, i);
        ServedOn(c, next, final, s, u, t);
      }
    }
  }

  lemma NotServed(c: Channel, event: Event, s: Subscriber)
    requires c.runs != [] && !s.active
    ensures !Serves(c, event, s)
  {
  }

  lemma ServedNothing(c: Channel, s: Subscriber)
    requires c.runs != []
    ensures ServedAll(c, c, s, s)
  {
  }

  /** One step that does not end a live subscription serves it with what came onto the record. */
  lemma ServedOnce(c: Channel, event: Event, next: Channel, i: nat)
    requires c.runs != [] && next.runs != [] && i < |c.subscribers| && i < |next.subscribers|
    requires c.subscribers[i].active && !EndedBy(c, event, i) && RecordAfter(c, event, next)
    requires var s, t := c.subscribers[i], next.subscribers[i];
      && t.delivered == (if Serves(c, event, s) then s.delivered + event.ticks else s.delivered)
      && t.deliveredThrough ==
         (if Serves(c, event, s) then Some(event.ticks[|event.ticks| - 1].sequence) else s.deliveredThrough)
    ensures ServedAll(c, next, c.subscribers[i], next.subscribers[i])
  {
    var s := c.subscribers[i];
    if Serves(c, event, s) {
      assert Run(next) == Run(c) + event.ticks;
      hide Due;
      assert Grown(c, next) == event.ticks;
    } else {
      assert Run(next) == Run(c);
      assert Grown(c, next) == [];
    }
  }

  lemma ServedOn(c: Channel, next: Channel, final: Channel, s: Subscriber, u: Subscriber, t: Subscriber)
    requires c.runs != [] && next.runs != [] && final.runs != []
    requires ServedAll(c, next, s, u) && ServedAll(next, final, u, t)
    ensures ServedAll(c, final, s, t)
  {
    assert Grown(c, final) == Grown(c, next) + Grown(next, final);
  }

  // ---------------------------------------------------------------- a sink that takes everything

  /** Nothing in these steps cancels this subscription or retires the feed. */
  ghost predicate LeftAlone(events: seq<Event>, i: nat) {
    forall k :: 0 <= k < |events| ==> !events[k].Forget? && events[k] != Cancel(i)
  }

  ghost predicate Willing(s: Subscriber) {
    forall n: nat :: s.calls <= n ==> s.answers(n)
  }

  lemma {:induction false} WillingNeverEnds(retain: nat, c: Channel, events: seq<Event>, i: nat)
    requires c.runs != [] && Recorded(retain, c) && i < |c.subscribers| && Willing(c.subscribers[i]) && LeftAlone(events, i)
    ensures NeverEnds(retain, c, events, i)
    decreases |events|
  {
    if events != [] {
      hide Recorded, Step, Due;
      RecordGrows(retain, c, events[0]);
      StepServes(retain, c, events[0], i);
      assert events[0] != Cancel(i) && !events[0].Forget?;
      WillingNeverEnds(retain, Step(retain, c, events[0]), events[1..], i);
    }
  }

  /** Where in the run a subscription begins: at what it asked for, or at what comes next. */
  function Start(c: Channel, from: Option<int>): int
    requires c.runs != []
  {
    if from.None? || Run(c) == [] then |Run(c)| else from.value - Run(c)[0].sequence
  }

  /**
  Whatever else goes on: a subscription that was admitted, whose sink takes every batch and that
  nobody cancels, is live for as long as the feed is not retired, and holds every tick of the run
  from where it began.
  */
  lemma {:induction false} WillingIsServed(retain: nat, c: Channel, from: Option<int>, answers: nat -> bool,
                                          events: seq<Event>)
    requires c.runs != [] && Recorded(retain, c) && Admit(c, from, answers).Ok? && (forall n :: answers(n))
    requires LeftAlone(events, |c.subscribers|)
    ensures var final := After(retain, c, [Subscribe(from, answers)] + events);
      && |c.subscribers| < |final.subscribers|
      && 0 <= Start(c, from) <= |Run(c)| && Run(c) <= Run(final)
      && final.subscribers[|c.subscribers|].active
      && final.subscribers[|c.subscribers|].delivered == Run(final)[Start(c, from)..]
  {
    hide Recorded, Admit, ServedAll;
    var event, i := Subscribe(from, answers), |c.subscribers|;
    var next, all := Step(retain, c, event), [event] + events;
    assert all[0] == event && all[1..] == events;
    RecordGrows(retain, c, event);
    StepIssues(retain, c, event);
    AdmittedHolds(retain, c, from, answers);
    hide Step;
    WillingNeverEnds(retain, next, events, i);
    LiveIff(retain, next, events, i);
    var final := After(retain, next, events);
    assert After(retain, c, all) == final;
    HoldsFrom(c, next, final, next.subscribers[i], final.subscribers[i], Start(c, from));
  }

  lemma HoldsFrom(c: Channel, next: Channel, final: Channel, s: Subscriber, t: Subscriber, start: nat)
    requires c.runs != [] && next.runs != [] && final.runs != [] && Run(next) == Run(c) && start <= |Run(c)|
    requires s.delivered == Run(c)[start..] && ServedAll(next, final, s, t)
    ensures Run(c) <= Run(final) && t.delivered == Run(final)[start..]
  {
  }

  // ---------------------------------------------------------------- who is admitted, and why not

  /** The window's oldest tick, found in the run. */
  lemma WindowStarts(retain: nat, c: Channel)
    requires Recorded(retain, c) && Run(c) != []
    ensures 0 < |c.history| <= |Run(c)| && c.history == Run(c)[|Run(c)| - |c.history|..]
    ensures c.history[0].sequence == Run(c)[0].sequence + |Run(c)| - |c.history|
    ensures c.history[|c.history| - 1] == Run(c)[|Run(c)| - 1]
    ensures Run(c)[|Run(c)| - 1].sequence == Run(c)[0].sequence + |Run(c)| - 1
  {
    assert c.history[0] == Run(c)[|Run(c)| - |c.history|];
  }

  /** A backlog is the run from the sequence asked for. */
  lemma BacklogIs(retain: nat, c: Channel, from: int)
    requires Recorded(retain, c) && Since(c, from).Ok?
    ensures 0 <= Start(c, Some(from)) <= |Run(c)|
    ensures Since(c, from).value == Run(c)[Start(c, Some(from))..]
  {
    if Run(c) != [] {
      WindowStarts(retain, c);
      hide Recorded;
      DropDrop(Run(c), |Run(c)| - |c.history|, from - c.history[0].sequence);
    }
  }

  /** A new subscription: refused exactly when its backlog is, and otherwise offered that backlog once. */
  lemma AdmittedHolds(retain: nat, c: Channel, from: Option<int>, answers: nat -> bool)
    requires Recorded(retain, c)
    ensures Admit(c, from, answers).Err? <==> from.Some? && Since(c, from.value).Err?
    ensures Admit(c, from, answers).Err? ==> Admit(c, from, answers).error == Since(c, from.value).error
    ensures Admit(c, from, answers).Ok? ==>
      && 0 <= Start(c, from) <= |Run(c)|
      && var s, backlog := Admit(c, from, answers).value, Run(c)[Start(c, from)..];
         && s.from == from && s.answers == answers && s.run == |c.runs| - 1
         && s.calls == (if backlog == [] then 0 else 1)
         && (s.active <==> backlog == [] || answers(0))
         && s.delivered == (if s.active then backlog else [])
         && s.deliveredThrough ==
            (if s.delivered == [] then None else Some(backlog[|backlog| - 1].sequence))
  {
    hide Since, Recorded;
    if from.Some? && Since(c, from.value).Ok? {
      BacklogIs(retain, c, from.value);
    }
  }

  /** The oldest sequence a resume can be given: the oldest retained, or where the window will begin. */
  function Oldest(retain: nat, c: Channel): int
    requires c.runs != [] && retain >= 1
  {
    var run := Run(c);
    if run != [] then run[if |run| <= retain then 0 else |run| - retain].sequence
    else if c.seam.Some? then c.seam.value.resumesAt
    else FIRST_SEQUENCE
  }

  /** The newest sequence there is: the run's, what was published before the seam, or the one before the first. */
  function NewestKnown(c: Channel): int
    requires c.runs != []
  {
    if Run(c) != [] then Run(c)[|Run(c)| - 1].sequence
    else if c.seam.Some? then c.seam.value.publishedThrough
    else FIRST_SEQUENCE - 1
  }

  predicate Addressable(from: int) {
    IsSafeInteger(from) && from >= 0
  }

  /** Nothing published and nothing declared. */
  predicate Silent(c: Channel)
    requires c.runs != []
  {
    Run(c) == [] && c.seam.None?
  }

  /**
  Which of the three answers a resume gets, exactly: too old, with the oldest that can be had; never
  published, with the newest there is; or the ticks.
  */
  lemma ResumeAnswers(retain: nat, c: Channel, from: int)
    requires Recorded(retain, c)
    ensures Since(c, from).Ok? <==> Addressable(from) && Oldest(retain, c) <= from <= NextSequence(c)
    ensures Since(c, from) == Err(Evicted(Oldest(retain, c))) <==>
      Addressable(from) && from < Oldest(retain, c) && !Silent(c)
    ensures Addressable(from) && (from > NextSequence(c) || (Silent(c) && from != FIRST_SEQUENCE)) <==>
      Addressable(from) && Since(c, from) == Err(UnknownSequence(NewestKnown(c)))
    ensures !Addressable(from) ==> Since(c, from) == Err(UnknownSequence(FIRST_SEQUENCE - 1))
  {
    if Run(c) != [] {
      WindowStarts(retain, c);
    }
  }

  // ---------------------------------------------------------------- where live subscriptions stand

  /** Every live subscription is of the current run, and stands at its newest tick once it holds any. */
  ghost predicate UpToDate(c: Channel)
    requires c.runs != []
  {
    forall i :: 0 <= i < |c.subscribers| && c.subscribers[i].active ==> StandsAtNewest(c, c.subscribers[i])
  }

  ghost predicate StandsAtNewest(c: Channel, s: Subscriber)
    requires c.runs != []
  {
    && s.run == |c.runs| - 1
    && (s.delivered == [] ==> s.deliveredThrough.None?)
    && (s.delivered != [] ==> Run(c) != [] && s.deliveredThrough == Some(Run(c)[|Run(c)| - 1].sequence))
  }

  lemma StepUpToDate(retain: nat, c: Channel, event: Event)
    requires c.runs != [] && Recorded(retain, c) && UpToDate(c)
    ensures UpToDate(Step(retain, c, event))
  {
    hide Recorded, Step, Admit, Serves, Due;
    var next := Step(retain, c, event);
    RecordGrows(retain, c, event);
    StepIssues(retain, c, event);
    forall i | 0 <= i < |next.subscribers| && next.subscribers[i].active
      ensures StandsAtNewest(next, next.subscribers[i])
    {
      if i < |c.subscribers| {
        StepServes(retain, c, event, i);
        KeepsUp(c, event, next, i);
      } else {
        AdmittedHolds(retain, c, event.from, event.answers);
      }
    }
  }

  lemma KeepsUp(c: Channel, event: Event, next: Channel, i: nat)
    requires c.runs != [] && next.runs != [] && i < |c.subscribers| && i < |next.subscribers|
    requires c.subscribers[i].active && !EndedBy(c, event, i) && RecordAfter(c, event, next)
    requires var s, t := c.subscribers[i], next.subscribers[i];
      && SameAsked(s, t)
      && t.delivered == (if Serves(c, event, s) then s.delivered + event.ticks else s.delivered)
      && t.deliveredThrough ==
         (if Serves(c, event, s) then Some(event.ticks[|event.ticks| - 1].sequence) else s.deliveredThrough)
    requires StandsAtNewest(c, c.subscribers[i])
    ensures StandsAtNewest(next, next.subscribers[i])
  {
  }

  /** Over every run of a feed, misled or not: no live subscription is behind. */
  lemma {:induction false} NobodyLagsBehind(retain: nat, events: seq<Event>)
    requires retain >= 1
    ensures UpToDate(After(retain, SILENT, events))
  {
    SilentIsRecorded(retain);
    StaysUpToDate(retain, SILENT, events);
  }

  lemma {:induction false} StaysUpToDate(retain: nat, c: Channel, events: seq<Event>)
    requires c.runs != [] && Recorded(retain, c) && UpToDate(c)
    ensures Recorded(retain, After(retain, c, events)) && UpToDate(After(retain, c, events))
    decreases |events|
  {
    hide Recorded, UpToDate, Step;
    if events != [] {
      RecordGrows(retain, c, events[0]);
      StepUpToDate(retain, c, events[0]);
      StaysUpToDate(retain, Step(retain, c, events[0]), events[1..]);
    }
  }
}
