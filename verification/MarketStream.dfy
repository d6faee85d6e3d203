/**
A client that reconnects (apps/web/src/lib/marketStream.ts): each connection is one subscription of
the feed, asked for from where the client's window resumes, and each tick is appended on its own.
*/
module MarketStreams {
  import opened Prelude
  import opened TickWindows
  import opened Feeds

  /** One connection: a subscription of the feed, and how much of what its sink took reached the client at most. */
  datatype Session = Session(observer: Subscriber, got: nat)

  function Seen(s: Session): seq<Tick> {
    if s.got <= |s.observer.delivered| then s.observer.delivered[..s.got] else s.observer.delivered
  }

  /** The connections are subscriptions this feed issued. */
  ghost predicate SessionsOf(c: Channel, sessions: seq<Session>) {
    forall k :: 0 <= k < |sessions| ==> Issued(c, sessions[k].observer)
  }

  ghost predicate Issued(c: Channel, s: Subscriber) {
    exists i :: 0 <= i < |c.subscribers| && c.subscribers[i] == s
  }

  /** What the client has received over its first n connections. */
  function Received(sessions: seq<Session>, n: nat): seq<Tick>
    requires n <= |sessions|
  {
    if n == 0 then [] else Received(sessions, n - 1) + Seen(sessions[n - 1])
  }

  /** Every connection after the first tick asks for the sequence the window resumes from. */
  ghost predicate Resumes(sessions: seq<Session>) {
    forall k :: 0 <= k < |sessions| ==> Asks(sessions, k)
  }

  predicate Asks(sessions: seq<Session>, k: nat)
    requires k < |sessions|
  {
    var before := Received(sessions, k);
    before != [] ==> sessions[k].observer.from == Some(before[|before| - 1].sequence + 1)
  }

  /** Nothing, or a stretch of the run. */
  predicate PartOf(part: seq<Tick>, run: seq<Tick>) {
    part == [] || (run != [] && Stretch(part, run))
  }

  ghost predicate OneRun(sessions: seq<Session>, r: nat) {
    forall k :: 0 <= k < |sessions| ==> sessions[k].observer.run == r
  }

  lemma ObserverInStep(c: Channel, s: Subscriber)
    requires Issued(c, s) && AllInStep(c)
    ensures s.run < |c.runs| && InStep(s, c.runs[s.run])
  {
    hide InStep;
  }

  lemma RunContiguous(runs: seq<seq<Tick>>, r: nat)
    requires RunsContiguous(runs) && r < |runs|
    ensures Contiguous(runs[r])
  {
    hide Contiguous;
  }

  /** What one connection brings: a stretch of its subscription's run, from the sequence asked for. */
  lemma {:induction false} SeenIsStretch(run: seq<Tick>, s: Session)
    requires Contiguous(run) && InStep(s.observer, run)
    ensures Contiguous(Seen(s))
    ensures PartOf(Seen(s), run)
    ensures Seen(s) != [] && s.observer.from.Some? ==> Seen(s)[0].sequence == s.observer.from.value
  {
    if Seen(s) != [] {
      var all := s.observer.delivered;
      assert all[..|all|] == all;
      StretchStarts(all, run, |Seen(s)|);
      assert Seen(s)[0] == all[0];
    }
  }

  lemma StretchStarts(part: seq<Tick>, run: seq<Tick>, n: nat)
    requires part != [] && run != [] && Contiguous(run) && Stretch(part, run) && 0 < n <= |part|
    ensures Stretch(part[..n], run) && Contiguous(part[..n])
  {
    var a := part[0].sequence - run[0].sequence;
    assert part[..n] == run[a..a + n];
    PartOfContiguous(run, a, a + n);
  }

  lemma JoinsOn(before: seq<Tick>, ticks: seq<Tick>)
    requires Contiguous(ticks)
    requires before != [] && ticks != [] ==> ticks[0].sequence == before[|before| - 1].sequence + 1
    ensures Continues(before, ticks)
  {
  }

  lemma JoinStretches(run: seq<Tick>, a: seq<Tick>, b: seq<Tick>)
    requires Contiguous(run) && Continues(a, b)
    requires PartOf(a, run) && PartOf(b, run)
    ensures PartOf(a + b, run)
  {
    if a == [] {
      assert a + b == b;
    } else if b == [] {
      assert a + b == a;
    } else {
      var p := a[0].sequence - run[0].sequence;
      assert a[|a| - 1] == run[p + |a| - 1];
      assert run[p..p + |a + b|] == a + b;
    }
  }

  /** A connection in step with any run continues what was received before it. */
  lemma {:induction false} SessionContinues(run: seq<Tick>, sessions: seq<Session>, n: nat)
    requires Contiguous(run) && n < |sessions| && InStep(sessions[n].observer, run) && Resumes(sessions)
    ensures Continues(Received(sessions, n), Seen(sessions[n]))
  {
    hide Contiguous, InStep, Stretch, Seen;
    SeenIsStretch(run, sessions[n]);
    assert Asks(sessions, n);
    JoinsOn(Received(sessions, n), Seen(sessions[n]));
  }

  /** Over any feed whose observers are in step: no hole between connections, even across runs. */
  lemma {:induction false} ReceivedContiguous(c: Channel, sessions: seq<Session>, n: nat)
    requires SessionsOf(c, sessions) && Resumes(sessions) && AllInStep(c) && RunsContiguous(c.runs)
    requires n <= |sessions|
    ensures Contiguous(Received(sessions, n))
    ensures n < |sessions| ==> Continues(Received(sessions, n), Seen(sessions[n]))
    decreases n
  {
    hide *;
    ReceivedNext(sessions, n);
    if n > 0 {
      ReceivedContiguous(c, sessions, n - 1);
      ContinuesIsContiguous(Received(sessions, n - 1), Seen(sessions[n - 1]));
    } else {
      EmptyIsContiguous();
    }
    if n < |sessions| {
      var s := sessions[n].observer;
      SessionIssued(c, sessions, n);
      ObserverInStep(c, s);
      RunContiguous(c.runs, s.run);
      SessionContinues(c.runs[s.run], sessions, n);
    }
  }

  lemma {:induction false} ReceivedNext(sessions: seq<Session>, n: nat)
    requires n <= |sessions|
    ensures Received(sessions, n) ==
      if n == 0 then [] else Received(sessions, n - 1) + Seen(sessions[n - 1])
  {
  }

  lemma SessionIssued(c: Channel, sessions: seq<Session>, k: nat)
    requires SessionsOf(c, sessions) && k < |sessions|
    ensures Issued(c, sessions[k].observer)
  {
  }

  lemma SessionRun(sessions: seq<Session>, r: nat, k: nat)
    requires OneRun(sessions, r) && k < |sessions|
    ensures sessions[k].observer.run == r
  {
  }

  lemma EmptyIsPart(run: seq<Tick>)
    ensures PartOf([], run)
  {
  }

  lemma EmptyIsContiguous()
    ensures Contiguous([])
  {
  }

  lemma {:induction false} ReceivedIsStretch(c: Channel, sessions: seq<Session>, r: nat, n: nat)
    requires SessionsOf(c, sessions) && Resumes(sessions) && AllInStep(c) && RunsContiguous(c.runs)
    requires n <= |sessions| && OneRun(sessions, r) && r < |c.runs|
    ensures PartOf(Received(sessions, n), c.runs[r])
    decreases n
  {
    hide *;
    ReceivedNext(sessions, n);
    if n == 0 {
      EmptyIsPart(c.runs[r]);
    } else {
      var s := sessions[n - 1];
      SessionIssued(c, sessions, n - 1);
      SessionRun(sessions, r, n - 1);
      ReceivedIsStretch(c, sessions, r, n - 1);
      ReceivedContiguous(c, sessions, n - 1);
      ObserverInStep(c, s.observer);
      RunContiguous(c.runs, r);
      SeenIsStretch(c.runs[r], s);
      JoinStretches(c.runs[r], Received(sessions, n - 1), Seen(s));
    }
  }

  /**
  A client that always resumes where its window says never meets a hole or a repeat, over whatever
  the feed went through: each connection continues everything received before, and what was
  received from one run is one stretch of it.
  */
  lemma {:induction false} ReconnectNeverGaps(retain: nat, events: seq<Event>, sessions: seq<Session>, n: nat)
    requires retain >= 1 && NeverMisleads(retain, SILENT, events)
    requires var c := After(retain, SILENT, events); SessionsOf(c, sessions) && Resumes(sessions)
    requires n <= |sessions|
    ensures var c := After(retain, SILENT, events);
      && Contiguous(Received(sessions, n))
      && (n < |sessions| ==> Continues(Received(sessions, n), Seen(sessions[n])))
    ensures var c := After(retain, SILENT, events);
      forall r | 0 <= r < |c.runs| && OneRun(sessions, r) ::
        PartOf(Received(sessions, n), c.runs[r])
  {
    var c := After(retain, SILENT, events);
    FeedIsSound(retain, events);
    hide Contiguous, Continues, Resumes, AllInStep, Stretch, RunsContiguous, SessionsOf, After, NeverMisleads, OneRun;
    ReceivedContiguous(c, sessions, n);
    forall r | 0 <= r < |c.runs| && OneRun(sessions, r)
      ensures PartOf(Received(sessions, n), c.runs[r])
    {
      ReceivedIsStretch(c, sessions, r, n);
    }
  }

  lemma FeedIsSound(retain: nat, events: seq<Event>)
    requires retain >= 1 && NeverMisleads(retain, SILENT, events)
    ensures AllInStep(After(retain, SILENT, events)) && RunsContiguous(After(retain, SILENT, events).runs)
  {
    SilentIsSound(retain);
    EveryObserverInStep(retain, SILENT, events);
  }

  lemma PieceContinues(before: seq<Tick>, ticks: seq<Tick>, j: nat)
    requires Contiguous(before) && Continues(before, ticks) && j < |ticks|
    ensures Continues(before + ticks[..j], [ticks[j]])
    ensures before + ticks[..j] + [ticks[j]] == before + ticks[..j + 1]
  {
  }

  /**
  The client's loop: one connection after another, each asked for from the window's resume point,
  every tick appended by itself. The window refuses none of them and holds the newest of them all.
  */
  method Follow(window: TickWindow, sessions: seq<Session>, ghost retain: nat, ghost events: seq<Event>)
    requires window.Valid() && window.received == []
    requires retain >= 1 && NeverMisleads(retain, SILENT, events)
    requires var c := After(retain, SILENT, events); SessionsOf(c, sessions) && Resumes(sessions)
    modifies window
    ensures window.Valid()
    ensures var all := Received(sessions, |sessions|);
      window.received == all && window.ticks == Newest(all, window.capacity)
  {
    hide *;
    ReceivedNext(sessions, 0);
    var k := 0;
    while k < |sessions|
      invariant k <= |sessions| && window.Valid() && window.received == Received(sessions, k)
    {
      ReconnectNeverGaps(retain, events, sessions, k);
      SessionAsks(sessions, k);
      Connect(window, sessions, k);
      k := k + 1;
    }
    NewestHeld(window);
  }

  lemma NewestHeld(window: TickWindow)
    requires window.Valid()
    ensures window.ticks == Newest(window.received, window.capacity)
  {
  }

  lemma {:induction false} SessionAsks(sessions: seq<Session>, k: nat)
    requires Resumes(sessions) && k < |sessions|
    ensures Asks(sessions, k)
  {
  }

  /** One connection, asked for from where the window resumes. */
  method Connect(window: TickWindow, sessions: seq<Session>, k: nat)
    requires window.Valid() && k < |sessions| && window.received == Received(sessions, k)
    requires Asks(sessions, k) && Continues(window.received, Seen(sessions[k]))
    modifies window
    ensures window.Valid() && window.received == Received(sessions, k + 1)
  {
    hide Contiguous, Continues, Newest, Seen;
    assert window.received != [] ==> sessions[k].observer.from == window.ResumeFrom();
    AppendEach(window, Seen(sessions[k]));
  }

  /** One connection's messages. */
  method AppendEach(window: TickWindow, seen: seq<Tick>)
    requires window.Valid() && Continues(window.received, seen)
    modifies window
    ensures window.Valid() && window.received == old(window.received) + seen
  {
    hide Newest, Contiguous, Continues;
    var j := 0;
    while j < |seen|
      invariant j <= |seen| && window.Valid() && window.received == old(window.received) + seen[..j]
    {
      PieceContinues(old(window.received), seen, j);
      var refused := window.Append([seen[j]]);
      assert refused.None?;
      j := j + 1;
    }
    assert seen[..j] == seen;
  }
}
