/**
The feed as it runs (packages/distribution/src/feed.ts): one object per asset, updated in
place, and one per subscription. Each operation is the step of the state machine of Feeds.
*/
module TickFeeds {
  import opened Prelude
  import opened TickWindows
  import opened Feeds

  class Subscription {
    const from: Option<int>
    const answers: nat -> bool
    /** Deliveries the sink has been offered. */
    var calls: nat
    var deliveredThrough: Option<int>
    var active: bool
    ghost const run: nat
    ghost var delivered: seq<Tick>

    ghost function Now(): Subscriber
      reads this
    {
      Subscriber(from, run, answers, calls, delivered, deliveredThrough, active)
    }

    constructor (from: Option<int>, answers: nat -> bool, ghost run: nat)
      ensures Now() == Subscriber(from, run, answers, 0, [], None, true)
    {
      this.from, this.answers, this.run := from, answers, run;
      calls, deliveredThrough, active, delivered := 0, None, true, [];
    }

    /** `push`: a subscriber that cannot take a batch is disconnected, never fast-forwarded. */
    method Push(ticks: seq<Tick>)
      requires ticks != []
      modifies this
      ensures Now() == Offer(old(Now()), ticks)
    {
      if !active {
        return;
      }
      var accepted := answers(calls);
      calls := calls + 1;
      if !accepted {
        active := false;
        return;
      }
      delivered := delivered + ticks;
      deliveredThrough := Some(ticks[|ticks| - 1].sequence);
    }

    method End()
      modifies this
      ensures Now() == old(Now()).(active := false)
    {
      active := false;
    }
  }

  /** What these subscriptions hold, in order. */
  ghost function States(subscriptions: seq<Subscription>): (states: seq<Subscriber>)
    reads subscriptions
    ensures |states| == |subscriptions|
    ensures forall i :: 0 <= i < |states| ==> states[i] == subscriptions[i].Now()
  {
    if subscriptions == [] then []
    else
      var n := |subscriptions| - 1;
      States(subscriptions[..n]) + [subscriptions[n].Now()]
  }

  /** The feed's state for one asset. The source keeps the three fields in three maps by asset. */
  class AssetFeed {
    const retainTicks: nat
    var history: seq<Tick>
    var seam: Option<FeedSeam>
    /** The live subscriptions. */
    var subscriptions: set<Subscription>
    ghost var runs: seq<seq<Tick>>
    /** Every subscription ever handed out, in order. */
    ghost var issued: seq<Subscription>

    ghost function Now(): Channel
      reads this, issued
    {
      Channel(history, seam, runs, States(issued))
    }

    ghost predicate Valid()
      reads this, issued
    {
      && retainTicks >= 1 && runs != []
      && (forall i, j :: 0 <= i < j < |issued| ==> issued[i] != issued[j])
      && (forall s | s in subscriptions :: s in issued && s.active)
      && (forall s | s in issued :: s.active ==> s in subscriptions)
    }

    constructor (retainTicks: nat)
      requires retainTicks >= 1
      ensures Valid() && Now() == SILENT && this.retainTicks == retainTicks
    {
      this.retainTicks := retainTicks;
      history, seam, subscriptions, runs, issued := [], None, {}, [[]], [];
    }

    /** Record ticks and fan them out, or refuse the batch whole. */
    method Publish(ticks: seq<Tick>) returns (refused: Option<FeedError>)
      requires Valid()
      modifies this`history, this`seam, this`subscriptions, this`runs, issued
      ensures Valid() && issued == old(issued)
      ensures Now() == Published(retainTicks, old(Now()), ticks)
      ensures refused.None? <==> ticks == [] || Continues(old(history), ticks)
    {
      hide Offer, OfferAll, Contiguous, Newest, States;
      PublishedIs(retainTicks, Now(), ticks);
      hide Published;
      if |ticks| == 0 {
        return None;
      }
      var contiguous := CheckContiguous(ticks);
      if !contiguous || (history != [] && ticks[0].sequence != history[|history| - 1].sequence + 1) {
        return Some(OutOfOrder);
      }
      hide Continues;
      Record(ticks);
      FanOut(ticks);
      return None;
    }

    /** The window slides and the declared seam has done its work. */
    method Record(ticks: seq<Tick>)
      requires Valid()
      modifies this`history, this`seam, this`runs
      ensures Valid() && issued == old(issued) && subscriptions == old(subscriptions)
      ensures history == Newest(old(history) + ticks, retainTicks) && seam == None
      ensures runs == old(runs)[|old(runs)| - 1 := old(runs)[|old(runs)| - 1] + ticks]
    {
      history := history + ticks;
      seam := None;
      if |history| > retainTicks {
        history := history[|history| - retainTicks..];
      }
      runs := runs[|runs| - 1 := runs[|runs| - 1] + ticks];
    }

    /** Every live subscription is offered the batch once, and those that refuse are dropped. */
    method FanOut(ticks: seq<Tick>)
      requires Valid() && ticks != []
      modifies this`subscriptions, issued
      ensures Valid() && issued == old(issued)
      ensures States(issued) == OfferAll(old(States(issued)), ticks)
    {
      hide Offer;
      PushToEach(ticks);
    }

    method PushToEach(ticks: seq<Tick>)
      requires Valid() && ticks != []
      modifies this`subscriptions, issued
      ensures Valid() && issued == old(issued)
      ensures forall s :: s in issued ==> s.Now() == Offer(old(s.Now()), ticks)
    {
      OfferKeepsEnded(ticks);
      hide Offer, States;
      var remaining := subscriptions;
      while remaining != {}
        invariant Valid() && issued == old(issued)
        invariant remaining <= subscriptions
        invariant forall s :: s in issued ==>
          s.Now() == if s in remaining then old(s.Now()) else Offer(old(s.Now()), ticks)
        decreases |remaining|
      {
        var s :| s in remaining;
        PushTo(s, ticks);
        remaining := remaining - {s};
      }
    }

    method PushTo(s: Subscription, ticks: seq<Tick>)
      requires Valid() && ticks != [] && s in subscriptions
      modifies this`subscriptions, s
      ensures Valid() && issued == old(issued)
      ensures s.Now() == Offer(old(s.Now()), ticks)
      ensures old(subscriptions) - {s} <= subscriptions <= old(subscriptions)
    {
      hide Offer, States;
      s.Push(ticks);
      OfferKeepsEnded(ticks);
      if !s.active {
        subscriptions := subscriptions - {s};
      }
    }

    /** `since`: the retained ticks from a sequence on. */
    method TicksSince(from: int) returns (r: Result<seq<Tick>, FeedError>)
      requires Valid()
      ensures r == Since(Now(), from)
    {
      if !IsSafeInteger(from) || from < 0 {
        return Err(UnknownSequence(FIRST_SEQUENCE - 1));
      }
      if |history| == 0 {
        if seam.Some? {
          if from < seam.value.resumesAt {
            return Err(Evicted(seam.value.resumesAt));
          }
          if from > seam.value.resumesAt {
            return Err(UnknownSequence(seam.value.publishedThrough));
          }
          return Ok([]);
        }
        return if from != FIRST_SEQUENCE then Err(UnknownSequence(FIRST_SEQUENCE - 1)) else Ok([]);
      }
      var oldest, newest := history[0].sequence, history[|history| - 1].sequence;
      if from < oldest {
        return Err(Evicted(oldest));
      }
      if from > newest + 1 {
        return Err(UnknownSequence(newest));
      }
      var offset := from - oldest;
      return Ok(if offset <= |history| then history[offset..] else []);
    }

    /** Subscribe, replaying from a sequence where one is asked for. */
    method Subscribe(from: Option<int>, answers: nat -> bool) returns (r: Result<Subscription, FeedError>)
      requires Valid()
      modifies this`subscriptions, this`issued
      ensures Valid()
      ensures Now() == Subscribed(old(Now()), from, answers)
      ensures r.Ok? <==> Admit(old(Now()), from, answers).Ok?
      ensures r.Ok? ==> fresh(r.value) && issued == old(issued) + [r.value]
      ensures r.Err? ==> r.error == Admit(old(Now()), from, answers).error && issued == old(issued)
    {
      hide Since, Offer;
      r := Open(from, answers);
      if r.Ok? {
        Attach(r.value);
      }
    }

    /** A subscription not yet attached, its backlog replayed. */
    method Open(from: Option<int>, answers: nat -> bool) returns (r: Result<Subscription, FeedError>)
      requires Valid()
      ensures r.Ok? <==> Admit(Now(), from, answers).Ok?
      ensures r.Ok? ==> fresh(r.value) && r.value.Now() == Admit(Now(), from, answers).value
      ensures r.Err? ==> r.error == Admit(Now(), from, answers).error
    {
      hide Since, Offer;
      var subscription := new Subscription(from, answers, |runs| - 1);
      assert States(issued) == old(States(issued));
      if from.Some? {
        var backlog := TicksSince(from.value);
        if backlog.Err? {
          return Err(backlog.error);
        }
        if |backlog.value| > 0 {
          subscription.Push(backlog.value);
        }
      }
      return Ok(subscription);
    }

    /** Only a subscription still live after its backlog is kept. */
    method Attach(subscription: Subscription)
      requires Valid() && subscription !in issued
      modifies this`subscriptions, this`issued
      ensures Valid() && issued == old(issued) + [subscription]
      ensures States(issued) == old(States(issued)) + [subscription.Now()]
    {
      if subscription.active {
        subscriptions := subscriptions + {subscription};
      }
      issued := issued + [subscription];
      assert issued[..|issued| - 1] == old(issued);
    }

    /** `cancel` on a subscription this feed handed out. */
    method Cancel(subscription: Subscription, ghost at: nat)
      requires Valid() && at < |issued| && issued[at] == subscription
      modifies this`subscriptions, subscription
      ensures Valid() && issued == old(issued)
      ensures Now() == Cancelled(old(Now()), at)
    {
      subscription.End();
      subscriptions := subscriptions - {subscription};
      ghost var after := Cancelled(old(Now()), at).subscribers;
      hide States;
      forall i | 0 <= i < |issued|
        ensures States(issued)[i] == after[i]
      {
        assert issued[i] == subscription <==> i == at;
      }
      assert States(issued) == after;
    }

    /** `seam`: declare where the window will begin. */
    method DeclareSeam(declared: FeedSeam) returns (refused: Option<FeedError>)
      requires Valid()
      modifies this`seam
      ensures Valid() && issued == old(issued)
      ensures Now() == Seamed(old(Now()), declared)
      ensures refused.None? <==> SeamDescribesAWindow(declared)
    {
      if !IsSafeInteger(declared.resumesAt) || declared.resumesAt < FIRST_SEQUENCE {
        return Some(BadSeam);
      }
      if !IsSafeInteger(declared.publishedThrough) || declared.publishedThrough >= declared.resumesAt {
        return Some(BadSeam);
      }
      seam := Some(declared);
      return None;
    }

    /** `forget`: close the subscribers and drop the window. A later publication is a new run. */
    method Retire()
      requires Valid()
      modifies this, issued
      ensures Valid() && issued == old(issued)
      ensures Now() == Forgotten(old(Now()))
    {
      hide EndAll, States;
      EndEveryone();
      history, seam := [], None;
      runs := runs + [[]];
    }

    method EndEveryone()
      requires Valid()
      modifies this`subscriptions, issued
      ensures Valid() && issued == old(issued)
      ensures States(issued) == EndAll(old(States(issued)))
    {
      EndEach();
    }

    method EndEach()
      requires Valid()
      modifies this`subscriptions, issued
      ensures Valid() && issued == old(issued)
      ensures forall s :: s in issued ==> s.Now() == old(s.Now()).(active := false)
    {
      hide States;
      var remaining := subscriptions;
      while remaining != {}
        invariant remaining <= subscriptions == old(subscriptions)
        invariant forall s :: s in issued ==>
          s.Now() == if s in remaining then old(s.Now()) else old(s.Now()).(active := false)
        decreases |remaining|
      {
        var s :| s in remaining;
        s.End();
        remaining := remaining - {s};
      }
      subscriptions := {};
    }
  }

  lemma PublishedIs(retain: nat, c: Channel, ticks: seq<Tick>)
    requires c.runs != []
    ensures Published(retain, c, ticks) ==
      if ticks == [] || !Continues(c.history, ticks) then c
      else
        var n := |c.runs| - 1;
        Channel(Newest(c.history + ticks, retain), None, c.runs[n := c.runs[n] + ticks], OfferAll(c.subscribers, ticks))
  {
    hide Continues, Newest, OfferAll;
  }

  /** A batch is not offered to a subscription that has ended. */
  lemma OfferKeepsEnded(ticks: seq<Tick>)
    requires ticks != []
    ensures forall s: Subscriber :: !s.active ==> Offer(s, ticks) == s
  {
  }
}
