/**
Which live ticks are drawn, and of what (packages/chart/src/bars.ts): a client that joins in the
middle of a bucket draws nothing until it holds one whole, unless the stream continues the record.
*/
module LiveBarJoins {
  import opened Prelude
  import opened LiveBars
  import LiveBarRuns
  import Reductions

  // ---------------------------------------------------------------- buckets

  /** A bucket starts on the grid from the epoch, at or before its instants, and lasts the duration. */
  lemma BucketHolds(instant: int, durationMs: int, start: int)
    requires durationMs > 0
    ensures start == BucketStart(instant, durationMs) <==>
      start % durationMs == 0 && start <= instant < start + durationMs
  {
    var q, r := instant / durationMs, instant % durationMs;
    assert instant == durationMs * q + r;
    OnGrid(q, durationMs);
    if start % durationMs == 0 && start <= instant < start + durationMs {
      var p := start / durationMs;
      assert start == durationMs * p;
      SameMultiple(p, q, r, durationMs, instant - start);
    }
  }

  lemma OnGrid(q: int, d: int)
    requires d > 0
    ensures (d * q) % d == 0
  {
    var k, m := (d * q) / d, (d * q) % d;
    assert d * q == d * k + m;
    assert d * (q - k) == m;
    if q - k >= 1 {
      Scales(d, q - k);
    } else if q - k <= -1 {
      Scales(d, k - q);
    }
  }

  lemma SameMultiple(p: int, q: int, r: int, d: int, s: int)
    requires d > 0 && 0 <= r < d && 0 <= s < d && d * p + s == d * q + r
    ensures p == q
  {
    assert d * (p - q) == r - s;
    if p - q >= 1 {
      Scales(d, p - q);
    } else if p - q <= -1 {
      Scales(d, q - p);
    }
  }

  lemma Scales(d: int, k: int)
    requires d > 0 && k >= 1
    ensures d * k >= d
  {
  }

  // ---------------------------------------------------------------- one tick

  /** The bucket is after everything drawn from history. */
  predicate AfterHistory(settings: Settings, start: int) {
    settings.historyThroughMs.Some? ==> start > settings.historyThroughMs.value
  }

  /** The bucket began after this client's stream opened. */
  predicate AfterOpening(settings: Settings, start: int)
    requires settings.durationMs > 0
  {
    settings.openedAtMs.Some? ==> start > BucketStart(settings.openedAtMs.value, settings.durationMs)
  }

  /** The resume claim stands once this tick is seen: it was made, never broken, and met by the first new tick. */
  predicate ClaimStands(settings: Settings, s: State, tick: Tick) {
    && settings.resumedAtSequence.Some? && !s.joinBroken
    && (s.joinChecked || tick.sequence == settings.resumedAtSequence.value)
  }

  /**
  Exactly when a tick is drawn, in any state: it is no replay, its bucket is after history, and
  either the bucket began after the stream opened or the stream continues the record. A replay
  changes nothing, and a tick that is not drawn leaves the bar as it was.
  */
  lemma DrawsIff(settings: Settings, s: State, tick: Tick)
    requires settings.durationMs > 0
    ensures var start := BucketStart(tick.instant, settings.durationMs);
      var (after, drawn) := Accepted(settings, s, tick);
      var isNew := s.lastSequence.Some? ==> tick.sequence > s.lastSequence.value;
      && (drawn.Some? <==>
        isNew && AfterHistory(settings, start) && (AfterOpening(settings, start) || ClaimStands(settings, s, tick)))
      && (drawn.Some? ==> after.open == drawn)
      && (drawn.None? ==> after.open == s.open)
      && (!isNew ==> after == s)
      && (isNew ==> after.lastSequence == Some(tick.sequence) && after.seeded == s.seeded)
      && (isNew && settings.resumedAtSequence.Some? ==>
        after.joinChecked && (after.joinBroken <==> !ClaimStands(settings, s, tick)))
  {
    hide BucketStart;
  }

  /** Exactly when a seed is refused: it would move the bar back, or its bars are not of one bucket. */
  lemma SeedRefusedIff(settings: Settings, s: State, bars: seq<Candle>)
    requires settings.durationMs > 0 && bars != []
    ensures var start := BucketStart(bars[0].openInstant, settings.durationMs);
      var back := (s.open.Some? && start < s.open.value.time * 1000) || (s.seeded.Some? && start < s.seeded.value);
      && (SeedFault(settings, s, bars) == Some(MovesBackwards) <==> back)
      && (SeedFault(settings, s, bars).None? <==>
        !back && forall i :: 0 <= i < |bars| ==> BucketStart(bars[i].openInstant, settings.durationMs) == start)
  {
    hide BucketStart;
  }

  // ---------------------------------------------------------------- a stream that was never seeded

  /** A stream whose first tick is this one may draw a bucket. */
  predicate MayDraw(settings: Settings, first: Tick, start: int)
    requires settings.durationMs > 0
  {
    AfterHistory(settings, start)
    && (AfterOpening(settings, start) || settings.resumedAtSequence == Some(first.sequence))
  }

  /** What a builder that was never seeded is, after these live ticks. */
  ghost predicate Follows(settings: Settings, live: seq<Tick>, s: State)
    requires settings.durationMs > 0 && live != []
  {
    var last := live[|live| - 1];
    var start := BucketStart(last.instant, settings.durationMs);
    && s.lastSequence == Some(last.sequence) && s.seeded.None?
    && s.joinChecked == settings.resumedAtSequence.Some?
    && (s.joinBroken <==> settings.resumedAtSequence.Some? && settings.resumedAtSequence.value != live[0].sequence)
    && (!MayDraw(settings, live[0], start) ==> s.open.None?)
    && (MayDraw(settings, live[0], start) ==>
      && PricesIn(live, settings.durationMs, start) != []
      && s.open == Some(FullBar(settings, start, PricesIn(live, settings.durationMs, start))))
  }

  lemma {:induction false} NewestIsIn(live: seq<Tick>, durationMs: int)
    requires durationMs > 0 && live != []
    ensures PricesIn(live, durationMs, BucketStart(live[|live| - 1].instant, durationMs)) != []
  {
    hide BucketStart;
  }

  lemma MayDrawLater(settings: Settings, first: Tick, earlier: int, later: int)
    requires settings.durationMs > 0 && earlier <= later && MayDraw(settings, first, earlier)
    ensures MayDraw(settings, first, later)
  {
  }

  lemma {:induction false} PricesGrow(live: seq<Tick>, tick: Tick, durationMs: int)
    requires durationMs > 0
    ensures var start := BucketStart(tick.instant, durationMs);
      PricesIn(live + [tick], durationMs, start) == PricesIn(live, durationMs, start) + [tick.price]
  {
    hide BucketStart;
    assert (live + [tick])[..|live|] == live;
  }

  /** One more live tick of a record. */
  lemma {:induction false} FollowsNext(settings: Settings, live: seq<Tick>, s: State, tick: Tick)
    requires WholeSeconds(settings.durationMs) && Monotone(settings.display)
    requires live != [] && IsRecord(live + [tick]) && Follows(settings, live, s)
    ensures Follows(settings, live + [tick], Accepted(settings, s, tick).0)
    ensures Accepted(settings, s, tick).1.Some? <==>
      MayDraw(settings, live[0], BucketStart(tick.instant, settings.durationMs))
  {
    var d, n := settings.durationMs, |live|;
    var all := live + [tick];
    assert all[n - 1] == live[n - 1] && all[n] == tick && all[0] == live[0];
    assert all[n].sequence == all[n - 1].sequence + 1;
    var was, start := BucketStart(live[n - 1].instant, d), BucketStart(tick.instant, d);
    StartMonotone(live[n - 1].instant, tick.instant, d);
    StartInSeconds(live[n - 1].instant, d);
    StartInSeconds(tick.instant, d);
    PricesGrow(live, tick, d);
    if was < start {
      LaterBucketIsNew(live, tick, d);
    }
    if MayDraw(settings, live[0], was) {
      MayDrawLater(settings, live[0], was, start);
    }
    WholeStart(start);
    hide BucketStart, PricesIn, IsRecord, Reductions.High, Reductions.Low;
    if MayDraw(settings, live[0], start) {
      OpenBefore(settings, live, s, was, start);
      DrawnIsFullIff(settings, s.open, start, PricesIn(live, d, start), tick.price);
    }
    hide Monotone, Drawn, FullBar, AllDisplay;
    DrawsIff(settings, s, tick);
  }

  lemma WholeStart(start: int)
    requires start / 1000 * 1000 == start
    ensures start % 1000 == 0
  {
  }

  /** What is drawn is of this bucket, or of one before it. */
  lemma OpenBefore(settings: Settings, live: seq<Tick>, s: State, was: int, start: int)
    requires settings.durationMs > 0 && live != [] && Follows(settings, live, s)
    requires was == BucketStart(live[|live| - 1].instant, settings.durationMs) && was <= start
    requires was / 1000 * 1000 == was && start / 1000 * 1000 == start
    requires was < start ==> PricesIn(live, settings.durationMs, start) == []
    requires MayDraw(settings, live[0], start)
    requires PricesIn(live, settings.durationMs, was) != []
    ensures var prices := PricesIn(live, settings.durationMs, start);
      && (prices == [] ==> s.open.Some? ==> s.open.value.time * 1000 != start)
      && (prices != [] ==> s.open == Some(FullBar(settings, start, prices)))
  {
    hide BucketStart, PricesIn, Reductions.High, Reductions.Low;
  }

  lemma OnePriceIn(first: Tick, durationMs: int)
    requires durationMs > 0
    ensures PricesIn([first], durationMs, BucketStart(first.instant, durationMs)) == [first.price]
  {
    hide BucketStart;
    assert [first][..0] == [];
  }

  /** The first bar of a bucket is one price. */
  lemma FirstBar(settings: Settings, open: Option<Bar>, start: int, price: int)
    requires open.None?
    ensures Drawn(open, start, settings.display(price)) == FullBar(settings, start, [price])
  {
    Reductions.OnePrice(price);
    hide Reductions.High, Reductions.Low;
  }

  lemma {:induction false} FirstFollows(settings: Settings, first: Tick)
    requires WholeSeconds(settings.durationMs)
    ensures Follows(settings, [first], Accepted(settings, UNSEEDED, first).0)
    ensures Accepted(settings, UNSEEDED, first).1.Some? <==>
      MayDraw(settings, first, BucketStart(first.instant, settings.durationMs))
  {
    OnePriceIn(first, settings.durationMs);
    FirstBar(settings, None, BucketStart(first.instant, settings.durationMs), first.price);
    DrawsIff(settings, UNSEEDED, first);
    hide BucketStart, PricesIn, Drawn, FullBar;
  }

  lemma {:induction false} LiveFollows(settings: Settings, live: seq<Tick>, n: nat)
    requires WholeSeconds(settings.durationMs) && Monotone(settings.display) && IsRecord(live) && n < |live|
    ensures var s := AcceptAll(settings, UNSEEDED, live[..n]);
      && Follows(settings, live[..n + 1], Accepted(settings, s, live[n]).0)
      && (Accepted(settings, s, live[n]).1.Some? <==>
        MayDraw(settings, live[0], BucketStart(live[n].instant, settings.durationMs)))
    decreases n
  {
    hide Follows, Accepted, Monotone, MayDraw, BucketStart;
    if n == 0 {
      FirstFollows(settings, live[0]);
      assert live[..1] == [live[0]] && live[..0] == [];
    } else {
      LiveFollows(settings, live, n - 1);
      LiveBarRuns.AcceptSteps(settings, UNSEEDED, live, n - 1);
      hide AcceptAll;
      assert live[..n + 1] == live[..n] + [live[n]];
      PartOfRecord(live, n + 1);
      FollowsNext(settings, live[..n], AcceptAll(settings, UNSEEDED, live[..n]), live[n]);
    }
  }

  lemma PartOfRecord(record: seq<Tick>, n: nat)
    requires IsRecord(record) && n <= |record|
    ensures IsRecord(record[..n])
  {
  }

  /** The bucket holds nothing of what came before the stream. */
  predicate Unbegun(settings: Settings, record: seq<Tick>, start: int)
    requires settings.durationMs > 0
  {
    record != [] ==> BucketStart(record[|record| - 1].instant, settings.durationMs) < start
  }

  lemma {:induction false} UnbegunHoldsAll(settings: Settings, record: seq<Tick>, live: seq<Tick>, start: int)
    requires settings.durationMs > 0 && IsRecord(record) && Unbegun(settings, record, start)
    ensures PricesIn(record + live, settings.durationMs, start) == PricesIn(live, settings.durationMs, start)
  {
    LiveBarRuns.PricesJoin(record, live, settings.durationMs, start);
    forall i | 0 <= i < |record|
      ensures BucketStart(record[i].instant, settings.durationMs) < start
    {
      StartMonotone(record[i].instant, record[|record| - 1].instant, settings.durationMs);
    }
    hide BucketStart;
    NoneInLaterBucket(record, settings.durationMs, start);
  }

  /**
  A stream joined to a record at any place, and never seeded: its n-th tick is drawn exactly when its
  bucket may be, and what is drawn is the fold of every tick the stream has brought of that bucket,
  which is the record's whole bar when the bucket had not begun before the stream.
  */
  lemma {:induction false} JoinedDraws(settings: Settings, record: seq<Tick>, live: seq<Tick>, n: nat)
    requires WholeSeconds(settings.durationMs) && Monotone(settings.display)
    requires IsRecord(record + live) && n < |live|
    ensures var start := BucketStart(live[n].instant, settings.durationMs);
      var drawn := Accepted(settings, AcceptAll(settings, UNSEEDED, live[..n]), live[n]).1;
      && (drawn.Some? <==> MayDraw(settings, live[0], start))
      && (drawn.Some? ==>
        && PricesIn(live[..n + 1], settings.durationMs, start) != []
        && drawn.value == FullBar(settings, start, PricesIn(live[..n + 1], settings.durationMs, start)))
      && (drawn.Some? && Unbegun(settings, record, start) ==>
        && PricesIn(record + live[..n + 1], settings.durationMs, start) != []
        && drawn.value == FullBar(settings, start, PricesIn(record + live[..n + 1], settings.durationMs, start)))
  {
    hide Monotone, MayDraw, BucketStart, PricesIn, FullBar, Unbegun, AcceptAll;
    SplitRecord(record, live);
    LiveFollows(settings, live, n);
    var s, start := AcceptAll(settings, UNSEEDED, live[..n]), BucketStart(live[n].instant, settings.durationMs);
    assert live[..n + 1][n] == live[n] && live[..n + 1][0] == live[0];
    DrawsIff(settings, s, live[n]);
    hide Accepted, IsRecord;
    if Unbegun(settings, record, start) {
      UnbegunHoldsAll(settings, record, live[..n + 1], start);
    }
  }

  lemma SplitRecord(record: seq<Tick>, live: seq<Tick>)
    requires IsRecord(record + live)
    ensures IsRecord(record) && IsRecord(live)
  {
    var all := record + live;
    assert forall i :: 0 <= i < |record| ==> all[i] == record[i];
    assert forall i :: 0 <= i < |live| ==> all[|record| + i] == live[i];
  }

  /**
  No bar is drawn out of a fragment: where the stream opened no earlier than the newest tick it did
  not bring, and made no claim that its first tick met, every bar drawn is the record's whole bar.
  */
  lemma {:induction false} NoFragmentIsDrawn(settings: Settings, record: seq<Tick>, live: seq<Tick>, n: nat)
    requires WholeSeconds(settings.durationMs) && Monotone(settings.display)
    requires IsRecord(record + live) && n < |live|
    requires settings.openedAtMs.Some? && (record != [] ==> record[|record| - 1].instant <= settings.openedAtMs.value)
    requires settings.resumedAtSequence != Some(live[0].sequence)
    ensures var start := BucketStart(live[n].instant, settings.durationMs);
      var drawn := Accepted(settings, AcceptAll(settings, UNSEEDED, live[..n]), live[n]).1;
      drawn.Some? ==>
        && PricesIn(record + live[..n + 1], settings.durationMs, start) != []
        && drawn.value == FullBar(settings, start, PricesIn(record + live[..n + 1], settings.durationMs, start))
  {
    JoinedDraws(settings, record, live, n);
    if record != [] {
      StartMonotone(record[|record| - 1].instant, settings.openedAtMs.value, settings.durationMs);
    }
    hide Accepted, AcceptAll, Monotone, BucketStart, PricesIn, FullBar, IsRecord;
  }

  /** Nor where the stream continues a record whose newest bucket is drawn from history. */
  lemma {:induction false} NoFragmentAfterHistory(settings: Settings, record: seq<Tick>, live: seq<Tick>, n: nat)
    requires WholeSeconds(settings.durationMs) && Monotone(settings.display)
    requires IsRecord(record + live) && n < |live|
    requires record != [] ==>
      && settings.historyThroughMs.Some?
      && BucketStart(record[|record| - 1].instant, settings.durationMs) <= settings.historyThroughMs.value
    ensures var start := BucketStart(live[n].instant, settings.durationMs);
      var drawn := Accepted(settings, AcceptAll(settings, UNSEEDED, live[..n]), live[n]).1;
      drawn.Some? ==>
        && PricesIn(record + live[..n + 1], settings.durationMs, start) != []
        && drawn.value == FullBar(settings, start, PricesIn(record + live[..n + 1], settings.durationMs, start))
  {
    JoinedDraws(settings, record, live, n);
    hide Accepted, AcceptAll, Monotone, BucketStart, PricesIn, FullBar, IsRecord;
  }
}
