/**
The bar being formed at the live edge of a chart (packages/chart/src/bars.ts): live ticks
folded onto a seed from the record.
*/
module LiveBars {
  import opened Prelude
  import Reductions

  /** What a chart draws. Time is in seconds. */
  datatype Bar = Bar(time: int, open: real, high: real, low: real, close: real)

  /** The fields of a stored bar that a seed reads. */
  datatype Candle = Candle(openInstant: int, open: int, high: int, low: int, close: int)

  datatype SeriesError = MovesBackwards | OutsideBucket

  /** What a builder is constructed with. */
  datatype Settings = Settings(
    durationMs: int,
    display: int -> real,
    historyThroughMs: Option<int>,
    openedAtMs: Option<int>,
    resumedAtSequence: Option<int>)

  datatype State = State(
    open: Option<Bar>,
    lastSequence: Option<int>,
    seeded: Option<int>,
    joinChecked: bool,
    joinBroken: bool)

  const UNSEEDED := State(None, None, None, false, false)

  /** The multiple of the duration at or before an instant. */
  function BucketStart(instant: int, durationMs: int): int
    requires durationMs > 0
  {
    instant - instant % durationMs
  }

  // ---------------------------------------------------------------- accept

  predicate Gapless(settings: Settings, s: State) {
    settings.resumedAtSequence.Some? && !s.joinBroken
  }

  /** The claim about where the stream resumes is compared with the first new tick, once. */
  function Joined(settings: Settings, s: State, tick: Tick): State {
    var checked :=
      if settings.resumedAtSequence.Some? && !s.joinChecked then
        s.(joinChecked := true, joinBroken := s.joinBroken || tick.sequence != settings.resumedAtSequence.value)
      else s;
    checked.(lastSequence := Some(tick.sequence))
  }

  /** A bucket that had begun is the record's, unless the stream continues the record. */
  predicate IsOurs(settings: Settings, s: State, start: int)
    requires settings.durationMs > 0
  {
    && (settings.historyThroughMs.Some? ==> start > settings.historyThroughMs.value)
    && (!Gapless(settings, s) && settings.openedAtMs.Some? ==>
      start > BucketStart(settings.openedAtMs.value, settings.durationMs))
  }

  /** The drawn bar with one more price, or a new one. */
  function Drawn(open: Option<Bar>, start: int, price: real): Bar {
    if open.None? || open.value.time * 1000 != start then Bar(start / 1000, price, price, price, price)
    else
      var bar := open.value;
      Bar(bar.time, bar.open, if price > bar.high then price else bar.high, if price < bar.low then price else bar.low, price)
  }

  function Accepted(settings: Settings, s: State, tick: Tick): (State, Option<Bar>)
    requires settings.durationMs > 0
  {
    if s.lastSequence.Some? && tick.sequence <= s.lastSequence.value then (s, None)
    else
      var joined := Joined(settings, s, tick);
      var start := BucketStart(tick.instant, settings.durationMs);
      if !IsOurs(settings, joined, start) then (joined, None)
      else
        var bar := Drawn(joined.open, start, settings.display(tick.price));
        (joined.(open := Some(bar)), Some(bar))
  }

  // ---------------------------------------------------------------- seedFrom

  function HighOf(bars: seq<Candle>): int
    requires bars != []
  {
    var n := |bars| - 1;
    if n == 0 then bars[0].high
    else if bars[n].high > HighOf(bars[..n]) then bars[n].high else HighOf(bars[..n])
  }

  function LowOf(bars: seq<Candle>): int
    requires bars != []
  {
    var n := |bars| - 1;
    if n == 0 then bars[0].low
    else if bars[n].low < LowOf(bars[..n]) then bars[n].low else LowOf(bars[..n])
  }

  /** The newest bucket drawn or seeded. */
  function Newest(s: State): Option<int> {
    var drawn := if s.open.Some? then Some(s.open.value.time * 1000) else None;
    if s.seeded.None? then drawn
    else if drawn.None? || drawn.value < s.seeded.value then s.seeded
    else drawn
  }

  function SeedFault(settings: Settings, s: State, bars: seq<Candle>): Option<SeriesError>
    requires settings.durationMs > 0 && bars != []
  {
    var start := BucketStart(bars[0].openInstant, settings.durationMs);
    if Newest(s).Some? && start < Newest(s).value then Some(MovesBackwards)
    else if exists i :: 0 <= i < |bars| && BucketStart(bars[i].openInstant, settings.durationMs) != start then
      Some(OutsideBucket)
    else None
  }

  function SeedBar(settings: Settings, bars: seq<Candle>): Bar
    requires settings.durationMs > 0 && bars != []
  {
    Bar(BucketStart(bars[0].openInstant, settings.durationMs) / 1000,
        settings.display(bars[0].open), settings.display(HighOf(bars)),
        settings.display(LowOf(bars)), settings.display(bars[|bars| - 1].close))
  }

  function Seeded(settings: Settings, s: State, bars: seq<Candle>, throughSequence: int): State
    requires settings.durationMs > 0
  {
    if bars == [] || SeedFault(settings, s, bars).Some? then s
    else
      s.(open := Some(SeedBar(settings, bars)), lastSequence := Some(throughSequence),
         seeded := Some(BucketStart(bars[0].openInstant, settings.durationMs)))
  }

  class LiveBarBuilder {
    const settings: Settings
    var open: Option<Bar>
    var lastSequence: Option<int>
    var seeded: Option<int>
    var joinChecked: bool
    var joinBroken: bool

    ghost function Now(): State
      reads this
    {
      State(open, lastSequence, seeded, joinChecked, joinBroken)
    }

    constructor (settings: Settings)
      requires settings.durationMs > 0
      ensures Now() == UNSEEDED && this.settings == settings
    {
      this.settings := settings;
      open, lastSequence, seeded, joinChecked, joinBroken := None, None, None, false, false;
    }

    method Accept(tick: Tick) returns (drawn: Option<Bar>)
      requires settings.durationMs > 0
      modifies this
      ensures (Now(), drawn) == Accepted(settings, old(Now()), tick)
    {
      if lastSequence.Some? && tick.sequence <= lastSequence.value {
        return None;
      }
      if settings.resumedAtSequence.Some? && !joinChecked {
        joinChecked := true;
        if tick.sequence != settings.resumedAtSequence.value {
          joinBroken := true;
        }
      }
      lastSequence := Some(tick.sequence);
      var start := BucketStart(tick.instant, settings.durationMs);
      if settings.historyThroughMs.Some? && start <= settings.historyThroughMs.value {
        return None;
      }
      var gapless := settings.resumedAtSequence.Some? && !joinBroken;
      if !gapless && settings.openedAtMs.Some? && start <= BucketStart(settings.openedAtMs.value, settings.durationMs) {
        return None;
      }
      var price := settings.display(tick.price);
      if open.None? || open.value.time * 1000 != start {
        open := Some(Bar(start / 1000, price, price, price, price));
        return open;
      }
      var bar := open.value;
      if price > bar.high {
        bar := bar.(high := price);
      }
      if price < bar.low {
        bar := bar.(low := price);
      }
      open := Some(bar.(close := price));
      return open;
    }

    method SeedFrom(bars: seq<Candle>, throughSequence: int) returns (fault: Option<SeriesError>)
      requires settings.durationMs > 0
      modifies this
      ensures Now() == Seeded(settings, old(Now()), bars, throughSequence)
      ensures fault == if bars == [] then None else SeedFault(settings, old(Now()), bars)
    {
      if |bars| == 0 {
        return None;
      }
      var start := BucketStart(bars[0].openInstant, settings.durationMs);
      var newest := Newest(State(open, lastSequence, seeded, joinChecked, joinBroken));
      if newest.Some? && start < newest.value {
        return Some(MovesBackwards);
      }
      var high, low := bars[0].high, bars[0].low;
      var i := 0;
      while i < |bars|
        invariant 0 <= i <= |bars|
        invariant forall k :: 0 <= k < i ==> BucketStart(bars[k].openInstant, settings.durationMs) == start
        invariant i == 0 ==> high == bars[0].high && low == bars[0].low
        invariant i > 0 ==> high == HighOf(bars[..i]) && low == LowOf(bars[..i])
      {
        if BucketStart(bars[i].openInstant, settings.durationMs) != start {
          return Some(OutsideBucket);
        }
        assert i > 0 ==> bars[..i + 1][..i] == bars[..i];
        if bars[i].high > high {
          high := bars[i].high;
        }
        if bars[i].low < low {
          low := bars[i].low;
        }
        i := i + 1;
      }
      assert bars[..i] == bars;
      open := Some(Bar(start / 1000, settings.display(bars[0].open), settings.display(high), settings.display(low),
                       settings.display(bars[|bars| - 1].close)));
      lastSequence := Some(throughSequence);
      seeded := Some(start);
      return None;
    }
  }

  // ---------------------------------------------------------------- the full fold

  /** The prices of a record's ticks in one bucket, in order. */
  function PricesIn(record: seq<Tick>, durationMs: int, start: int): seq<int>
    requires durationMs > 0
  {
    if record == [] then []
    else
      var n := |record| - 1;
      PricesIn(record[..n], durationMs, start)
      + if BucketStart(record[n].instant, durationMs) == start then [record[n].price] else []
  }

  /** The bar of some prices, under a price map. */
  function FullBar(settings: Settings, start: int, prices: seq<int>): Bar
    requires prices != []
  {
    Bar(start / 1000, settings.display(prices[0]), settings.display(Reductions.High(prices)),
        settings.display(Reductions.Low(prices)), settings.display(prices[|prices| - 1]))
  }

  ghost predicate Monotone(display: int -> real) {
    forall a, b :: a <= b ==> display(a) <= display(b)
  }

  /** A record: one tick a sequence, and a clock that does not go back. */
  ghost predicate IsRecord(record: seq<Tick>) {
    Contiguous(record) && forall i, j :: 0 <= i <= j < |record| ==> record[i].instant <= record[j].instant
  }

  predicate WholeSeconds(durationMs: int) {
    durationMs > 0 && durationMs % 1000 == 0
  }

  lemma StartInSeconds(instant: int, durationMs: int)
    requires WholeSeconds(durationMs)
    ensures BucketStart(instant, durationMs) / 1000 * 1000 == BucketStart(instant, durationMs)
  {
    var k, q := durationMs / 1000, instant / durationMs;
    assert instant - instant % durationMs == q * durationMs == q * k * 1000;
  }

  lemma StartMonotone(a: int, b: int, durationMs: int)
    requires durationMs > 0 && a <= b
    ensures BucketStart(a, durationMs) <= BucketStart(b, durationMs)
  {
    var p, q := a / durationMs, b / durationMs;
    if p <= q {
      assert p * durationMs <= q * durationMs;
    } else {
      assert (q + 1) * durationMs <= p * durationMs;
    }
  }

  /** The builder shows the whole of the newest tick's bucket, and waits for the tick after it. */
  ghost predicate ShowsAll(settings: Settings, s: State, record: seq<Tick>)
    requires settings.durationMs > 0
  {
    && record != []
    && s.lastSequence == Some(record[|record| - 1].sequence) && !s.joinBroken
    && var start := BucketStart(record[|record| - 1].instant, settings.durationMs);
    && var prices := PricesIn(record, settings.durationMs, start);
    && prices != [] && s.open == Some(FullBar(settings, start, prices))
  }

  /** The stream was asked for the tick after the seed, and has not been found to have answered with another. */
  ghost predicate Resumes(settings: Settings, s: State, next: int) {
    settings.resumedAtSequence.Some? && (!s.joinChecked ==> settings.resumedAtSequence.value == next)
  }

  lemma {:induction false} NoneInLaterBucket(record: seq<Tick>, durationMs: int, start: int)
    requires durationMs > 0
    requires forall i :: 0 <= i < |record| ==> BucketStart(record[i].instant, durationMs) < start
    ensures PricesIn(record, durationMs, start) == []
    decreases |record|
  {
    if record != [] {
      NoneInLaterBucket(record[..|record| - 1], durationMs, start);
    }
  }

  lemma DisplayWidens(settings: Settings, prices: seq<int>, price: int)
    requires Monotone(settings.display) && prices != []
    ensures var longer := prices + [price];
      var high, low := settings.display(Reductions.High(prices)), settings.display(Reductions.Low(prices));
      var shown := settings.display(price);
      && settings.display(Reductions.High(longer)) == (if shown > high then shown else high)
      && settings.display(Reductions.Low(longer)) == (if shown < low then shown else low)
  {
    Reductions.HighLowGrow(prices, price);
    hide Reductions.High, Reductions.Low;
  }

  /** Prices a viewer cannot tell from this one. */
  predicate AllDisplay(settings: Settings, prices: seq<int>, price: int) {
    forall p :: p in prices ==> settings.display(p) == settings.display(price)
  }

  /**
  A bar drawn over the record so far, or for another bucket, with the record's next price: it is
  continued on a bucket that starts on a whole second, and started over on any other.
  */
  lemma DrawnIsFullIff(settings: Settings, open: Option<Bar>, start: int, prices: seq<int>, price: int)
    requires Monotone(settings.display)
    requires prices == [] ==> open.Some? ==> open.value.time * 1000 != start
    requires prices != [] ==> open == Some(FullBar(settings, start, prices))
    ensures Drawn(open, start, settings.display(price)) == FullBar(settings, start, prices + [price])
      <==> start % 1000 == 0 || AllDisplay(settings, prices, price)
  {
    if prices == [] {
      ConcatUnit([price]);
      Reductions.OnePrice(price);
    } else if start % 1000 == 0 {
      DisplayWidens(settings, prices, price);
    } else {
      OneShadeIff(settings, prices, price);
    }
    hide Reductions.High, Reductions.Low, Monotone;
  }

  /** The open, the extremes and the close display alike exactly when every price does. */
  lemma OneShadeIff(settings: Settings, prices: seq<int>, price: int)
    requires Monotone(settings.display) && prices != []
    ensures var longer, shown := prices + [price], settings.display(price);
      && (settings.display(longer[0]) == shown && settings.display(Reductions.High(longer)) == shown
          && settings.display(Reductions.Low(longer)) == shown)
      <==> AllDisplay(settings, prices, price)
  {
    var longer := prices + [price];
    Reductions.HighLowAre(longer);
    hide Reductions.High, Reductions.Low;
    assert longer[0] == prices[0];
    forall p | p in prices
      ensures settings.display(Reductions.Low(longer)) <= settings.display(p) <= settings.display(Reductions.High(longer))
    {
      assert p in longer;
    }
  }

  /**
  One live tick that continues the record: exactly when the drawn bar is still the whole of its
  bucket.
  */
  lemma {:induction false} AcceptShowsAllIff(settings: Settings, s: State, record: seq<Tick>, tick: Tick)
    requires settings.durationMs > 0 && Monotone(settings.display)
    requires IsRecord(record + [tick]) && ShowsAll(settings, s, record)
    requires Resumes(settings, s, tick.sequence)
    requires settings.historyThroughMs.Some? ==>
      BucketStart(record[|record| - 1].instant, settings.durationMs) > settings.historyThroughMs.value
    ensures var start := BucketStart(tick.instant, settings.durationMs);
      ShowsAll(settings, Accepted(settings, s, tick).0, record + [tick])
      <==> start % 1000 == 0 || AllDisplay(settings, PricesIn(record, settings.durationMs, start), tick.price)
    ensures Accepted(settings, s, tick).1 == Accepted(settings, s, tick).0.open
    ensures Accepted(settings, s, tick).0.joinChecked && !Accepted(settings, s, tick).0.joinBroken
  {
    hide Reductions.High, Reductions.Low, BucketStart, Monotone, Drawn, FullBar, AllDisplay;
    var d := settings.durationMs;
    var all := record + [tick];
    var n := |record|;
    assert all[..n] == record && all[n - 1] == record[n - 1] && all[n] == tick;
    assert all[n].sequence == all[n - 1].sequence + 1;
    StartMonotone(record[n - 1].instant, tick.instant, d);
    var was, start := BucketStart(record[n - 1].instant, d), BucketStart(tick.instant, d);
    BarTime(settings, was, PricesIn(record, d, was));
    if was < start {
      LaterBucketIsNew(record, tick, d);
    }
    DrawnIsFullIff(settings, s.open, start, PricesIn(record, d, start), tick.price);
  }

  /** On whole seconds, one live tick that continues the record keeps the drawn bar the whole of its bucket. */
  lemma {:induction false} AcceptShowsAll(settings: Settings, s: State, record: seq<Tick>, tick: Tick)
    requires WholeSeconds(settings.durationMs) && Monotone(settings.display)
    requires IsRecord(record + [tick]) && ShowsAll(settings, s, record)
    requires Resumes(settings, s, tick.sequence)
    requires settings.historyThroughMs.Some? ==>
      BucketStart(record[|record| - 1].instant, settings.durationMs) > settings.historyThroughMs.value
    ensures ShowsAll(settings, Accepted(settings, s, tick).0, record + [tick])
    ensures Accepted(settings, s, tick).1 == Accepted(settings, s, tick).0.open
    ensures Accepted(settings, s, tick).0.joinChecked
  {
    AcceptShowsAllIff(settings, s, record, tick);
    StartInSeconds(tick.instant, settings.durationMs);
    hide ShowsAll, IsRecord, Monotone, Accepted, BucketStart, AllDisplay, Resumes;
  }

  lemma BarTime(settings: Settings, start: int, prices: seq<int>)
    requires prices != []
    ensures FullBar(settings, start, prices).time == start / 1000
  {
  }

  lemma LaterBucketIsNew(record: seq<Tick>, tick: Tick, durationMs: int)
    requires durationMs > 0 && record != [] && IsRecord(record + [tick])
    requires BucketStart(record[|record| - 1].instant, durationMs) < BucketStart(tick.instant, durationMs)
    ensures PricesIn(record, durationMs, BucketStart(tick.instant, durationMs)) == []
  {
    var all := record + [tick];
    forall i | 0 <= i < |record|
      ensures BucketStart(record[i].instant, durationMs) < BucketStart(tick.instant, durationMs)
    {
      assert all[i].instant <= all[|record| - 1].instant;
      StartMonotone(record[i].instant, record[|record| - 1].instant, durationMs);
    }
    NoneInLaterBucket(record, durationMs, BucketStart(tick.instant, durationMs));
  }

  /** Live ticks fed one after the other. */
  function AcceptAll(settings: Settings, s: State, ticks: seq<Tick>): State
    requires settings.durationMs > 0
  {
    if ticks == [] then s
    else Accepted(settings, AcceptAll(settings, s, ticks[..|ticks| - 1]), ticks[|ticks| - 1]).0
  }

  // ---------------------------------------------------------------- the seed

  /** A bar of the record: the fold of a stretch of its ticks in one bucket. */
  predicate FoldsTo(candle: Candle, prices: seq<int>) {
    && prices != []
    && candle.open == prices[0] && candle.close == prices[|prices| - 1]
    && candle.high == Reductions.High(prices) && candle.low == Reductions.Low(prices)
  }

  /** Finer bars that hold, between them, exactly these prices in order: complete minutes of an hour, say. */
  ghost predicate BarsHold(bars: seq<Candle>, groups: seq<seq<int>>, prices: seq<int>) {
    && |bars| == |groups| && bars != [] && Flatten(groups) == prices
    && forall i :: 0 <= i < |bars| ==> FoldsTo(bars[i], groups[i])
  }

  lemma HighLowJoin(a: seq<int>, b: seq<int>)
    requires a != [] && b != []
    ensures Reductions.High(a + b) == if Reductions.High(b) > Reductions.High(a) then Reductions.High(b) else Reductions.High(a)
    ensures Reductions.Low(a + b) == if Reductions.Low(b) < Reductions.Low(a) then Reductions.Low(b) else Reductions.Low(a)
  {
    Reductions.ExtremesJoin(a, b);
    hide Reductions.High, Reductions.Low;
  }

  /** Folding bars is folding what they hold. */
  lemma {:induction false} BarsFold(bars: seq<Candle>, groups: seq<seq<int>>, prices: seq<int>)
    requires BarsHold(bars, groups, prices)
    ensures prices != []
    ensures bars[0].open == prices[0] && bars[|bars| - 1].close == prices[|prices| - 1]
    ensures HighOf(bars) == Reductions.High(prices) && LowOf(bars) == Reductions.Low(prices)
    decreases |bars|
  {
    hide Reductions.High, Reductions.Low;
    var n := |bars| - 1;
    assert FoldsTo(bars[n], groups[n]);
    var front := Flatten(groups[..n]);
    if n == 0 {
      assert groups[..0] == [];
      ConcatUnit(groups[0]);
    } else {
      assert forall i :: 0 <= i < n ==> FoldsTo(bars[..n][i], groups[..n][i]);
      BarsFold(bars[..n], groups[..n], front);
      HighLowJoin(front, groups[n]);
    }
  }

  /** A seed from bars that hold the newest bucket whole shows all of it. */
  lemma {:induction false} SeedShowsAll(settings: Settings, s: State, record: seq<Tick>, bars: seq<Candle>, groups: seq<seq<int>>)
    requires WholeSeconds(settings.durationMs) && record != [] && !s.joinBroken && bars != []
    requires SeedFault(settings, s, bars).None?
    requires var start := BucketStart(record[|record| - 1].instant, settings.durationMs);
      && BucketStart(bars[0].openInstant, settings.durationMs) == start
      && BarsHold(bars, groups, PricesIn(record, settings.durationMs, start))
    ensures ShowsAll(settings, Seeded(settings, s, bars, record[|record| - 1].sequence), record)
  {
    hide Reductions.High, Reductions.Low, BucketStart, HighOf, LowOf, PricesIn;
    BarsFold(bars, groups, PricesIn(record, settings.durationMs, BucketStart(record[|record| - 1].instant, settings.durationMs)));
  }

  /**
  A seeded bar is the full fold: seeded, or seeded again, from bars of the record through sequence
  R - 1 and fed R, R + 1, and so on, the builder shows after every tick the open, high, low and
  close of every tick of the record in the forming bucket, under any price map that keeps order.
  */
  lemma {:induction false} SeededBarIsFullFold(
    settings: Settings, s: State, record: seq<Tick>, bars: seq<Candle>, groups: seq<seq<int>>, live: seq<Tick>)
    requires WholeSeconds(settings.durationMs) && Monotone(settings.display)
    requires record != [] && IsRecord(record + live) && !s.joinBroken && bars != []
    requires SeedFault(settings, s, bars).None?
    requires var start := BucketStart(record[|record| - 1].instant, settings.durationMs);
      && BucketStart(bars[0].openInstant, settings.durationMs) == start
      && BarsHold(bars, groups, PricesIn(record, settings.durationMs, start))
      && (settings.historyThroughMs.Some? ==> start > settings.historyThroughMs.value)
    requires Resumes(settings, s, record[|record| - 1].sequence + 1)
    ensures var seeded := Seeded(settings, s, bars, record[|record| - 1].sequence);
      && ShowsAll(settings, AcceptAll(settings, seeded, live), record + live)
      && AcceptAll(settings, seeded, live).joinChecked == (s.joinChecked || live != [])
    decreases |live|
  {
    hide Reductions.High, Reductions.Low, BucketStart, BarsHold, ShowsAll, SeedFault, Accepted, Monotone, IsRecord;
    var seeded := Seeded(settings, s, bars, record[|record| - 1].sequence);
    if live == [] {
      ConcatUnit(record);
      SeedShowsAll(settings, s, record, bars, groups);
    } else {
      var n := |live| - 1;
      var front, tick := live[..n], live[n];
      assert record + live == (record + front) + [tick];
      RecordPrefix(record + front, tick);
      SeededBarIsFullFold(settings, s, record, bars, groups, front);
      LastStands(settings, record, front);
      NextInLine(record + front, tick, record);
      SettledResume(settings, s, AcceptAll(settings, seeded, front), record, front, tick);
      AcceptShowsAll(settings, AcceptAll(settings, seeded, front), record + front, tick);
    }
  }

  lemma RecordPrefix(record: seq<Tick>, tick: Tick)
    requires IsRecord(record + [tick])
    ensures IsRecord(record)
  {
    var all := record + [tick];
    assert forall i :: 0 <= i < |record| ==> all[i] == record[i];
  }

  /** The newest bucket never precedes the seed's. */
  lemma LastStands(settings: Settings, record: seq<Tick>, live: seq<Tick>)
    requires settings.durationMs > 0 && record != [] && IsRecord(record + live)
    ensures var all := record + live;
      BucketStart(record[|record| - 1].instant, settings.durationMs) <= BucketStart(all[|all| - 1].instant, settings.durationMs)
  {
    var all := record + live;
    assert all[|record| - 1].instant <= all[|all| - 1].instant;
    StartMonotone(all[|record| - 1].instant, all[|all| - 1].instant, settings.durationMs);
  }

  lemma NextInLine(before: seq<Tick>, tick: Tick, record: seq<Tick>)
    requires IsRecord(before + [tick]) && record != [] && record <= before
    ensures |before| == |record| ==> tick.sequence == record[|record| - 1].sequence + 1
  {
    var all := before + [tick];
    assert all[|before|] == tick && all[|record| - 1] == record[|record| - 1];
  }

  lemma SettledResume(settings: Settings, s: State, t: State, record: seq<Tick>, front: seq<Tick>, tick: Tick)
    requires record != [] && t.joinChecked == (s.joinChecked || front != [])
    requires Resumes(settings, s, record[|record| - 1].sequence + 1)
    requires front == [] ==> tick.sequence == record[|record| - 1].sequence + 1
    ensures Resumes(settings, t, tick.sequence)
  {
  }
}
