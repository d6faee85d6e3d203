/**
What a viewer sees of the forming bar (packages/chart/src/bars.ts) over runs of live ticks and
seeds taken from the record: when its range only widens, and exactly when it does not.
*/
module LiveBarRuns {
  import opened Prelude
  import opened LiveBars
  import Reductions

  // ---------------------------------------------------------------- live ticks

  /** A bar whose close lies within its range. */
  predicate Ordered(open: Option<Bar>) {
    open.Some? ==> open.value.low <= open.value.close <= open.value.high
  }

  /** The drawn bar is not of a later bucket than this instant's. */
  predicate NotAhead(settings: Settings, open: Option<Bar>, instant: int)
    requires settings.durationMs > 0
  {
    open.Some? ==> open.value.time * 1000 <= BucketStart(instant, settings.durationMs)
  }

  /** One drawing after another: never an earlier bar, and the same bar only with the same open and a wider range. */
  predicate OnlyWidens(before: Option<Bar>, after: Option<Bar>) {
    before.Some? ==>
      && after.Some? && before.value.time <= after.value.time
      && (before.value.time == after.value.time ==>
        && before.value.open == after.value.open
        && before.value.high <= after.value.high && after.value.low <= before.value.low)
  }

  predicate ClockKeeps(ticks: seq<Tick>) {
    forall i, j :: 0 <= i <= j < |ticks| ==> ticks[i].instant <= ticks[j].instant
  }

  lemma OnlyWidensTransits(a: Option<Bar>, b: Option<Bar>, c: Option<Bar>)
    requires OnlyWidens(a, b) && OnlyWidens(b, c)
    ensures OnlyWidens(a, c)
  {
  }

  lemma TickOnlyWidens(settings: Settings, s: State, tick: Tick)
    requires WholeSeconds(settings.durationMs) && Ordered(s.open) && NotAhead(settings, s.open, tick.instant)
    ensures var after := Accepted(settings, s, tick).0;
      && OnlyWidens(s.open, after.open) && Ordered(after.open)
      && NotAhead(settings, after.open, tick.instant)
  {
    StartInSeconds(tick.instant, settings.durationMs);
    hide BucketStart;
  }

  lemma {:induction false} AcceptSteps(settings: Settings, s: State, ticks: seq<Tick>, n: nat)
    requires settings.durationMs > 0 && n < |ticks|
    ensures AcceptAll(settings, s, ticks[..n + 1]) == Accepted(settings, AcceptAll(settings, s, ticks[..n]), ticks[n]).0
  {
    assert ticks[..n + 1][..n] == ticks[..n];
    hide Accepted;
  }

  lemma {:induction false} RunStands(settings: Settings, s: State, ticks: seq<Tick>, n: nat)
    requires WholeSeconds(settings.durationMs) && ClockKeeps(ticks) && n <= |ticks|
    requires Ordered(s.open) && (ticks != [] ==> NotAhead(settings, s.open, ticks[0].instant))
    ensures Ordered(AcceptAll(settings, s, ticks[..n]).open)
    ensures n < |ticks| ==> NotAhead(settings, AcceptAll(settings, s, ticks[..n]).open, ticks[n].instant)
    decreases n
  {
    hide BucketStart, Accepted, Ordered;
    if n > 0 {
      RunStands(settings, s, ticks, n - 1);
      AcceptSteps(settings, s, ticks, n - 1);
      TickOnlyWidens(settings, AcceptAll(settings, s, ticks[..n - 1]), ticks[n - 1]);
      if n < |ticks| {
        StartMonotone(ticks[n - 1].instant, ticks[n].instant, settings.durationMs);
      }
      hide AcceptAll;
    }
  }

  /**
  Over any run of live ticks on a clock that does not go back, whatever is skipped and whatever
  gaps the stream has: the forming bar never moves to an earlier bucket, and while it is of one
  bucket it keeps its open and its range only widens.
  */
  lemma {:induction false} LiveRunOnlyWidens(settings: Settings, s: State, ticks: seq<Tick>, i: nat, j: nat)
    requires WholeSeconds(settings.durationMs) && ClockKeeps(ticks) && i <= j <= |ticks|
    requires Ordered(s.open) && (ticks != [] ==> NotAhead(settings, s.open, ticks[0].instant))
    ensures OnlyWidens(AcceptAll(settings, s, ticks[..i]).open, AcceptAll(settings, s, ticks[..j]).open)
    decreases j
  {
    hide BucketStart, Accepted, ClockKeeps, NotAhead, Ordered;
    if i < j {
      LiveRunOnlyWidens(settings, s, ticks, i, j - 1);
      RunStands(settings, s, ticks, j - 1);
      AcceptSteps(settings, s, ticks, j - 1);
      var before := AcceptAll(settings, s, ticks[..j - 1]);
      TickOnlyWidens(settings, before, ticks[j - 1]);
      OnlyWidensTransits(AcceptAll(settings, s, ticks[..i]).open, before.open, AcceptAll(settings, s, ticks[..j]).open);
      hide AcceptAll, OnlyWidens;
    }
  }

  // ---------------------------------------------------------------- seeding again

  /** No seed moves the forming bar to an earlier bucket. */
  lemma SeedNeverMovesBack(settings: Settings, s: State, bars: seq<Candle>, throughSequence: int)
    requires settings.durationMs > 0 && s.open.Some?
    ensures var after := Seeded(settings, s, bars, throughSequence);
      after.open.Some? && after.open.value.time >= s.open.value.time
  {
  }

  /** The prices of a stretch of a record, of one bucket, in order. */
  lemma {:induction false} PricesJoin(a: seq<Tick>, b: seq<Tick>, durationMs: int, start: int)
    requires durationMs > 0
    ensures PricesIn(a + b, durationMs, start) == PricesIn(a, durationMs, start) + PricesIn(b, durationMs, start)
    decreases |b|
  {
    hide BucketStart;
    if b == [] {
      assert a + b == a;
    } else {
      var n := |b| - 1;
      assert (a + b)[..|a| + n] == a + b[..n];
      PricesJoin(a, b[..n], durationMs, start);
    }
  }

  /** These prices are drawn inside the range of those. */
  predicate Within(settings: Settings, prices: seq<int>, range: seq<int>)
    requires range != []
  {
    forall p :: p in prices ==>
      settings.display(Reductions.Low(range)) <= settings.display(p) <= settings.display(Reductions.High(range))
  }

  /** A bar of a stretch of prices is as wide as the bar of more of them exactly when the rest is drawn inside it. */
  lemma KeepsRangeIff(settings: Settings, start: int, part: seq<int>, rest: seq<int>)
    requires Monotone(settings.display) && part != []
    ensures var whole, less := FullBar(settings, start, part + rest), FullBar(settings, start, part);
      && whole.open == less.open
      && (less.high >= whole.high && less.low <= whole.low <==> Within(settings, rest, part))
      && whole.high >= less.high && whole.low <= less.low
  {
    if rest == [] {
      ConcatUnit(part);
    } else {
      HighLowJoin(part, rest);
      Reductions.HighLowAre(rest);
    }
    hide Reductions.High, Reductions.Low;
  }

  /** What a seed through the first k ticks of the record is: bars that hold its bucket's prices so far. */
  ghost predicate SeedOf(settings: Settings, bars: seq<Candle>, groups: seq<seq<int>>, record: seq<Tick>, k: nat)
    requires settings.durationMs > 0 && 0 < k <= |record|
  {
    var start := BucketStart(record[k - 1].instant, settings.durationMs);
    && bars != [] && BucketStart(bars[0].openInstant, settings.durationMs) == start
    && BarsHold(bars, groups, PricesIn(record[..k], settings.durationMs, start))
  }

  /** What the record holds between two of its prefixes, of one bucket. */
  function PricesBetween(record: seq<Tick>, a: nat, b: nat, durationMs: int, start: int): seq<int>
    requires durationMs > 0 && b <= |record|
  {
    if a < b then PricesIn(record[a..b], durationMs, start) else []
  }

  /**
  A bar drawn through the first m ticks of the record, seeded again in its own bucket through the
  first k: the time and the open stand, and the range is kept exactly when every tick the seed
  leaves out is drawn inside the seed's range. A seed through at least the newest tick drawn always
  keeps it; one through less can take a spike back.
  */
  lemma {:induction false} ReseedKeepsRangeIff(
    settings: Settings, s: State, record: seq<Tick>, m: nat, k: nat, bars: seq<Candle>, groups: seq<seq<int>>)
    requires settings.durationMs > 0 && Monotone(settings.display)
    requires 0 < m <= |record| && 0 < k <= |record|
    requires ShowsAll(settings, s, record[..m]) && SeedOf(settings, bars, groups, record, k)
    requires BucketStart(record[m - 1].instant, settings.durationMs) == BucketStart(record[k - 1].instant, settings.durationMs)
    requires SeedFault(settings, s, bars).None?
    ensures var start := BucketStart(record[k - 1].instant, settings.durationMs);
      var seed := PricesIn(record[..k], settings.durationMs, start);
      var before, after := s.open, Seeded(settings, s, bars, record[k - 1].sequence).open;
      && seed != [] && before.Some? && after == Some(FullBar(settings, start, seed))
      && after.value.time == before.value.time && after.value.open == before.value.open
      && (OnlyWidens(before, after) <==> Within(settings, PricesBetween(record, k, m, settings.durationMs, start), seed))
  {
    var d := settings.durationMs;
    var start := BucketStart(record[k - 1].instant, d);
    var seed, drawn := PricesIn(record[..k], d, start), PricesIn(record[..m], d, start);
    BarsFold(bars, groups, seed);
    assert record[..m][m - 1] == record[m - 1];
    if k < m {
      assert record[..m] == record[..k] + record[k..m];
      PricesJoin(record[..k], record[k..m], d, start);
      KeepsRangeIff(settings, start, seed, PricesIn(record[k..m], d, start));
    } else {
      assert record[..k] == record[..m] + record[m..k];
      PricesJoin(record[..m], record[m..k], d, start);
      KeepsRangeIff(settings, start, drawn, PricesIn(record[m..k], d, start));
    }
    hide Reductions.High, Reductions.Low, BucketStart, Monotone, HighOf, LowOf, PricesIn, BarsHold;
  }

  /**
  Seeded again through less than was drawn, and then fed the next live tick: the ticks in between
  are missing from the bar, the stream's claim still stands, and the bar is the record's exactly
  when what is missing is drawn inside what is left.
  */
  lemma {:induction false} ReseedLosesTicks(
    settings: Settings, s: State, record: seq<Tick>, m: nat, k: nat, bars: seq<Candle>, groups: seq<seq<int>>)
    requires WholeSeconds(settings.durationMs) && Monotone(settings.display) && IsRecord(record)
    requires 0 < k < m < |record|
    requires ShowsAll(settings, s, record[..m]) && SeedOf(settings, bars, groups, record, k)
    requires SeedFault(settings, s, bars).None? && s.joinChecked && settings.resumedAtSequence.Some?
    requires var start := BucketStart(record[k - 1].instant, settings.durationMs);
      && BucketStart(record[m].instant, settings.durationMs) == start
      && (settings.historyThroughMs.Some? ==> start > settings.historyThroughMs.value)
    ensures var start := BucketStart(record[k - 1].instant, settings.durationMs);
      var left := PricesIn(record[..k], settings.durationMs, start) + [record[m].price];
      var after := Accepted(settings, Seeded(settings, s, bars, record[k - 1].sequence), record[m]).0;
      && after.open == Some(FullBar(settings, start, left))
      && after.lastSequence == Some(record[m].sequence) && !after.joinBroken
      && (ShowsAll(settings, after, record[..m + 1])
          <==> Within(settings, PricesBetween(record, k, m, settings.durationMs, start), left))
  {
    var d := settings.durationMs;
    var start := BucketStart(record[k - 1].instant, d);
    var seed, missing := PricesIn(record[..k], d, start), PricesIn(record[k..m], d, start);
    var price := record[m].price;
    BarsFold(bars, groups, seed);
    StartInSeconds(record[k - 1].instant, d);
    assert record[k - 1].sequence < record[m].sequence;
    assert record[..m + 1] == record[..k] + record[k..m] + [record[m]];
    PricesJoin(record[..k], record[k..m], d, start);
    PricesJoin(record[..k] + record[k..m], [record[m]], d, start);
    assert PricesIn([record[m]], d, start) == [price];
    SkippedIff(settings, start, seed, missing, price);
    DrawnIsFullIff(settings, Some(FullBar(settings, start, seed)), start, seed, price);
    hide Reductions.High, Reductions.Low, BucketStart, Monotone, HighOf, LowOf, PricesIn, BarsHold, Drawn, FullBar, AllDisplay;
  }

  /** A bar that skipped some prices in the middle is the whole bar exactly when they are drawn inside it. */
  lemma SkippedIff(settings: Settings, start: int, first: seq<int>, missing: seq<int>, last: int)
    requires Monotone(settings.display) && first != []
    ensures FullBar(settings, start, first + [last]) == FullBar(settings, start, first + missing + [last])
      <==> Within(settings, missing, first + [last])
  {
    var left, whole := first + [last], first + missing + [last];
    if missing == [] {
      ConcatUnit(first);
    } else {
      HighLowJoin(first, missing);
      HighLowJoin(first + missing, [last]);
      HighLowJoin(first, [last]);
      Reductions.OnePrice(last);
      Reductions.HighLowAre(missing);
    }
    assert left[|left| - 1] == last == whole[|whole| - 1] && left[0] == first[0] == whole[0];
    hide Reductions.High, Reductions.Low;
  }

  // ---------------------------------------------------------------- a run that narrows

  /** A seed of one bar. */
  lemma OneBarSeed(settings: Settings, s: State, bar: Candle, through: int)
    requires settings.durationMs > 0
    requires Newest(s).Some? ==> BucketStart(bar.openInstant, settings.durationMs) >= Newest(s).value
    ensures SeedFault(settings, s, [bar]).None?
    ensures var start := BucketStart(bar.openInstant, settings.durationMs);
      Seeded(settings, s, [bar], through) == s.(
        open := Some(Bar(start / 1000, settings.display(bar.open), settings.display(bar.high),
                         settings.display(bar.low), settings.display(bar.close))),
        lastSequence := Some(through), seeded := Some(start))
  {
    hide BucketStart;
  }

  /** Minute bars, drawn as they are stored, over a stream asked for from tick 1. */
  function Plain(display: int -> real): Settings {
    Settings(60_000, display, None, None, Some(1))
  }

  /** The state after a seed through tick 0, or after a live tick on top of one. */
  function Forming(first: real, high: real, last: int, checked: bool): State {
    State(Some(Bar(0, first, high, first, high)), Some(last), Some(0), checked, false)
  }

  const FIRST_MINUTE := Candle(0, 0, 0, 0, 0)

  lemma FirstBuckets()
    ensures BucketStart(0, 60_000) == BucketStart(1, 60_000) == BucketStart(2, 60_000) == 0
  {
  }

  lemma SeedThroughZero(display: int -> real, s: State)
    requires Newest(s).Some? ==> Newest(s).value == 0
    requires !s.joinBroken
    ensures SeedFault(Plain(display), s, [FIRST_MINUTE]).None?
    ensures Seeded(Plain(display), s, [FIRST_MINUTE], 0) == Forming(display(0), display(0), 0, s.joinChecked)
  {
    hide BucketStart, SeedFault, Seeded, Newest;
    FirstBuckets();
    OneBarSeed(Plain(display), s, FIRST_MINUTE, 0);
  }

  lemma TickOnTop(display: int -> real, tick: Tick, checked: bool)
    requires tick.sequence == tick.instant && 1 <= tick.instant <= 2
    requires checked || tick.sequence == 1
    requires display(0) <= display(tick.price)
    ensures Accepted(Plain(display), Forming(display(0), display(0), 0, checked), tick).0
         == Forming(display(0), display(tick.price), tick.sequence, true)
  {
    hide BucketStart;
    FirstBuckets();
  }

  lemma NewestIsFirst(display: int -> real, price: int, last: int, checked: bool)
    ensures Newest(UNSEEDED).None? && !UNSEEDED.joinBroken && !UNSEEDED.joinChecked
    ensures var s := Forming(display(0), display(price), last, checked);
      Newest(s) == Some(0) && !s.joinBroken && s.joinChecked == checked
  {
  }

  /**
  Seeded through tick 0, given tick 1 at a price of 10, seeded again through tick 0 and given tick 2
  at 5: no step is refused, the high that tick 1 drew is taken back, tick 1 is in no bar, and the
  join stands.
  */
  lemma ReseedNarrows(display: int -> real)
    requires display(0) < display(5) < display(10)
    ensures var settings := Plain(display);
      var seeded := Seeded(settings, UNSEEDED, [FIRST_MINUTE], 0);
      var spiked := Accepted(settings, seeded, Tick(1, 1, 10)).0;
      var again := Seeded(settings, spiked, [FIRST_MINUTE], 0);
      var after := Accepted(settings, again, Tick(2, 2, 5)).0;
      && SeedFault(settings, UNSEEDED, [FIRST_MINUTE]).None? && SeedFault(settings, spiked, [FIRST_MINUTE]).None?
      && spiked == Forming(display(0), display(10), 1, true)
      && again == Forming(display(0), display(0), 0, true)
      && after == Forming(display(0), display(5), 2, true)
  {
    hide *;
    NewestIsFirst(display, 10, 1, true);
    SeedThroughZero(display, UNSEEDED);
    TickOnTop(display, Tick(1, 1, 10), false);
    SeedThroughZero(display, Forming(display(0), display(10), 1, true));
    TickOnTop(display, Tick(2, 2, 5), true);
  }
}
