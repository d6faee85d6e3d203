/**
The extreme-preserving reduction of a window of ticks to columns
(packages/chart/src/reduce.ts), in exact arithmetic.
*/
module Reductions {
  import opened Prelude

  /** One tick as the chart holds it. */
  datatype Sample = Sample(instant: int, price: int)

  datatype Options = Options(from: int, to: int, columns: int)

  datatype Column = Column(
    fromInstant: real, toInstant: real,
    open: int, high: int, low: int, close: int, tickCount: nat)

  datatype ReduceError = BadColumns | EmptyWindow

  predicate Usable(o: Options) {
    o.columns >= 1 && o.from < o.to
  }

  predicate InWindow(o: Options, s: Sample) {
    o.from <= s.instant < o.to
  }

  /** Which column a tick of the window falls in. */
  function ColumnIndex(o: Options, s: Sample): (k: nat)
    requires Usable(o) && InWindow(o, s)
    ensures k < o.columns
  {
    var scaled := (s.instant - o.from) * o.columns;
    ScaledInRange(s.instant - o.from, o.columns, o.to - o.from);
    var k := scaled / (o.to - o.from);
    if k < o.columns - 1 then k else o.columns - 1
  }

  lemma ScalesUp(a: int, b: int, c: int)
    requires a <= b && c >= 0
    ensures a * c <= b * c
  {
    assert (b - a) * c >= 0;
  }

  lemma ScaledInRange(offset: int, columns: int, span: int)
    requires 0 <= offset < span && columns >= 1
    ensures 0 <= offset * columns && 0 <= offset * columns / span < columns
  {
    ScalesUp(0, offset, columns);
    ScalesUp(offset, span - 1, columns);
    assert (span - 1) * columns == span * columns - columns;
    QuotientBelow(offset * columns, columns, span);
  }

  lemma QuotientBelow(n: int, k: int, span: int)
    requires span > 0 && 0 <= n
    ensures n < k * span <==> n / span < k
    ensures n / span >= 0
  {
    var q, r := n / span, n % span;
    Divided(n, span);
    if q < k {
      ScalesUp(q + 1, k, span);
      Distributes(q, span);
    } else {
      ScalesUp(k, q, span);
    }
  }

  lemma Divided(n: int, span: int)
    requires span > 0
    ensures n == n / span * span + n % span && 0 <= n % span < span
  {
  }

  lemma Distributes(q: int, span: int)
    ensures (q + 1) * span == q * span + span
  {
  }

  /** The real instant column k starts at. */
  function Edge(o: Options, k: nat): real
    requires Usable(o)
  {
    o.from as real + (o.to - o.from) as real * k as real / o.columns as real
  }

  // ---------------------------------------------------------------- what each column holds

  /** The prices of the ticks in column k, in order. */
  function SliceOf(o: Options, samples: seq<Sample>, k: nat): seq<int>
    requires Usable(o)
  {
    if samples == [] then []
    else
      var n := |samples| - 1;
      var s := samples[n];
      SliceOf(o, samples[..n], k) + if InWindow(o, s) && ColumnIndex(o, s) == k then [s.price] else []
  }

  function High(prices: seq<int>): int
    requires prices != []
  {
    var n := |prices| - 1;
    if n == 0 then prices[0]
    else if prices[n] > High(prices[..n]) then prices[n] else High(prices[..n])
  }

  function Low(prices: seq<int>): int
    requires prices != []
  {
    var n := |prices| - 1;
    if n == 0 then prices[0]
    else if prices[n] < Low(prices[..n]) then prices[n] else Low(prices[..n])
  }

  function ColumnOf(o: Options, k: nat, prices: seq<int>): Column
    requires Usable(o) && prices != []
  {
    Column(Edge(o, k), Edge(o, k + 1), prices[0], High(prices), Low(prices), prices[|prices| - 1], |prices|)
  }

  function ColumnFor(o: Options, samples: seq<Sample>, k: nat): seq<Column>
    requires Usable(o)
  {
    if SliceOf(o, samples, k) == [] then [] else [ColumnOf(o, k, SliceOf(o, samples, k))]
  }

  /** The first k columns: one per slice that holds a tick, and none for a slice that does not. */
  function ColumnsTo(o: Options, samples: seq<Sample>, k: nat): seq<Column>
    requires Usable(o)
  {
    if k == 0 then [] else ColumnsTo(o, samples, k - 1) + ColumnFor(o, samples, k - 1)
  }

  /** Ticks in time order, which is the order of the record. */
  ghost predicate Sorted(samples: seq<Sample>) {
    forall i, j :: 0 <= i <= j < |samples| ==> samples[i].instant <= samples[j].instant
  }

  lemma SliceGrows(o: Options, samples: seq<Sample>, s: Sample, k: nat)
    requires Usable(o)
    ensures SliceOf(o, samples + [s], k)
      == SliceOf(o, samples, k) + if InWindow(o, s) && ColumnIndex(o, s) == k then [s.price] else []
  {
    assert (samples + [s])[..|samples|] == samples;
  }

  // ---------------------------------------------------------------- reduceToColumns

  /** What the loop has pushed, and the column it is in the middle of. */
  datatype Fold = Fold(out: seq<Column>, current: int, open: int, high: int, low: int, close: int, count: nat)

  /** The fold after some ticks: every column before the current one is out, and the current one is in hand. */
  ghost predicate Folded(o: Options, samples: seq<Sample>, f: Fold)
    requires Usable(o)
  {
    && -1 <= f.current < o.columns
    && (f.current == -1 ==> f.out == [] && f.count == 0)
    && (f.current >= 0 ==>
      && f.out == ColumnsTo(o, samples, f.current)
      && var slice := SliceOf(o, samples, f.current);
        && |slice| == f.count && f.count > 0
        && slice[0] == f.open && High(slice) == f.high && Low(slice) == f.low && slice[|slice| - 1] == f.close)
    && (forall k :: f.current < k < o.columns ==> SliceOf(o, samples, k) == [])
  }

  function Flush(o: Options, f: Fold): seq<Column>
    requires Usable(o) && f.current >= -1
  {
    if f.count == 0 || f.current < 0 then f.out
    else f.out + [Column(Edge(o, f.current), Edge(o, f.current + 1), f.open, f.high, f.low, f.close, f.count)]
  }

  /** The column in hand with one more price. */
  function Widened(f: Fold, price: int): Fold {
    Fold(f.out, f.current, f.open, if price > f.high then price else f.high,
         if price < f.low then price else f.low, price, f.count + 1)
  }

  /** A tick of the window: into the column in hand, or the first of another. */
  function Taken(o: Options, f: Fold, s: Sample): Fold
    requires Usable(o) && InWindow(o, s) && f.current >= -1
  {
    if ColumnIndex(o, s) == f.current && f.count > 0 then Widened(f, s.price)
    else Fold(Flush(o, f), ColumnIndex(o, s), s.price, s.price, s.price, s.price, 1)
  }

  /** One turn of the loop. */
  method Take(o: Options, f: Fold, s: Sample) returns (after: Fold)
    requires Usable(o) && InWindow(o, s) && f.current >= -1 && (f.count > 0 || f.current == -1)
    ensures after == Taken(o, f, s)
  {
    hide ColumnIndex, Flush;
    after := f;
    var column := ColumnIndex(o, s);
    if column != after.current {
      after := after.(out := Flush(o, f), current := column, count := 0);
    }
    if after.count == 0 {
      after := after.(open := s.price, high := s.price, low := s.price);
    } else {
      if s.price > after.high {
        after := after.(high := s.price);
      }
      if s.price < after.low {
        after := after.(low := s.price);
      }
    }
    after := after.(close := s.price, count := after.count + 1);
  }

  /** Consecutive ticks of the window that fall in one column, in the order they come. */
  datatype Stretch = Stretch(column: nat, prices: seq<int>)

  function Joined(stretches: seq<Stretch>, column: nat, price: int): seq<Stretch> {
    var n := |stretches| - 1;
    if n >= 0 && stretches[n].column == column then stretches[..n] + [Stretch(column, stretches[n].prices + [price])]
    else stretches + [Stretch(column, [price])]
  }

  /** The window cut where the column changes, whatever order the ticks come in. */
  function Stretches(o: Options, samples: seq<Sample>): (stretches: seq<Stretch>)
    requires Usable(o)
    ensures forall i :: 0 <= i < |stretches| ==> stretches[i].prices != []
  {
    if samples == [] then []
    else
      var n := |samples| - 1;
      var before := Stretches(o, samples[..n]);
      if InWindow(o, samples[n]) then Joined(before, ColumnIndex(o, samples[n]), samples[n].price) else before
  }

  function Drawn(o: Options, stretches: seq<Stretch>): (columns: seq<Column>)
    requires Usable(o) && forall i :: 0 <= i < |stretches| ==> stretches[i].prices != []
    ensures |columns| == |stretches|
  {
    seq(|stretches|, i requires 0 <= i < |stretches| => ColumnOf(o, stretches[i].column, stretches[i].prices))
  }

  /** The last stretch is in hand and the ones before it are out. */
  ghost predicate InHand(o: Options, stretches: seq<Stretch>, f: Fold)
    requires Usable(o) && forall i :: 0 <= i < |stretches| ==> stretches[i].prices != []
  {
    if stretches == [] then f.out == [] && f.current == -1 && f.count == 0
    else
      var n := |stretches| - 1;
      var prices := stretches[n].prices;
      && f.out == Drawn(o, stretches[..n])
      && f.current == stretches[n].column && f.count == |prices|
      && f.open == prices[0] && f.high == High(prices) && f.low == Low(prices) && f.close == prices[|prices| - 1]
  }

  lemma FlushedIsDrawn(o: Options, stretches: seq<Stretch>, f: Fold)
    requires Usable(o) && forall i :: 0 <= i < |stretches| ==> stretches[i].prices != []
    requires InHand(o, stretches, f)
    ensures f.current >= -1 && (f.count > 0 || f.current == -1)
    ensures Flush(o, f) == Drawn(o, stretches)
  {
    if stretches != [] {
      var n := |stretches| - 1;
      assert stretches == stretches[..n] + [stretches[n]];
    }
    hide High, Low, Edge;
  }

  /** A tick of the window joins the last stretch, or begins another. */
  lemma StretchesNext(o: Options, samples: seq<Sample>, s: Sample)
    requires Usable(o) && InWindow(o, s)
    ensures Stretches(o, samples + [s]) == Joined(Stretches(o, samples), ColumnIndex(o, s), s.price)
  {
    hide Joined, ColumnIndex;
    assert (samples + [s])[..|samples|] == samples;
  }

  lemma JoinedShape(stretches: seq<Stretch>, column: nat, price: int)
    ensures var n, longer := |stretches| - 1, Joined(stretches, column, price);
      if n >= 0 && stretches[n].column == column then
        |longer| == n + 1 && longer[..n] == stretches[..n] && longer[n] == Stretch(column, stretches[n].prices + [price])
      else
        |longer| == n + 2 && longer[..n + 1] == stretches && longer[n + 1] == Stretch(column, [price])
  {
  }

  lemma WidensInHand(o: Options, stretches: seq<Stretch>, longer: seq<Stretch>, f: Fold, price: int)
    requires Usable(o)
    requires forall i :: 0 <= i < |stretches| ==> stretches[i].prices != []
    requires forall i :: 0 <= i < |longer| ==> longer[i].prices != []
    requires stretches != [] && InHand(o, stretches, f)
    requires var n := |stretches| - 1;
      |longer| == n + 1 && longer[..n] == stretches[..n]
      && longer[n] == Stretch(stretches[n].column, stretches[n].prices + [price])
    ensures InHand(o, longer, Widened(f, price))
  {
    hide High, Low, Drawn;
    var n := |stretches| - 1;
    WidenedHigh(stretches[n].prices, f, price);
  }

  lemma WidenedHigh(prices: seq<int>, f: Fold, price: int)
    requires prices != [] && High(prices) == f.high && Low(prices) == f.low
    ensures High(prices + [price]) == Widened(f, price).high && Low(prices + [price]) == Widened(f, price).low
  {
    HighLowGrow(prices, price);
    hide High, Low;
  }

  lemma BeginsInHand(o: Options, stretches: seq<Stretch>, longer: seq<Stretch>, out: seq<Column>, k: nat, price: int)
    requires Usable(o)
    requires forall i :: 0 <= i < |stretches| ==> stretches[i].prices != []
    requires forall i :: 0 <= i < |longer| ==> longer[i].prices != []
    requires out == Drawn(o, stretches)
    requires var n := |stretches|; |longer| == n + 1 && longer[..n] == stretches && longer[n] == Stretch(k, [price])
    ensures InHand(o, longer, Fold(out, k, price, price, price, price, 1))
  {
    OnePrice(price);
    hide High, Low, Drawn;
  }

  lemma TakenInHand(o: Options, samples: seq<Sample>, s: Sample, f: Fold)
    requires Usable(o) && InWindow(o, s) && InHand(o, Stretches(o, samples), f)
    ensures f.current >= -1 && InHand(o, Stretches(o, samples + [s]), Taken(o, f, s))
  {
    var stretches, k := Stretches(o, samples), ColumnIndex(o, s);
    var longer := Stretches(o, samples + [s]);
    StretchesNext(o, samples, s);
    JoinedShape(stretches, k, s.price);
    FlushedIsDrawn(o, stretches, f);
    CurrentIs(o, stretches, f);
    hide InHand, Stretches, Joined, High, Low, ColumnIndex, Flush, Drawn, Widened;
    var n := |stretches| - 1;
    if n >= 0 && stretches[n].column == k {
      WidensInHand(o, stretches, longer, f, s.price);
    } else {
      BeginsInHand(o, stretches, longer, Flush(o, f), k, s.price);
    }
  }

  lemma CurrentIs(o: Options, stretches: seq<Stretch>, f: Fold)
    requires Usable(o) && forall i :: 0 <= i < |stretches| ==> stretches[i].prices != []
    requires InHand(o, stretches, f)
    ensures stretches == [] ==> f.current == -1
    ensures stretches != [] ==> f.current == stretches[|stretches| - 1].column && f.count > 0
  {
    hide High, Low, Drawn;
  }

  lemma SkippedStretches(o: Options, samples: seq<Sample>, s: Sample)
    requires Usable(o) && !InWindow(o, s)
    ensures Stretches(o, samples + [s]) == Stretches(o, samples)
  {
    assert (samples + [s])[..|samples|] == samples;
  }

  /** `reduceToColumns`: a column for each stretch as it comes, which in time order is a column for each slice. */
  method ReduceToColumns(samples: seq<Sample>, o: Options) returns (r: Result<seq<Column>, ReduceError>)
    ensures r.Ok? <==> Usable(o)
    ensures r.Ok? ==> r.value == Drawn(o, Stretches(o, samples))
    ensures r.Ok? && Sorted(samples) ==> r.value == ColumnsTo(o, samples, o.columns)
    ensures r.Ok? ==> TellAll(o, r.value, Stretches(o, samples))
    ensures o.columns < 1 ==> r == Err(BadColumns)
    ensures o.columns >= 1 && o.from >= o.to ==> r == Err(EmptyWindow)
  {
    if o.columns < 1 {
      return Err(BadColumns);
    }
    if !(o.to > o.from) {
      return Err(EmptyWindow);
    }
    hide *;
    var f := Fold([], -1, 0, 0, 0, 0, 0);
    NothingInHand(o, f);
    var i := 0;
    while i < |samples|
      invariant 0 <= i <= |samples| && Usable(o)
      invariant InHand(o, Stretches(o, samples[..i]), f)
    {
      var s := samples[i];
      CutAfter(samples, i);
      FlushedIsDrawn(o, Stretches(o, samples[..i]), f);
      var inside := s.instant >= o.from && s.instant < o.to;
      WindowIs(o, s);
      if inside {
        TakenInHand(o, samples[..i], s, f);
        f := Take(o, f, s);
      } else {
        SkippedStretches(o, samples[..i], s);
      }
      i := i + 1;
    }
    assert samples[..i] == samples;
    FlushedIsDrawn(o, Stretches(o, samples), f);
    if Sorted(samples) {
      SortedIsSliced(o, samples);
    }
    DrawnTell(o, Stretches(o, samples));
    return Ok(Flush(o, f));
  }

  /** What a column tells of the ticks it holds: where it stands, the first and the last, the extremes and the count. */
  ghost predicate Tells(o: Options, column: Column, k: nat, prices: seq<int>)
    requires Usable(o)
  {
    && prices != []
    && column.fromInstant == Edge(o, k) && column.toInstant == Edge(o, k + 1)
    && column.open == prices[0] && column.close == prices[|prices| - 1]
    && IsHigh(prices, column.high) && IsLow(prices, column.low) && column.tickCount == |prices|
  }

  ghost predicate TellAll(o: Options, columns: seq<Column>, stretches: seq<Stretch>)
    requires Usable(o)
  {
    && |columns| == |stretches|
    && forall i :: 0 <= i < |columns| ==> Tells(o, columns[i], stretches[i].column, stretches[i].prices)
  }

  lemma ColumnTells(o: Options, k: nat, prices: seq<int>)
    requires Usable(o) && prices != []
    ensures Tells(o, ColumnOf(o, k, prices), k, prices)
  {
    HighLowAre(prices);
    hide High, Low, Edge, IsHigh, IsLow;
  }

  lemma DrawnTell(o: Options, stretches: seq<Stretch>)
    requires Usable(o) && forall i :: 0 <= i < |stretches| ==> stretches[i].prices != []
    ensures TellAll(o, Drawn(o, stretches), stretches)
  {
    hide Tells, ColumnOf;
    forall i | 0 <= i < |stretches|
      ensures Tells(o, Drawn(o, stretches)[i], stretches[i].column, stretches[i].prices)
    {
      ColumnTells(o, stretches[i].column, stretches[i].prices);
    }
  }

  lemma WindowIs(o: Options, s: Sample)
    ensures InWindow(o, s) <==> s.instant >= o.from && s.instant < o.to
  {
  }

  lemma NothingInHand(o: Options, f: Fold)
    requires o.columns >= 1 && o.to > o.from && f == Fold([], -1, 0, 0, 0, 0, 0)
    ensures Usable(o) && InHand(o, Stretches(o, []), f)
  {
  }

  /** In time order the stretches are the slices. */
  lemma SortedIsSliced(o: Options, samples: seq<Sample>)
    requires Usable(o) && Sorted(samples)
    ensures Drawn(o, Stretches(o, samples)) == ColumnsTo(o, samples, o.columns)
  {
    var f := FoldInOrder(o, samples);
    FlushedIsDrawn(o, Stretches(o, samples), f);
    FoldShape(o, samples, f);
    FlushedColumns(o, samples, f, o.columns);
  }

  lemma {:induction false} FoldInOrder(o: Options, samples: seq<Sample>) returns (f: Fold)
    requires Usable(o) && Sorted(samples)
    ensures Folded(o, samples, f) && InHand(o, Stretches(o, samples), f)
    decreases |samples|
  {
    hide Folded, SliceOf, ColumnsTo, ColumnIndex, Flush, Taken, InHand, Stretches;
    if samples == [] {
      f := Fold([], -1, 0, 0, 0, 0, 0);
      NothingFolded(o, f);
      NothingInHand(o, f);
    } else {
      var n := |samples| - 1;
      var s := samples[n];
      assert samples == samples[..n] + [s];
      f := FoldInOrder(o, samples[..n]);
      FoldShape(o, samples[..n], f);
      if InWindow(o, s) {
        CurrentNotAfter(o, samples[..n], s, f);
        TakenFolded(o, samples[..n], s, f);
        TakenInHand(o, samples[..n], s, f);
        f := Taken(o, f, s);
      } else {
        SkippedFolded(o, samples[..n], s, f);
        SkippedStretches(o, samples[..n], s);
      }
    }
  }

  lemma FoldShape(o: Options, samples: seq<Sample>, f: Fold)
    requires Usable(o) && Folded(o, samples, f)
    ensures -1 <= f.current < o.columns && (f.count > 0 || f.current == -1)
  {
  }

  lemma NothingFolded(o: Options, f: Fold)
    requires Usable(o) && f == Fold([], -1, 0, 0, 0, 0, 0)
    ensures Folded(o, [], f)
  {
  }

  lemma ColumnMonotone(o: Options, a: Sample, b: Sample)
    requires Usable(o) && InWindow(o, a) && InWindow(o, b) && a.instant <= b.instant
    ensures ColumnIndex(o, a) <= ColumnIndex(o, b)
  {
    var span := o.to - o.from;
    var x, y := (a.instant - o.from) * o.columns, (b.instant - o.from) * o.columns;
    ScaledInRange(a.instant - o.from, o.columns, span);
    ScaledInRange(b.instant - o.from, o.columns, span);
    assert x <= y;
    QuotientBelow(y, x / span, span);
    assert x == x / span * span + x % span;
  }

  /** A slice that holds a tick holds one of the samples. */
  lemma {:induction false} SliceHas(o: Options, samples: seq<Sample>, k: nat) returns (j: nat)
    requires Usable(o) && SliceOf(o, samples, k) != []
    ensures j < |samples| && InWindow(o, samples[j]) && ColumnIndex(o, samples[j]) == k
    decreases |samples|
  {
    var n := |samples| - 1;
    if InWindow(o, samples[n]) && ColumnIndex(o, samples[n]) == k {
      j := n;
    } else {
      j := SliceHas(o, samples[..n], k);
    }
  }

  /** In time order the next tick is in the current column or a later one. */
  lemma CurrentNotAfter(o: Options, samples: seq<Sample>, s: Sample, f: Fold)
    requires Usable(o) && Sorted(samples + [s]) && InWindow(o, s) && Folded(o, samples, f)
    ensures f.current <= ColumnIndex(o, s)
  {
    hide ColumnIndex, SliceOf;
    if f.current >= 0 {
      var j := SliceHas(o, samples, f.current);
      var all := samples + [s];
      assert all[j].instant <= all[|samples|].instant;
      ColumnMonotone(o, samples[j], s);
    }
  }

  lemma SkippedFolded(o: Options, samples: seq<Sample>, s: Sample, f: Fold)
    requires Usable(o) && Folded(o, samples, f) && !InWindow(o, s)
    ensures Folded(o, samples + [s], f)
  {
    hide SliceOf, ColumnIndex, ColumnsTo, High, Low;
    NoneChange(o, samples, s);
    if f.current >= 0 {
      ColumnsSame(o, samples, samples + [s], f.current);
    }
  }

  lemma NoneChange(o: Options, samples: seq<Sample>, s: Sample)
    requires Usable(o) && !InWindow(o, s)
    ensures forall k: nat :: SliceOf(o, samples + [s], k) == SliceOf(o, samples, k)
  {
    forall k: nat
      ensures SliceOf(o, samples + [s], k) == SliceOf(o, samples, k)
    {
      SliceGrows(o, samples, s, k);
      ConcatUnit(SliceOf(o, samples, k));
    }
  }

  /** One tick more, in the current column or a later one. */
  lemma TakenFolded(o: Options, samples: seq<Sample>, s: Sample, f: Fold)
    requires Usable(o) && Folded(o, samples, f) && InWindow(o, s) && -1 <= f.current <= ColumnIndex(o, s)
    ensures Folded(o, samples + [s], Taken(o, f, s))
  {
    var k := ColumnIndex(o, s);
    OthersSame(o, samples, s);
    SliceGrows(o, samples, s, k);
    hide SliceOf, ColumnIndex;
    ColumnsSame(o, samples, samples + [s], k);
    if k == f.current {
      WidenedSlice(o, samples, s, f, SliceOf(o, samples, k));
    } else {
      FlushedColumns(o, samples, f, k);
      ConcatUnit([s.price]);
      OnePrice(s.price);
    }
  }

  lemma OthersSame(o: Options, samples: seq<Sample>, s: Sample)
    requires Usable(o) && InWindow(o, s)
    ensures forall j: nat :: j != ColumnIndex(o, s) ==> SliceOf(o, samples + [s], j) == SliceOf(o, samples, j)
  {
    forall j: nat | j != ColumnIndex(o, s)
      ensures SliceOf(o, samples + [s], j) == SliceOf(o, samples, j)
    {
      SliceGrows(o, samples, s, j);
      ConcatUnit(SliceOf(o, samples, j));
    }
  }

  lemma OnePrice(price: int)
    ensures High([price]) == price == Low([price])
  {
  }

  lemma WidenedSlice(o: Options, samples: seq<Sample>, s: Sample, f: Fold, slice: seq<int>)
    requires |slice| == f.count && f.count > 0
    requires slice[0] == f.open && High(slice) == f.high && Low(slice) == f.low
    ensures var longer, after := slice + [s.price], Widened(f, s.price);
      && |longer| == after.count && longer[0] == after.open && longer[|longer| - 1] == after.close
      && High(longer) == after.high && Low(longer) == after.low
  {
    assert (slice + [s.price])[..|slice|] == slice;
  }

  /** Slices that have not changed give the columns they gave. */
  lemma {:induction false} ColumnsSame(o: Options, a: seq<Sample>, b: seq<Sample>, k: nat)
    requires Usable(o) && forall j :: 0 <= j < k ==> SliceOf(o, a, j) == SliceOf(o, b, j)
    ensures ColumnsTo(o, a, k) == ColumnsTo(o, b, k)
    decreases k
  {
    hide SliceOf, ColumnOf;
    if k > 0 {
      ColumnsSame(o, a, b, k - 1);
    }
  }

  /** Flushing the column in hand gives every column up to any later one. */
  lemma {:induction false} FlushedColumns(o: Options, samples: seq<Sample>, f: Fold, k: nat)
    requires Usable(o) && Folded(o, samples, f) && f.current < k <= o.columns
    ensures Flush(o, f) == ColumnsTo(o, samples, k)
    decreases k
  {
    hide SliceOf, High, Low, Edge;
    if k == f.current + 1 {
      if f.current >= 0 {
        var slice := SliceOf(o, samples, f.current);
        assert ColumnFor(o, samples, f.current) == [ColumnOf(o, f.current, slice)];
      }
    } else {
      FlushedColumns(o, samples, f, k - 1);
      assert SliceOf(o, samples, k - 1) == [];
      ConcatUnit(ColumnsTo(o, samples, k - 1));
    }
  }

  // ---------------------------------------------------------------- what a reduction keeps

  /** A column's slice is half open, from its own edge to the next column's. */
  lemma SliceIsHalfOpen(o: Options, s: Sample, k: nat)
    requires Usable(o) && InWindow(o, s) && k < o.columns
    ensures ColumnIndex(o, s) == k <==> Edge(o, k) <= s.instant as real < Edge(o, k + 1)
  {
    ColumnFrom(o, s, k);
    ColumnFrom(o, s, k + 1);
  }

  lemma ColumnFrom(o: Options, s: Sample, k: nat)
    requires Usable(o) && InWindow(o, s) && k <= o.columns
    ensures ColumnIndex(o, s) >= k <==> Edge(o, k) <= s.instant as real
  {
    var span, offset := o.to - o.from, s.instant - o.from;
    ScaledInRange(offset, o.columns, span);
    QuotientBelow(offset * o.columns, k, span);
    assert offset * o.columns >= k * span <==> ColumnIndex(o, s) >= k;
    EdgeBelow(offset, span, k, o.columns);
    assert s.instant as real == o.from as real + offset as real;
  }

  lemma EdgeBelow(offset: int, span: int, k: nat, columns: int)
    requires columns >= 1
    ensures offset * columns >= k * span <==> span as real * k as real / columns as real <= offset as real
  {
    var edge := span as real * k as real / columns as real;
    assert edge * columns as real == span as real * k as real;
    assert (offset * columns) as real == offset as real * columns as real;
    assert (k * span) as real == span as real * k as real;
    if edge <= offset as real {
      assert (offset as real - edge) * columns as real >= 0.0;
    } else {
      assert (edge - offset as real) * columns as real > 0.0;
    }
  }

  /** The columns are the window cut in equal parts. */
  lemma EdgesTile(o: Options, k: nat)
    requires Usable(o)
    ensures Edge(o, 0) == o.from as real && Edge(o, o.columns) == o.to as real
    ensures (Edge(o, k + 1) - Edge(o, k)) * o.columns as real == (o.to - o.from) as real
  {
    var span, n := (o.to - o.from) as real, o.columns as real;
    Quotients(span, n, k as real);
    assert (k + 1) as real == k as real + 1.0;
    assert (o.to - o.from) as real == o.to as real - o.from as real;
  }

  lemma Quotients(span: real, n: real, k: real)
    requires n > 0.0
    ensures span * 0.0 / n == 0.0 && span * n / n == span
    ensures (span * (k + 1.0) / n - span * k / n) * n == span
  {
    var a, b := span * (k + 1.0) / n, span * k / n;
    assert a * n == span * (k + 1.0) && b * n == span * k;
    assert span * (k + 1.0) == span * k + span;
    assert (a - b) * n == a * n - b * n;
    var whole := span * n / n;
    assert whole * n == span * n;
    assert (whole - span) * n == 0.0;
  }

  lemma EdgesIncrease(o: Options, j: nat, k: nat)
    requires Usable(o) && j < k
    ensures Edge(o, j) < Edge(o, k)
  {
    var span, n := (o.to - o.from) as real, o.columns as real;
    assert (k - j) as real * span > 0.0;
    assert span * k as real - span * j as real == (k - j) as real * span;
    assert (span * k as real - span * j as real) / n > 0.0;
  }

  /** The ticks the first k columns hold, which is all of the window for all of the columns. */
  function HeldTo(o: Options, samples: seq<Sample>, k: nat): seq<int>
    requires Usable(o)
  {
    if k == 0 then [] else HeldTo(o, samples, k - 1) + SliceOf(o, samples, k - 1)
  }

  function WindowPrices(o: Options, samples: seq<Sample>): seq<int> {
    if samples == [] then []
    else
      var n := |samples| - 1;
      WindowPrices(o, samples[..n]) + if InWindow(o, samples[n]) then [samples[n].price] else []
  }

  /** One tick more is held once, by the column it falls in, if that is among the first k. */
  lemma {:induction false} HeldGrows(o: Options, samples: seq<Sample>, s: Sample, k: nat)
    requires Usable(o)
    ensures multiset(HeldTo(o, samples + [s], k)) == multiset(HeldTo(o, samples, k))
      + (if InWindow(o, s) && ColumnIndex(o, s) < k then multiset{s.price} else multiset{})
    decreases k
  {
    hide SliceOf, ColumnIndex, HeldTo;
    HeldStep(o, samples + [s], k);
    HeldStep(o, samples, k);
    if k > 0 {
      HeldGrows(o, samples, s, k - 1);
      SliceGains(o, samples, s, k - 1);
    }
  }

  lemma SliceGains(o: Options, samples: seq<Sample>, s: Sample, k: nat)
    requires Usable(o)
    ensures multiset(SliceOf(o, samples + [s], k)) == multiset(SliceOf(o, samples, k))
      + (if InWindow(o, s) && ColumnIndex(o, s) == k then multiset{s.price} else multiset{})
  {
    SliceGrows(o, samples, s, k);
    hide SliceOf, ColumnIndex;
  }

  lemma HeldStep(o: Options, samples: seq<Sample>, k: nat)
    requires Usable(o)
    ensures k == 0 ==> HeldTo(o, samples, k) == []
    ensures k > 0 ==>
      && HeldTo(o, samples, k) == HeldTo(o, samples, k - 1) + SliceOf(o, samples, k - 1)
      && multiset(HeldTo(o, samples, k)) == multiset(HeldTo(o, samples, k - 1)) + multiset(SliceOf(o, samples, k - 1))
  {
    hide SliceOf;
  }

  lemma {:induction false} NoneHeld(o: Options, k: nat)
    requires Usable(o)
    ensures HeldTo(o, [], k) == []
    decreases k
  {
    if k > 0 {
      NoneHeld(o, k - 1);
    }
  }

  /** Every tick of the window is in exactly one column: together they hold the window's prices. */
  lemma {:induction false} EveryTickHeldOnce(o: Options, samples: seq<Sample>)
    requires Usable(o)
    ensures multiset(HeldTo(o, samples, o.columns)) == multiset(WindowPrices(o, samples))
    decreases |samples|
  {
    if samples == [] {
      NoneHeld(o, o.columns);
    } else {
      var n := |samples| - 1;
      EveryTickHeldOnce(o, samples[..n]);
      HeldGrows(o, samples[..n], samples[n], o.columns);
      assert samples[..n] + [samples[n]] == samples;
      hide HeldTo, ColumnIndex;
    }
  }

  // ---------------------------------------------------------------- extremes

  datatype Extremes = Extremes(high: int, low: int, count: nat)

  /** `windowExtremes`: the truth, straight from the record. */
  method WindowExtremes(o: Options, samples: seq<Sample>) returns (r: Option<Extremes>)
    ensures r == ExtremesOf(WindowPrices(o, samples))
  {
    hide WindowPrices, InWindow, High, Low;
    var high, low, count := 0, 0, 0;
    var i := 0;
    NoPrices(o, samples);
    while i < |samples|
      invariant 0 <= i <= |samples|
      invariant ExtremesOf(WindowPrices(o, samples[..i])) == if count == 0 then None else Some(Extremes(high, low, count))
    {
      ghost var before := WindowPrices(o, samples[..i]);
      PricesGrow(o, samples, i);
      if InWindow(o, samples[i]) {
        var price := samples[i].price;
        ExtremesGrow(before, price);
        high := if count == 0 || price > high then price else high;
        low := if count == 0 || price < low then price else low;
        count := count + 1;
      }
      i := i + 1;
    }
    assert samples[..i] == samples;
    return if count == 0 then None else Some(Extremes(high, low, count));
  }

  lemma NoPrices(o: Options, samples: seq<Sample>)
    ensures WindowPrices(o, samples[..0]) == []
  {
  }

  lemma PricesGrow(o: Options, samples: seq<Sample>, i: nat)
    requires i < |samples|
    ensures WindowPrices(o, samples[..i + 1])
      == if InWindow(o, samples[i]) then WindowPrices(o, samples[..i]) + [samples[i].price] else WindowPrices(o, samples[..i])
  {
    assert samples[..i + 1][..i] == samples[..i];
    ConcatUnit(WindowPrices(o, samples[..i]));
  }

  function ExtremesOf(prices: seq<int>): Option<Extremes> {
    if prices == [] then None else Some(Extremes(High(prices), Low(prices), |prices|))
  }

  lemma ExtremesGrow(prices: seq<int>, price: int)
    ensures ExtremesOf(prices + [price]) ==
      if prices == [] then Some(Extremes(price, price, 1))
      else Some(Extremes(if price > High(prices) then price else High(prices),
                         if price < Low(prices) then price else Low(prices), |prices| + 1))
  {
    hide High, Low;
    if prices == [] {
      ConcatUnit([price]);
      OnePrice(price);
    } else {
      HighLowGrow(prices, price);
    }
  }

  lemma HighLowGrow(prices: seq<int>, price: int)
    requires prices != []
    ensures (prices + [price])[..|prices|] == prices
    ensures High(prices + [price]) == if price > High(prices) then price else High(prices)
    ensures Low(prices + [price]) == if price < Low(prices) then price else Low(prices)
  {
    assert (prices + [price])[..|prices|] == prices;
  }

  /** The greatest and the least, whatever the order. */
  ghost predicate IsHigh(prices: seq<int>, high: int) {
    high in prices && forall p :: p in prices ==> p <= high
  }

  ghost predicate IsLow(prices: seq<int>, low: int) {
    low in prices && forall p :: p in prices ==> p >= low
  }

  lemma {:induction false} HighLowAre(prices: seq<int>)
    requires prices != []
    ensures IsHigh(prices, High(prices)) && IsLow(prices, Low(prices))
    decreases |prices|
  {
    var n := |prices| - 1;
    if n > 0 {
      HighLowAre(prices[..n]);
      assert prices == prices[..n] + [prices[n]];
    }
  }

  /** Extremes and count depend only on which prices there are. */
  lemma SamePricesSameExtremes(a: seq<int>, b: seq<int>)
    requires multiset(a) == multiset(b)
    ensures ExtremesOf(a) == ExtremesOf(b)
  {
    assert |a| == |multiset(a)| && |b| == |multiset(b)|;
    if a != [] {
      HighLowAre(a);
      HighLowAre(b);
      hide High, Low;
      forall p
        ensures p in a <==> p in b
      {
        assert p in multiset(a) <==> p in a;
        assert p in multiset(b) <==> p in b;
      }
    }
  }

  /** The extremes a reader takes from the columns alone. */
  function ColumnExtremes(columns: seq<Column>): Option<Extremes> {
    if columns == [] then None
    else
      var last := columns[|columns| - 1];
      match ColumnExtremes(columns[..|columns| - 1])
      case None => Some(Extremes(last.high, last.low, last.tickCount))
      case Some(e) =>
        Some(Extremes(if last.high > e.high then last.high else e.high,
                      if last.low < e.low then last.low else e.low, e.count + last.tickCount))
  }

  /** Every extreme survives: the first k columns' extremes and counts are those of the ticks they hold. */
  lemma {:induction false} ColumnsKeepExtremes(o: Options, samples: seq<Sample>, k: nat)
    requires Usable(o)
    ensures ColumnExtremes(ColumnsTo(o, samples, k)) == ExtremesOf(HeldTo(o, samples, k))
    decreases k
  {
    hide SliceOf, ColumnsTo, HeldTo, ExtremesOf, ColumnExtremes;
    HeldStep(o, samples, k);
    NoColumns();
    if k > 0 {
      ColumnsKeepExtremes(o, samples, k - 1);
      var before, slice, held := ColumnsTo(o, samples, k - 1), SliceOf(o, samples, k - 1), HeldTo(o, samples, k - 1);
      ColumnsStep(o, samples, k);
      ConcatUnit(held);
      if slice != [] {
        OneColumnMore(before, ColumnOf(o, k - 1, slice));
        ExtremesJoin(held, slice);
        ExtremesShape(held);
        ExtremesShape(slice);
        hide Edge, High, Low;
      }
    } else {
      ColumnsNone(o, samples);
    }
  }

  lemma NoColumns()
    ensures ColumnExtremes([]) == None && ExtremesOf([]) == None
  {
  }

  lemma ColumnsNone(o: Options, samples: seq<Sample>)
    requires Usable(o)
    ensures ColumnsTo(o, samples, 0) == []
  {
  }

  lemma ExtremesShape(prices: seq<int>)
    ensures ExtremesOf(prices) == if prices == [] then None else Some(Extremes(High(prices), Low(prices), |prices|))
  {
  }

  lemma ColumnsStep(o: Options, samples: seq<Sample>, k: nat)
    requires Usable(o) && k > 0
    ensures var slice := SliceOf(o, samples, k - 1);
      ColumnsTo(o, samples, k) ==
        if slice == [] then ColumnsTo(o, samples, k - 1) else ColumnsTo(o, samples, k - 1) + [ColumnOf(o, k - 1, slice)]
  {
    hide SliceOf, ColumnOf;
    ConcatUnit(ColumnsTo(o, samples, k - 1));
  }

  lemma OneColumnMore(before: seq<Column>, last: Column)
    ensures ColumnExtremes(before + [last]) ==
      match ColumnExtremes(before)
      case None => Some(Extremes(last.high, last.low, last.tickCount))
      case Some(e) =>
        Some(Extremes(if last.high > e.high then last.high else e.high,
                      if last.low < e.low then last.low else e.low, e.count + last.tickCount))
  {
    assert (before + [last])[..|before|] == before;
  }

  lemma {:induction false} ExtremesJoin(a: seq<int>, b: seq<int>)
    requires b != []
    ensures ExtremesOf(a + b) ==
      if a == [] then ExtremesOf(b)
      else Some(Extremes(if High(b) > High(a) then High(b) else High(a),
                         if Low(b) < Low(a) then Low(b) else Low(a), |a| + |b|))
    decreases |b|
  {
    hide High, Low;
    ConcatUnit(b);
    ConcatUnit(a);
    var n := |b| - 1;
    CutAfter(b, n);
    CutAt(b, |b|);
    ConcatAssociates(a, b[..n], [b[n]]);
    ExtremesGrow(a + b[..n], b[n]);
    ExtremesGrow(b[..n], b[n]);
    if n > 0 {
      ExtremesJoin(a, b[..n]);
    }
  }

  /** Honest at any zoom: over the columns and over the record the extremes and the count agree. */
  lemma ExtremesAgree(o: Options, samples: seq<Sample>)
    requires Usable(o)
    ensures ColumnExtremes(ColumnsTo(o, samples, o.columns)) == ExtremesOf(WindowPrices(o, samples))
  {
    ColumnsKeepExtremes(o, samples, o.columns);
    EveryTickHeldOnce(o, samples);
    SamePricesSameExtremes(HeldTo(o, samples, o.columns), WindowPrices(o, samples));
  }

  /** The prices of the stretches, one after the other. */
  function PricesOf(stretches: seq<Stretch>): seq<int> {
    if stretches == [] then [] else PricesOf(stretches[..|stretches| - 1]) + stretches[|stretches| - 1].prices
  }

  /**
  In whatever order the ticks come: the stretches hold the window's prices in that order, each
  once, and no two neighbours are of one column.
  */
  lemma {:induction false} StretchesAreTheWindow(o: Options, samples: seq<Sample>)
    requires Usable(o)
    ensures PricesOf(Stretches(o, samples)) == WindowPrices(o, samples)
    ensures forall i :: 0 < i < |Stretches(o, samples)| ==>
      Stretches(o, samples)[i].column != Stretches(o, samples)[i - 1].column
    decreases |samples|
  {
    hide ColumnIndex;
    if samples != [] {
      var n := |samples| - 1;
      StretchesAreTheWindow(o, samples[..n]);
      var before := Stretches(o, samples[..n]);
      if InWindow(o, samples[n]) {
        JoinedPrices(before, ColumnIndex(o, samples[n]), samples[n].price);
      } else {
        ConcatUnit(WindowPrices(o, samples[..n]));
      }
    }
  }

  /** The column of each tick of the stretches, in order. */
  function ColumnsHeld(stretches: seq<Stretch>): seq<nat> {
    if stretches == [] then []
    else
      var last := stretches[|stretches| - 1];
      ColumnsHeld(stretches[..|stretches| - 1]) + Repeated(last.column, |last.prices|)
  }

  function Repeated(column: nat, n: nat): (columns: seq<nat>)
    ensures |columns| == n && forall i :: 0 <= i < n ==> columns[i] == column
  {
    seq(n, i => column)
  }

  /** The column of each tick of the window, in order. */
  function WindowColumns(o: Options, samples: seq<Sample>): seq<nat>
    requires Usable(o)
  {
    if samples == [] then []
    else
      var n := |samples| - 1;
      WindowColumns(o, samples[..n]) + if InWindow(o, samples[n]) then [ColumnIndex(o, samples[n])] else []
  }

  /** And each tick stands in the stretch of its own column. */
  lemma {:induction false} StretchesKeepColumns(o: Options, samples: seq<Sample>)
    requires Usable(o)
    ensures ColumnsHeld(Stretches(o, samples)) == WindowColumns(o, samples)
    decreases |samples|
  {
    hide ColumnIndex;
    if samples != [] {
      var n := |samples| - 1;
      StretchesKeepColumns(o, samples[..n]);
      var before := Stretches(o, samples[..n]);
      if InWindow(o, samples[n]) {
        JoinedColumns(before, ColumnIndex(o, samples[n]), samples[n].price);
      } else {
        ConcatUnit(WindowColumns(o, samples[..n]));
      }
    }
  }

  lemma {:induction false} JoinedColumns(stretches: seq<Stretch>, column: nat, price: int)
    ensures ColumnsHeld(Joined(stretches, column, price)) == ColumnsHeld(stretches) + [column]
  {
    var n := |stretches| - 1;
    var longer := Joined(stretches, column, price);
    if n >= 0 && stretches[n].column == column {
      assert longer[..n] == stretches[..n];
      var k := |stretches[n].prices|;
      assert Repeated(column, k + 1) == Repeated(column, k) + [column];
      ConcatAssociates(ColumnsHeld(stretches[..n]), Repeated(column, k), [column]);
    } else {
      assert longer[..|stretches|] == stretches;
      assert Repeated(column, 1) == [column];
    }
  }

  lemma {:induction false} JoinedPrices(stretches: seq<Stretch>, column: nat, price: int)
    ensures PricesOf(Joined(stretches, column, price)) == PricesOf(stretches) + [price]
  {
    var n := |stretches| - 1;
    var longer := Joined(stretches, column, price);
    if n >= 0 && stretches[n].column == column {
      assert longer[..n] == stretches[..n];
      ConcatAssociates(PricesOf(stretches[..n]), stretches[n].prices, [price]);
    } else {
      assert longer[..|stretches|] == stretches;
    }
  }

  /** So every extreme survives in any order: of the columns drawn and of the window, they and the count agree. */
  lemma {:induction false} ExtremesAgreeInAnyOrder(o: Options, samples: seq<Sample>)
    requires Usable(o)
    ensures ColumnExtremes(Drawn(o, Stretches(o, samples))) == ExtremesOf(WindowPrices(o, samples))
  {
    StretchesAreTheWindow(o, samples);
    DrawnExtremes(o, Stretches(o, samples));
  }

  lemma {:induction false} DrawnExtremes(o: Options, stretches: seq<Stretch>)
    requires Usable(o) && forall i :: 0 <= i < |stretches| ==> stretches[i].prices != []
    ensures ColumnExtremes(Drawn(o, stretches)) == ExtremesOf(PricesOf(stretches))
    decreases |stretches|
  {
    hide High, Low, Edge;
    if stretches == [] {
      NoColumns();
    } else {
      var n := |stretches| - 1;
      var before, last := stretches[..n], stretches[n];
      DrawnExtremes(o, before);
      assert Drawn(o, stretches) == Drawn(o, before) + [ColumnOf(o, last.column, last.prices)];
      OneColumnMore(Drawn(o, before), ColumnOf(o, last.column, last.prices));
      ConcatUnit(last.prices);
      ExtremesJoin(PricesOf(before), last.prices);
      ExtremesShape(PricesOf(before));
      ExtremesShape(last.prices);
      hide ExtremesOf, ColumnExtremes, Drawn;
    }
  }

  /** Which column each emitted one is. */
  function Places(o: Options, samples: seq<Sample>, k: nat): (places: seq<nat>)
    requires Usable(o)
    ensures |places| == |ColumnsTo(o, samples, k)|
  {
    if k == 0 then [] else Places(o, samples, k - 1) + if SliceOf(o, samples, k - 1) == [] then [] else [k - 1]
  }

  /** Each column is the bar of exactly its slice, none is empty, and they stand in strict order. */
  lemma {:induction false} ColumnsAreSlices(o: Options, samples: seq<Sample>, k: nat, i: nat)
    requires Usable(o) && i < |ColumnsTo(o, samples, k)|
    ensures var place := Places(o, samples, k)[i];
      && place < k && SliceOf(o, samples, place) != []
      && ColumnsTo(o, samples, k)[i] == ColumnOf(o, place, SliceOf(o, samples, place))
      && ColumnsTo(o, samples, k)[i].tickCount > 0
    ensures forall j :: 0 <= j < i ==>
      ColumnsTo(o, samples, k)[j].toInstant <= ColumnsTo(o, samples, k)[i].fromInstant
    decreases k
  {
    hide SliceOf, Edge, High, Low;
    var before := ColumnsTo(o, samples, k - 1);
    if i < |before| {
      ColumnsAreSlices(o, samples, k - 1, i);
    } else {
      forall j | 0 <= j < i
        ensures ColumnsTo(o, samples, k)[j].toInstant <= ColumnsTo(o, samples, k)[i].fromInstant
      {
        ColumnsAreSlices(o, samples, k - 1, j);
        var place := Places(o, samples, k - 1)[j];
        if place + 1 < k - 1 {
          EdgesIncrease(o, place + 1, k - 1);
        }
      }
    }
  }
}
