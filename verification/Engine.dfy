/**
The engine over abstract arrival and magnitude models (packages/engine/src/engine.ts): what the
sign stream can reach, and what it cannot.
*/
module Engines {
  import opened Prelude
  import opened CloseSelections

  datatype ArrivalContext = ArrivalContext(
    elapsedSincePreviousMs: int, previousMagnitude: real, instant: int, sequence: int)

  datatype MagnitudeContext = MagnitudeContext(
    intervalMs: int, previousMagnitude: real, instant: int, sequence: int)

  /** The two models as transition functions, and the two streams as what each position holds. */
  datatype Models<!A, !M> = Models(
    arrive: (A, ArrivalContext) -> (A, int),
    advance: (M, MagnitudeContext) -> (M, real),
    logQuantum: real,
    rounding: nat -> real,
    sign: nat -> bool,
    maxTicks: Option<int>)

  /** A usable lattice, and a rounding stream that draws from the unit interval. */
  ghost predicate Usable<A, M>(models: Models<A, M>) {
    models.logQuantum > 0.0 && forall i :: 0.0 <= models.rounding(i) < 1.0
  }

  datatype Engine<A, M> = Engine(
    sequence: int,
    produced: int,
    instant: int,
    price: int,
    previousMagnitude: real,
    previousIntervalMs: int,
    arrival: A,
    magnitude: M,
    roundings: nat,
    signs: nat)

  datatype Outcome =
    | Exhausted
    | BadInstant
    | BadInterval
    | BadMagnitude
    | BadPrice
    | Produced(tick: Tick)

  predicate IsInstant(ms: int) {
    0 <= ms <= MAX_EPOCH_MILLIS
  }

  /** The interval about to elapse: the engine moved on by it, or why it was not. */
  function Elapse<A, M>(models: Models<A, M>, e: Engine<A, M>): (Engine<A, M>, Result<int, Outcome>) {
    if models.maxTicks.Some? && e.produced >= models.maxTicks.value then (e, Err(Exhausted))
    else if !IsInstant(e.instant) then (e, Err(BadInstant))
    else
      var (arrival, intervalMs) := models.arrive(
        e.arrival, ArrivalContext(e.previousIntervalMs, e.previousMagnitude, e.instant, e.sequence));
      var arrived := e.(arrival := arrival);
      if intervalMs < 1 then (arrived, Err(BadInterval))
      else
        var timed := arrived.(
          instant := e.instant + intervalMs, sequence := e.sequence + 1, produced := e.produced + 1);
        (timed, if IsInstant(timed.instant) then Ok(intervalMs) else Err(BadInstant))
  }

  /** The magnitude of the tick, quantised before any sign. */
  function Quantise<A, M>(models: Models<A, M>, timed: Engine<A, M>, intervalMs: int): (Engine<A, M>, Result<nat, Outcome>)
    requires Usable(models)
  {
    var (magnitude, size) := models.advance(
      timed.magnitude, MagnitudeContext(intervalMs, timed.previousMagnitude, timed.instant, timed.sequence));
    var sized := timed.(magnitude := magnitude);
    if size < 0.0 then (sized, Err(BadMagnitude))
    else
      var quanta := size / models.logQuantum;
      var steps := (quanta + models.rounding(timed.roundings)).Floor;
      (sized.(previousMagnitude := quanta, previousIntervalMs := intervalMs, roundings := timed.roundings + 1), Ok(steps))
  }

  /** Everything `next` decides before it draws a sign: the state so far, and the size of the step or why there is none. */
  function BeforeSign<A, M>(models: Models<A, M>, e: Engine<A, M>): (Engine<A, M>, Result<nat, Outcome>)
    requires Usable(models)
  {
    var (timed, interval) := Elapse(models, e);
    match interval
    case Err(why) => (timed, Err(why))
    case Ok(intervalMs) => Quantise(models, timed, intervalMs)
  }

  /** `next`: the step, then the only line that touches direction. */
  function Next<A, M>(models: Models<A, M>, e: Engine<A, M>): (Engine<A, M>, Outcome)
    requires Usable(models)
  {
    var (ready, steps) := BeforeSign(models, e);
    match steps
    case Err(why) => (ready, why)
    case Ok(size) =>
      var sign := if models.sign(e.signs) then 1 else -1;
      var moved := ready.(price := e.price + sign * size, signs := e.signs + 1);
      (moved, if IsSafeInteger(moved.price) then Produced(Tick(moved.sequence, moved.instant, moved.price)) else BadPrice)
  }

  class MarketEngine<!A, !M> {
    const models: Models<A, M>
    var sequence: int
    var produced: int
    var instant: int
    var price: int
    var previousMagnitude: real
    var previousIntervalMs: int
    var arrival: A
    var magnitude: M
    /** Positions of the two streams. */
    var roundings: nat
    var signs: nat

    ghost function Now(): Engine<A, M>
      reads this
    {
      Engine(sequence, produced, instant, price, previousMagnitude, previousIntervalMs, arrival, magnitude, roundings, signs)
    }

    constructor (models: Models<A, M>, instant: int, price: int, sequence: int, arrival: A, magnitude: M)
      ensures this.models == models
      ensures Now() == Engine(sequence, 0, instant, price, 0.0, 0, arrival, magnitude, 0, 0)
    {
      this.models, this.instant, this.price, this.sequence := models, instant, price, sequence;
      produced, previousMagnitude, previousIntervalMs := 0, 0.0, 0;
      this.arrival, this.magnitude, roundings, signs := arrival, magnitude, 0, 0;
    }

    method Arrive() returns (interval: Result<int, Outcome>)
      modifies this
      ensures (Now(), interval) == Elapse(models, old(Now()))
    {
      if models.maxTicks.Some? && produced >= models.maxTicks.value {
        return Err(Exhausted);
      }
      if !IsInstant(instant) {
        return Err(BadInstant);
      }
      var (arrived, intervalMs) := models.arrive(
        arrival, ArrivalContext(previousIntervalMs, previousMagnitude, instant, sequence));
      arrival := arrived;
      if intervalMs < 1 {
        return Err(BadInterval);
      }
      instant := instant + intervalMs;
      sequence := sequence + 1;
      produced := produced + 1;
      return if IsInstant(instant) then Ok(intervalMs) else Err(BadInstant);
    }

    method Size(intervalMs: int) returns (size: Result<nat, Outcome>)
      requires Usable(models)
      modifies this
      ensures (Now(), size) == Quantise(models, old(Now()), intervalMs)
    {
      var (advanced, raw) := models.advance(
        magnitude, MagnitudeContext(intervalMs, previousMagnitude, instant, sequence));
      magnitude := advanced;
      if raw < 0.0 {
        return Err(BadMagnitude);
      }
      var quanta := raw / models.logQuantum;
      var steps := (quanta + models.rounding(roundings)).Floor;
      roundings := roundings + 1;
      previousMagnitude := quanta;
      previousIntervalMs := intervalMs;
      return Ok(steps);
    }

    /** `next`. */
    method NextTick() returns (outcome: Outcome)
      requires Usable(models)
      modifies this
      ensures (Now(), outcome) == Next(models, old(Now()))
    {
      SizesDoNotSeeSigns(models, models, Now(), Now());
      hide Elapse, Quantise;
      var interval := Arrive();
      if interval.Err? {
        return interval.error;
      }
      var size := Size(interval.value);
      if size.Err? {
        return size.error;
      }
      hide BeforeSign;
      var sign: int := if models.sign(signs) then 1 else -1;
      signs := signs + 1;
      price := price + sign * size.value;
      return if IsSafeInteger(price) then Produced(Tick(sequence, instant, price)) else BadPrice;
    }
  }

  // ---------------------------------------------------------------- one call, from the models alone

  /** The interval the arrival model gives this engine, and the model after it. */
  ghost function Arrival<A, M>(models: Models<A, M>, e: Engine<A, M>): (A, int) {
    models.arrive(e.arrival, ArrivalContext(e.previousIntervalMs, e.previousMagnitude, e.instant, e.sequence))
  }

  /** The magnitude of the tick that interval leads to, told the instant and sequence of that tick. */
  ghost function Magnitude<A, M>(models: Models<A, M>, e: Engine<A, M>): (M, real) {
    var intervalMs := Arrival(models, e).1;
    models.advance(e.magnitude, MagnitudeContext(intervalMs, e.previousMagnitude, e.instant + intervalMs, e.sequence + 1))
  }

  /** The limit on ticks is reached. */
  ghost predicate Finished<A, M>(models: Models<A, M>, e: Engine<A, M>) {
    models.maxTicks.Some? && e.produced >= models.maxTicks.value
  }

  /**
  Quantised by a draw from the unit interval: up to the next whole step exactly when the draw
  reaches what the fraction lacks of one, and a whole quotient stays.
  */
  ghost predicate RoundedBy(quanta: real, draw: real, steps: int) {
    var whole := quanta.Floor;
    steps == if draw >= 1.0 - (quanta - whole as real) then whole + 1 else whole
  }

  lemma Rounding(quanta: real, draw: real)
    requires 0.0 <= draw < 1.0 && quanta >= 0.0
    ensures RoundedBy(quanta, draw, (quanta + draw).Floor)
    ensures var steps := (quanta + draw).Floor;
      && steps >= 0 && -1.0 < steps as real - quanta < 1.0
      && (quanta == quanta.Floor as real ==> steps as real == quanta)
  {
    var whole := quanta.Floor;
    var fraction := quanta - whole as real;
    if draw >= 1.0 - fraction {
      assert (whole + 1) as real <= quanta + draw < (whole + 2) as real;
    } else {
      assert whole as real <= quanta + draw < (whole + 1) as real;
    }
  }

  /**
  A tick that is produced: later by exactly the interval the arrival model gave, next in sequence,
  and away from the last price, to the side the sign says, by the magnitude the model gave for it
  over the quantum, rounded by the draw.
  */
  lemma ProducedTick<A, M>(models: Models<A, M>, e: Engine<A, M>)
    requires Usable(models) && Next(models, e).1.Produced?
    ensures var (after, tick) := (Next(models, e).0, Next(models, e).1.tick);
      var (intervalMs, size) := (Arrival(models, e).1, Magnitude(models, e).1);
      var quanta := size / models.logQuantum;
      && intervalMs >= 1 && size >= 0.0 && !Finished(models, e)
      && tick.instant == e.instant + intervalMs && tick.sequence == e.sequence + 1
      && RoundedBy(quanta, models.rounding(e.roundings), Away(e.price, tick.price, models.sign(e.signs)))
      && -1.0 < Away(e.price, tick.price, models.sign(e.signs)) as real - quanta < 1.0
      && Away(e.price, tick.price, models.sign(e.signs)) >= 0
      && after == Engine(tick.sequence, e.produced + 1, tick.instant, tick.price, quanta, intervalMs,
                         Arrival(models, e).0, Magnitude(models, e).0, e.roundings + 1, e.signs + 1)
  {
    var quanta := Magnitude(models, e).1 / models.logQuantum;
    QuotientSign(Magnitude(models, e).1, models.logQuantum);
    if quanta >= 0.0 {
      Rounding(quanta, models.rounding(e.roundings));
    }
    hide RoundedBy;
  }

  /** How far a price moved to the side a sign says. */
  ghost function Away(from: int, to: int, up: bool): int {
    if up then to - from else from - to
  }

  lemma QuotientSign(a: real, b: real)
    requires b > 0.0
    ensures a >= 0.0 <==> a / b >= 0.0
  {
    var q := a / b;
    assert q * b == a;
    if q >= 0.0 {
      assert q * b >= 0.0;
    } else {
      assert -q * b > 0.0;
    }
  }

  /** And when it is not: each refusal exactly for its own reason, the first that holds. */
  lemma NotProduced<A, M>(models: Models<A, M>, e: Engine<A, M>)
    requires Usable(models)
    ensures var outcome := Next(models, e).1;
      var intervalMs, size := Arrival(models, e).1, Magnitude(models, e).1;
      && (outcome == Exhausted <==> Finished(models, e))
      && (outcome == BadInterval <==> !Finished(models, e) && IsInstant(e.instant) && intervalMs < 1)
      && (outcome == BadInstant <==>
        && !Finished(models, e)
        && (!IsInstant(e.instant) || (intervalMs >= 1 && !IsInstant(e.instant + intervalMs))))
      && (outcome == BadMagnitude <==>
        && !Finished(models, e) && IsInstant(e.instant) && intervalMs >= 1 && IsInstant(e.instant + intervalMs)
        && size < 0.0)
    ensures var (after, outcome) := Next(models, e);
      var (arrival, intervalMs) := Arrival(models, e);
      var timed := e.(arrival := arrival, instant := e.instant + intervalMs, sequence := e.sequence + 1, produced := e.produced + 1);
      && (outcome == Exhausted || !IsInstant(e.instant) ==> after == e)
      && (outcome == BadInterval ==> after == e.(arrival := arrival))
      && (outcome == BadInstant && IsInstant(e.instant) ==> after == timed)
      && (outcome == BadMagnitude ==> after == timed.(magnitude := Magnitude(models, e).0))
      && (outcome == BadPrice ==> !IsSafeInteger(after.price))
      && (outcome.Produced? ==> IsSafeInteger(after.price))
  {
  }

  // ---------------------------------------------------------------- runs

  /** The engine after n calls, and the step sizes they moved by. */
  function RunFor<A, M>(models: Models<A, M>, e: Engine<A, M>, n: nat): (r: (Engine<A, M>, seq<nat>))
    requires Usable(models)
    decreases n
  {
    if n == 0 then (e, [])
    else
      var (before, steps) := RunFor(models, e, n - 1);
      var (_, size) := BeforeSign(models, before);
      (Next(models, before).0, if size.Ok? then steps + [size.value] else steps)
  }

  /** Two engines that differ in nothing but where the price is. */
  ghost predicate SameButPrice<A, M>(a: Engine<A, M>, b: Engine<A, M>) {
    a == b.(price := a.price)
  }

  /** Models that differ in nothing but the sign stream. */
  ghost predicate SameButSigns<A, M>(a: Models<A, M>, b: Models<A, M>) {
    && a.arrive == b.arrive && a.advance == b.advance && a.logQuantum == b.logQuantum
    && a.rounding == b.rounding && a.maxTicks == b.maxTicks
  }

  /** Nothing before the sign sees a sign or a price. */
  lemma SizesDoNotSeeSigns<A, M>(a: Models<A, M>, b: Models<A, M>, e: Engine<A, M>, f: Engine<A, M>)
    requires Usable(a) && Usable(b) && SameButSigns(a, b) && SameButPrice(e, f)
    ensures BeforeSign(a, e).1 == BeforeSign(b, f).1
    ensures SameButPrice(BeforeSign(a, e).0, BeforeSign(b, f).0)
    ensures BeforeSign(a, e).0.price == e.price && BeforeSign(a, e).0.signs == e.signs
  {
  }

  /**
  Sign independence over every run: whatever the two sign streams, the instants, the sequences,
  the step sizes and the state of both models are the same.
  */
  lemma {:induction false} SignsReachOnlyThePrice<A, M>(
    a: Models<A, M>, b: Models<A, M>, e: Engine<A, M>, f: Engine<A, M>, n: nat)
    requires Usable(a) && Usable(b) && SameButSigns(a, b) && SameButPrice(e, f)
    ensures RunFor(a, e, n).1 == RunFor(b, f, n).1
    ensures SameButPrice(RunFor(a, e, n).0, RunFor(b, f, n).0)
    decreases n
  {
    if n > 0 {
      SignsReachOnlyThePrice(a, b, e, f, n - 1);
      SizesDoNotSeeSigns(a, b, RunFor(a, e, n - 1).0, RunFor(b, f, n - 1).0);
      hide BeforeSign;
    }
  }

  function Signed(up: bool, size: nat): int {
    if up then size as int else -(size as int)
  }

  /** One call moves the price by its signed step, and draws one sign for it. */
  lemma NextMoves<A, M>(models: Models<A, M>, e: Engine<A, M>)
    requires Usable(models)
    ensures var (after, size) := (Next(models, e).0, BeforeSign(models, e).1);
      && after.price == e.price + (if size.Ok? then Signed(models.sign(e.signs), size.value) else 0)
      && after.signs == e.signs + (if size.Ok? then 1 else 0)
  {
    SizesDoNotSeeSigns(models, models, e, e);
    hide BeforeSign;
  }

  /** The price moves by the close of the signs drawn on the step sizes, and one sign is drawn per step. */
  lemma {:induction false} DisplacementIsClose<A, M>(models: Models<A, M>, e: Engine<A, M>, n: nat)
    requires Usable(models)
    ensures var (after, steps) := RunFor(models, e, n);
      && after.price == e.price + Close(Drawn(models.sign, e.signs, |steps|), steps)
      && after.signs == e.signs + |steps|
    decreases n
  {
    if n > 0 {
      DisplacementIsClose(models, e, n - 1);
      var (before, steps) := RunFor(models, e, n - 1);
      NextMoves(models, before);
      var size := BeforeSign(models, before).1;
      hide BeforeSign, Next, Close, Drawn, Signed;
      if size.Ok? {
        CloseGrows(models.sign, e.signs, steps, size.value);
      }
    }
  }

  lemma CloseGrows(random: nat -> bool, from: nat, steps: seq<nat>, size: nat)
    ensures Close(Drawn(random, from, |steps| + 1), steps + [size])
      == Close(Drawn(random, from, |steps|), steps) + Signed(random(from + |steps|), size)
  {
    hide *;
    var drawn := Drawn(random, from, |steps|);
    var sign: int := if random(from + |steps|) then 1 else -1;
    DrawnGrows(random, from, |steps|);
    CloseAppends(drawn, steps, sign, size);
    SignedIs(random(from + |steps|), size);
  }

  lemma SignedIs(up: bool, size: nat)
    ensures (if up then 1 else -1) * size == Signed(up, size)
  {
  }

  lemma DrawnGrows(random: nat -> bool, from: nat, n: nat)
    ensures Drawn(random, from, n + 1) == Drawn(random, from, n) + [if random(from + n) then 1 else -1]
  {
  }

  lemma CloseAppends(signs: seq<int>, steps: seq<nat>, sign: int, size: nat)
    requires |signs| == |steps|
    ensures Close(signs + [sign], steps + [size]) == Close(signs, steps) + sign * size
  {
    assert (steps + [size])[..|steps|] == steps && (signs + [sign])[..|signs|] == signs;
  }

  lemma DrawnIs(random: nat -> bool, from: nat, signs: seq<int>)
    requires AreSigns(signs) && forall i :: 0 <= i < |signs| ==> random(from + i) == (signs[i] == 1)
    ensures Drawn(random, from, |signs|) == signs
  {
  }

  lemma {:induction false} Negated(a: seq<int>, b: seq<int>, steps: seq<nat>)
    requires |a| == |steps| == |b| && forall i :: 0 <= i < |a| ==> b[i] == -a[i]
    ensures Close(b, steps) == -Close(a, steps)
    decreases |steps|
  {
    if steps != [] {
      var n := |steps| - 1;
      Negated(a[..n], b[..n], steps[..n]);
      assert b[n] * steps[n] == -(a[n] * steps[n]);
    }
  }

  /** Complementing every sign mirrors the path: every displacement is negated and nothing else moves. */
  lemma MirroredPath<A, M>(a: Models<A, M>, b: Models<A, M>, e: Engine<A, M>, n: nat)
    requires Usable(a) && Usable(b) && SameButSigns(a, b)
    requires forall i :: b.sign(i) == !a.sign(i)
    ensures RunFor(b, e, n).0.price - e.price == -(RunFor(a, e, n).0.price - e.price)
    ensures SameButPrice(RunFor(a, e, n).0, RunFor(b, e, n).0)
  {
    SignsReachOnlyThePrice(a, b, e, e, n);
    DisplacementIsClose(a, e, n);
    DisplacementIsClose(b, e, n);
    var steps := RunFor(a, e, n).1;
    Negated(Drawn(a.sign, e.signs, |steps|), Drawn(b.sign, e.signs, |steps|), steps);
  }

  /**
  The exact close: signs chosen on the step sizes of one run, replayed by any engine that differs
  only in its sign stream, end exactly where they were chosen to, at the same instant and sequence.
  */
  lemma ChosenSignsClose<A, M>(
    a: Models<A, M>, b: Models<A, M>, e: Engine<A, M>, n: nat, signs: seq<int>, delta: int)
    requires Usable(a) && Usable(b) && SameButSigns(a, b)
    requires |signs| == |RunFor(a, e, n).1| && AreSigns(signs) && Close(signs, RunFor(a, e, n).1) == delta
    requires forall i :: 0 <= i < |signs| ==> b.sign(e.signs + i) == (signs[i] == 1)
    ensures RunFor(b, e, n).0.price == e.price + delta
    ensures SameButPrice(RunFor(a, e, n).0, RunFor(b, e, n).0)
  {
    DrawnIs(b.sign, e.signs, signs);
    hide Drawn, AreSigns, Close, RunFor;
    SignsReachOnlyThePrice(a, b, e, e, n);
    DisplacementIsClose(b, e, n);
  }

  /** A close the sampler refuses by range or parity is reached by no engine on these steps, whatever its signs. */
  lemma RefusedCloseIsNeverReached<A, M>(
    a: Models<A, M>, b: Models<A, M>, e: Engine<A, M>, n: nat, delta: int)
    requires Usable(a) && Usable(b) && SameButSigns(a, b)
    requires ImpossibilityOf(RunFor(a, e, n).1, delta) in [Some(OutOfRange), Some(WrongParity)]
    ensures RunFor(b, e, n).0.price != e.price + delta
  {
    SignsReachOnlyThePrice(a, b, e, e, n);
    DisplacementIsClose(b, e, n);
    var steps := RunFor(a, e, n).1;
    RefusalIsProof(steps, delta, Drawn(b.sign, e.signs, |steps|));
  }
}
