/**
 * The power extractor: the energy of an audio file per window of a tenth of
 * a second, kept in an array that is filled once, on the first read-out, and
 * the running minimum and maximum of those energies, used to read the power
 * out relative to the quietest and the loudest window.
 *
 * Samples and energies are real numbers, not IEEE doubles: rounding,
 * overflow to infinity and the `(int)` saturation of huge values are not
 * modelled. The only NaN and infinities are those of a division by zero in
 * the relative read-out, which are written out.
 */
module Power {
  import opened Outcomes
  import opened Streams
  import opened Casts

  /** Power measurements per second. */
  const PowerSampleRate: int := 10
  /** Seconds of audio per power measurement. */
  const ReadWindow: real := 1.0 / PowerSampleRate as real
  /** `Double.MAX_VALUE`, the seed of the running minimum. */
  const DoubleMax: real := 179769313486231570814527423731704356798070567525844996598917476803157260780028538760589558632766878171540458953514382464234321326889464182768467546703537516986049910576551282076245490090389328944075868508455133942304583236903222948165808559332123348274797826204144723168738177180919299881250404026184124858368.0
  /** The seed of the running maximum. */
  const NoMaximum: real := -1.0

  /** The window that holds a point in time: the number of read windows up to it, rounded up. */
  function SecondsToIndex(seconds: real): (index: int)
    ensures index as real - 1.0 < seconds * PowerSampleRate as real <= index as real
  {
    Ceil(seconds / ReadWindow)
  }

  /** Later times never map to earlier windows. */
  lemma SecondsToIndexMonotonic(earlier: real, later: real)
    requires earlier <= later
    ensures SecondsToIndex(earlier) <= SecondsToIndex(later)
  {
  }

  /** The start of the recording is window 0, and the start of window i maps back to i. */
  lemma SecondsToIndexAtWindowStart(i: int)
    ensures SecondsToIndex(0.0) == 0
    ensures SecondsToIndex(i as real * ReadWindow) == i
  {
    assert i as real * ReadWindow / ReadWindow == i as real;
  }

  function Min(a: real, b: real): (m: real)
    ensures m <= a && m <= b && (m == a || m == b)
  {
    if a <= b then a else b
  }

  function Max(a: real, b: real): (m: real)
    ensures a <= m && b <= m && (m == a || m == b)
  {
    if a >= b then a else b
  }

  /** Product of two samples; kept as a function so that the sign lemma below is applied by name. */
  function Product(a: real, b: real): real {
    a * b
  }

  /** Signs of a product: positive for two positive or two negative factors, zero for a zero factor. */
  lemma ProductSign(a: real, b: real)
    ensures a > 0.0 && b > 0.0 ==> Product(a, b) > 0.0
    ensures a < 0.0 && b < 0.0 ==> Product(a, b) > 0.0
    ensures a == 0.0 ==> Product(a, b) == 0.0
  {
    if a < 0.0 && b < 0.0 {
      assert (-a) * (-b) > 0.0;
    }
  }

  /** The square of a sample: never negative, and positive unless the sample is zero. */
  function Square(x: real): (sq: real)
    ensures sq >= 0.0
    ensures x != 0.0 ==> sq > 0.0
  {
    ProductSign(x, x);
    Product(x, x)
  }

  /** The local energy of a window: the sum of its squared samples. */
  function Energy(samples: seq<real>): (e: real)
    ensures e >= 0.0
  {
    if samples == [] then 0.0 else Energy(samples[..|samples| - 1]) + Square(samples[|samples| - 1])
  }

  /** A window has no energy exactly when all its samples are zero; an empty one has none. */
  lemma {:induction false} EnergyZeroIffSilent(samples: seq<real>)
    ensures Energy(samples) == 0.0 <==> forall i :: 0 <= i < |samples| ==> samples[i] == 0.0
  {
    if samples != [] {
      var front := samples[..|samples| - 1];
      EnergyZeroIffSilent(front);
      assert forall i :: 0 <= i < |front| ==> front[i] == samples[i];
      if exists i :: 0 <= i < |samples| && samples[i] != 0.0 {
        var i :| 0 <= i < |samples| && samples[i] != 0.0;
        if i < |front| {
          assert front[i] != 0.0;
        }
      }
    }
  }

  /** `localEnergy`: sums the squares of the buffer's samples. */
  method LocalEnergy(buffer: array<real>) returns (power: real)
    ensures power == Energy(buffer[..])
  {
    power := 0.0;
    for i := 0 to buffer.Length
      invariant power == Energy(buffer[..i])
    {
      assert buffer[..i + 1][..i] == buffer[..i];
      power := power + buffer[i] * buffer[i];
    }
    assert buffer[..buffer.Length] == buffer[..];
  }

  /** The minimum kept while the powers are read, starting from `seed`. */
  function RunningMin(seed: real, powers: seq<real>): (m: real)
    ensures m <= seed
    ensures forall i :: 0 <= i < |powers| ==> m <= powers[i]
  {
    if powers == [] then seed
    else Min(powers[|powers| - 1], RunningMin(seed, powers[..|powers| - 1]))
  }

  /** The maximum kept while the powers are read, starting from `seed`. */
  function RunningMax(seed: real, powers: seq<real>): (m: real)
    ensures seed <= m
    ensures forall i :: 0 <= i < |powers| ==> powers[i] <= m
  {
    if powers == [] then seed
    else Max(powers[|powers| - 1], RunningMax(seed, powers[..|powers| - 1]))
  }

  /** The running minimum is its seed or one of the powers. */
  lemma {:induction false} RunningMinAttained(seed: real, powers: seq<real>)
    ensures RunningMin(seed, powers) == seed || exists i :: 0 <= i < |powers| && RunningMin(seed, powers) == powers[i]
  {
    if powers != [] {
      var front := powers[..|powers| - 1];
      RunningMinAttained(seed, front);
      if RunningMin(seed, powers) != powers[|powers| - 1] && RunningMin(seed, front) != seed {
        var i :| 0 <= i < |front| && RunningMin(seed, front) == front[i];
        assert RunningMin(seed, powers) == powers[i];
      }
    }
  }

  /** The running maximum is its seed or one of the powers. */
  lemma {:induction false} RunningMaxAttained(seed: real, powers: seq<real>)
    ensures RunningMax(seed, powers) == seed || exists i :: 0 <= i < |powers| && RunningMax(seed, powers) == powers[i]
  {
    if powers != [] {
      var front := powers[..|powers| - 1];
      RunningMaxAttained(seed, front);
      if RunningMax(seed, powers) != powers[|powers| - 1] && RunningMax(seed, front) != seed {
        var i :| 0 <= i < |front| && RunningMax(seed, front) == front[i];
        assert RunningMax(seed, powers) == powers[i];
      }
    }
  }

  /** Taking in one more power folds it into both running bounds. */
  lemma RunningStep(minSeed: real, maxSeed: real, seen: seq<real>, power: real)
    ensures RunningMin(minSeed, seen + [power]) == Min(power, RunningMin(minSeed, seen))
    ensures RunningMax(maxSeed, seen + [power]) == Max(power, RunningMax(maxSeed, seen))
  {
    assert (seen + [power])[..|seen|] == seen;
  }

  /** The energies of the windows read from the k-th read on, through a reused buffer. */
  function ChunkEnergies(buffer: seq<real>, outcomes: seq<ReadOutcome<real>>, k: nat): seq<real>
    requires ChunksFit(outcomes, |buffer|)
    decreases |outcomes| - k
  {
    match OutcomeAt(outcomes, k)
    case Chunk(data) =>
      var filled := Refill(buffer, data);
      [Energy(filled)] + ChunkEnergies(filled, outcomes, k + 1)
    case _ => []
  }

  /**
   * One energy per window read before the stream stops, and the c-th is
   * the energy of the whole buffer once the c-th window has been read into
   * it, stale samples of a short read included.
   */
  lemma {:induction false} ChunkEnergiesAt(buffer: seq<real>, outcomes: seq<ReadOutcome<real>>, k: nat)
    requires ChunksFit(outcomes, |buffer|)
    ensures var powers := ChunkEnergies(buffer, outcomes, k);
            && |powers| == LeadingChunks(outcomes, k)
            && forall c :: 0 <= c < |powers| ==> powers[c] == Energy(BufferAfter(buffer, outcomes, k, c))
    decreases |outcomes| - k
  {
    if OutcomeAt(outcomes, k).Chunk? {
      var filled := Refill(buffer, OutcomeAt(outcomes, k).data);
      ChunkEnergiesAt(filled, outcomes, k + 1);
      var powers := ChunkEnergies(buffer, outcomes, k);
      var rest := ChunkEnergies(filled, outcomes, k + 1);
      assert powers == [Energy(filled)] + rest;
      forall c | 0 < c < |powers|
        ensures powers[c] == Energy(BufferAfter(buffer, outcomes, k, c))
      {
        assert powers[c] == rest[c - 1];
      }
    }
  }

  /** Storing the next energy into the first zero slot extends the filled prefix by it. */
  lemma StoreExtendsFilled(seen: seq<real>, power: real, length: nat)
    requires |seen| < length
    ensures (seen + Zeros(length - |seen|, 0.0))[|seen| := power] == (seen + [power]) + Zeros(length - |seen| - 1, 0.0)
  {
  }

  /** The energies from a read that delivers a window: that window's energy, then the rest. */
  lemma ChunkEnergiesStep(before: seq<real>, outcomes: seq<ReadOutcome<real>>, k: nat, filled: seq<real>)
    requires ChunksFit(outcomes, |before|)
    requires OutcomeAt(outcomes, k).Chunk? && filled == Refill(before, OutcomeAt(outcomes, k).data)
    ensures ChunkEnergies(before, outcomes, k) == [Energy(filled)] + ChunkEnergies(filled, outcomes, k + 1)
  {
  }

  /** One more window's energy moves from the energies still to come to those seen. */
  lemma SeenGrows(all: seq<real>, seen: seq<real>, before: seq<real>, outcomes: seq<ReadOutcome<real>>,
                  k: nat, filled: seq<real>)
    requires ChunksFit(outcomes, |before|)
    requires OutcomeAt(outcomes, k).Chunk? && filled == Refill(before, OutcomeAt(outcomes, k).data)
    requires all == seen + ChunkEnergies(before, outcomes, k)
    ensures all == (seen + [Energy(filled)]) + ChunkEnergies(filled, outcomes, k + 1)
  {
    ChunkEnergiesStep(before, outcomes, k, filled);
  }

  /** Failures that escape `extractPower` or `powerAt` (runtime exceptions nobody catches). */
  datatype Failure =
    | NullPointer                      // the array was never allocated
    | ArrayIndexOutOfBounds(index: int)
    | NegativeArraySize(size: int)

  /** The audio behind the extractor: a file that cannot be opened, or the sample reads it gives. */
  datatype AudioSource = Unopenable | Readable(outcomes: seq<ReadOutcome<real>>)

  /** Number of slots of the power array: one per window of the file, plus one. */
  function PowerArrayLength(audioLengthInSecs: real): int {
    SecondsToIndex(audioLengthInSecs) + 1
  }

  /** Samples per window. */
  function ReadAmount(sampleRate: real): int {
    Truncate(ReadWindow * sampleRate)
  }

  /** The decoder honours the `read` contract: no read delivers more samples than asked for. */
  predicate SourceFits(source: AudioSource, sampleRate: real) {
    source.Readable? && ReadAmount(sampleRate) >= 0 ==> ChunksFit(source.outcomes, ReadAmount(sampleRate))
  }

  /** The extractor's state after an extraction: array (None for null), bounds, and slots filled. */
  datatype PowerState = PowerState(stored: Option<seq<real>>, minPower: real, maxPower: real, written: nat)

  /**
   * `extractPower` as a function of the state before it: the state after
   * it, and the runtime exception it raises, if any. A file that cannot be
   * opened changes nothing; otherwise a zeroed array of PowerArrayLength
   * slots replaces the old one, the i-th window's energy goes to slot i, and
   * the bounds take in each energy before it is stored, so a window that
   * finds no slot left still counts toward them.
   */
  function Extract(source: AudioSource, sampleRate: real, audioLengthInSecs: real, before: PowerState)
    : (PowerState, Option<Failure>)
    requires SourceFits(source, sampleRate)
  {
    match source
    case Unopenable => (before, None)
    case Readable(outcomes) =>
      var length := PowerArrayLength(audioLengthInSecs);
      var amount := ReadAmount(sampleRate);
      if length < 0 then (before, Some(NegativeArraySize(length)))
      else if amount < 0 then
        (before.(stored := Some(Zeros(length, 0.0)), written := 0), Some(NegativeArraySize(amount)))
      else
        var powers := ChunkEnergies(Zeros(amount, 0.0), outcomes, 0);
        if |powers| <= length then
          (PowerState(Some(powers + Zeros(length - |powers|, 0.0)),
                      RunningMin(before.minPower, powers), RunningMax(before.maxPower, powers), |powers|),
           None)
        else
          (PowerState(Some(powers[..length]),
                      RunningMin(before.minPower, powers[..length + 1]),
                      RunningMax(before.maxPower, powers[..length + 1]), length),
           Some(ArrayIndexOutOfBounds(length)))
  }

  /** Every filled slot lies between the minimum and the maximum. */
  predicate Bracketed(s: PowerState) {
    s.stored.Some? ==>
      && s.written <= |s.stored.value|
      && forall i :: 0 <= i < s.written ==> s.minPower <= s.stored.value[i] <= s.maxPower
  }

  /** An extraction keeps every filled slot between the minimum and the maximum. */
  lemma ExtractKeepsBracket(source: AudioSource, sampleRate: real, audioLengthInSecs: real, before: PowerState)
    requires SourceFits(source, sampleRate)
    requires Bracketed(before)
    ensures Bracketed(Extract(source, sampleRate, audioLengthInSecs, before).0)
  {
  }

  /**
   * A file that cannot be opened, or whose array length would be negative,
   * leaves the state as it was. Otherwise the new array has one slot per
   * window of the file plus one; the windows read before the stream stops
   * fill it from slot 0 on, window i in slot i, as far as it reaches; the
   * remaining slots are zero; and the store fails exactly when more windows
   * are read than the array has slots.
   */
  lemma ExtractFillsInOrder(source: AudioSource, sampleRate: real, audioLengthInSecs: real, before: PowerState)
    requires SourceFits(source, sampleRate)
    ensures var (after, failure) := Extract(source, sampleRate, audioLengthInSecs, before);
            var length := PowerArrayLength(audioLengthInSecs);
            && (source.Unopenable? || length < 0 ==> after == before)
            && (source.Readable? && length >= 0 ==>
                  && after.stored.Some? && |after.stored.value| == length && after.written <= length
                  && forall i :: after.written <= i < length ==> after.stored.value[i] == 0.0)
  {
  }

  /** Slot i holds the energy of the buffer once the i-th window has been read into it. */
  lemma {:induction false} ExtractStoresWindowEnergies(source: AudioSource, sampleRate: real, audioLengthInSecs: real,
                                                       before: PowerState)
    requires SourceFits(source, sampleRate)
    requires source.Readable? && PowerArrayLength(audioLengthInSecs) >= 0 && ReadAmount(sampleRate) >= 0
    ensures var (after, failure) := Extract(source, sampleRate, audioLengthInSecs, before);
            var length := PowerArrayLength(audioLengthInSecs);
            var windows := LeadingChunks(source.outcomes, 0);
            && after.stored.Some? && |after.stored.value| == length
            && after.written == (if windows <= length then windows else length)
            && (failure.Some? <==> windows > length)
            && forall i :: 0 <= i < after.written ==>
                 after.stored.value[i] == Energy(BufferAfter(Zeros(ReadAmount(sampleRate), 0.0), source.outcomes, 0, i))
  {
    var buffer := Zeros(ReadAmount(sampleRate), 0.0);
    ChunkEnergiesAt(buffer, source.outcomes, 0);
    var powers := ChunkEnergies(buffer, source.outcomes, 0);
    var stored := Extract(source, sampleRate, audioLengthInSecs, before).0.stored.value;
    assert forall i :: 0 <= i < |powers| && i < |stored| ==> stored[i] == powers[i];
  }

  /**
   * With the bounds seeded as a new extractor seeds them (-1 and the
   * largest double), a read that stops at once leaves both seeds as they
   * are; and when at least one window was read, every window found a slot
   * and no energy exceeds the largest double, both bounds are energies
   * stored in the array.
   */
  lemma ExtractedBoundsAttained(source: AudioSource, sampleRate: real, audioLengthInSecs: real, before: PowerState)
    requires SourceFits(source, sampleRate)
    requires Bracketed(before)
    requires before.minPower == DoubleMax && before.maxPower == NoMaximum
    ensures var (after, failure) := Extract(source, sampleRate, audioLengthInSecs, before);
            && Bracketed(after)
            && (source.Readable? && !OutcomeAt(source.outcomes, 0).Chunk? ==>
                  after.minPower == DoubleMax && after.maxPower == NoMaximum)
            && (source.Readable? && after.stored.Some? && failure.None? && after.written > 0 &&
                (forall i :: 0 <= i < after.written ==> after.stored.value[i] <= DoubleMax) ==>
                  && (exists i :: 0 <= i < after.written && after.minPower == after.stored.value[i])
                  && (exists j :: 0 <= j < after.written && after.maxPower == after.stored.value[j]))
  {
    ExtractKeepsBracket(source, sampleRate, audioLengthInSecs, before);
    var (after, failure) := Extract(source, sampleRate, audioLengthInSecs, before);
    var length, amount := PowerArrayLength(audioLengthInSecs), ReadAmount(sampleRate);
    if source.Readable? && length >= 0 && amount >= 0 {
      var buffer := Zeros(amount, 0.0);
      var powers := ChunkEnergies(buffer, source.outcomes, 0);
      if |powers| <= length {
        assert after.minPower == RunningMin(DoubleMax, powers) && after.maxPower == RunningMax(NoMaximum, powers);
        assert after.written == |powers|;
        var stored := after.stored.value;
        assert forall i :: 0 <= i < |powers| ==> stored[i] == powers[i];
        if powers != [] && forall i :: 0 <= i < after.written ==> stored[i] <= DoubleMax {
          ChunkEnergiesAt(buffer, source.outcomes, 0);
          SeededBoundsAttained(powers);
        }
      }
    }
  }

  /**
   * Seeded with the largest double and -1, the running bounds over
   * non-negative powers that do not exceed the largest double are powers.
   */
  lemma SeededBoundsAttained(powers: seq<real>)
    requires powers != []
    requires forall i :: 0 <= i < |powers| ==> 0.0 <= powers[i] <= DoubleMax
    ensures exists i :: 0 <= i < |powers| && RunningMin(DoubleMax, powers) == powers[i]
    ensures exists j :: 0 <= j < |powers| && RunningMax(NoMaximum, powers) == powers[j]
  {
    RunningMinAttained(DoubleMax, powers);
    RunningMaxAttained(NoMaximum, powers);
    if RunningMin(DoubleMax, powers) == DoubleMax {
      assert RunningMin(DoubleMax, powers) == powers[0];
    }
    assert RunningMax(NoMaximum, powers) >= powers[0];
  }

  /** A division of doubles, with the special values a zero divisor produces. */
  datatype Ratio = Finite(value: real) | NaN | PositiveInfinity | NegativeInfinity

  function Divide(numerator: real, denominator: real): (q: Ratio)
    ensures denominator != 0.0 ==> q == Finite(numerator / denominator)
    ensures denominator == 0.0 ==> !q.Finite?
  {
    if denominator != 0.0 then Finite(numerator / denominator)
    else if numerator == 0.0 then NaN
    else if numerator > 0.0 then PositiveInfinity
    else NegativeInfinity
  }

  /** What `powerAt` returns: the relative power, or 20·log10 of the linear power (the logarithm is not modelled). */
  datatype Readout = Relative(ratio: Ratio) | Decibels(linear: real)

  function ReadOut(power: real, relative: bool, minPower: real, maxPower: real): Readout {
    if relative then Relative(Divide(power - minPower, maxPower - minPower)) else Decibels(power)
  }

  /**
   * A power between distinct bounds reads out in [0, 1], the minimum as 0
   * and the maximum as 1; with equal bounds the read-out is no number at all.
   */
  lemma RelativeReadOutRange(power: real, minPower: real, maxPower: real)
    ensures minPower < maxPower && minPower <= power <= maxPower ==>
              var q := ReadOut(power, true, minPower, maxPower).ratio;
              q.Finite? && 0.0 <= q.value <= 1.0
    ensures minPower < maxPower ==> ReadOut(minPower, true, minPower, maxPower) == Relative(Finite(0.0))
    ensures minPower < maxPower ==> ReadOut(maxPower, true, minPower, maxPower) == Relative(Finite(1.0))
    ensures minPower == maxPower ==> !ReadOut(power, true, minPower, maxPower).ratio.Finite?
  {
    if minPower < maxPower {
      var d := maxPower - minPower;
      assert d / d == 1.0;
      assert 0.0 / d == 0.0;
      if minPower <= power <= maxPower {
        var n := power - minPower;
        var q := n / d;
        assert q * d == n;
        assert 0.0 <= q;
        assert q <= 1.0;
      }
    }
  }

  /** The slot of the array a read-out reads, or the exception it raises. */
  function ReadSlot(stored: Option<seq<real>>, index: int): Result<real, Failure> {
    if stored.None? then Err(NullPointer)
    else if 0 <= index < |stored.value| then Ok(stored.value[index])
    else Err(ArrayIndexOutOfBounds(index))
  }

  class SignalPowerExtractor {
    const source: AudioSource
    const sampleRate: real
    const audioLengthInSecs: real
    /** The energy per window; null until the first extraction that opens the file. */
    var linearPowerArray: array?<real>
    var maxLinearPower: real
    var minLinearPower: real
    /** The slots of the array that hold a window's energy. */
    ghost var written: nat

    /** The extractor of an opened file, before any power is read. */
    constructor (source: AudioSource, sampleRate: real, audioLengthInSecs: real)
      ensures this.source == source && this.sampleRate == sampleRate
      ensures this.audioLengthInSecs == audioLengthInSecs
      ensures linearPowerArray == null
      ensures maxLinearPower == NoMaximum && minLinearPower == DoubleMax && written == 0
    {
      this.source := source;
      this.sampleRate := sampleRate;
      this.audioLengthInSecs := audioLengthInSecs;
      linearPowerArray := null;
      maxLinearPower := NoMaximum;
      minLinearPower := DoubleMax;
      written := 0;
    }

    ghost function State(): PowerState
      reads this, linearPowerArray
    {
      PowerState(if linearPowerArray == null then None else Some(linearPowerArray[..]),
                 minLinearPower, maxLinearPower, written)
    }

    /** `extractPower`: reads the file window by window, storing energies and keeping the bounds. */
    method ExtractPower() returns (failure: Option<Failure>)
      requires SourceFits(source, sampleRate)
      modifies this
      ensures (State(), failure) == Extract(source, sampleRate, audioLengthInSecs, old(State()))
      ensures linearPowerArray == old(linearPowerArray) || fresh(linearPowerArray)
    {
      if source.Unopenable? {
        return None;
      }
      var length := SecondsToIndex(audioLengthInSecs) + 1;
      if length < 0 {
        return Some(NegativeArraySize(length));
      }
      ghost var before := State();
      var powers := new real[length](_ => 0.0);
      linearPowerArray := powers;
      written := 0;
      var readAmount := Truncate(ReadWindow * sampleRate);
      if readAmount < 0 {
        assert powers[..] == Zeros(length, 0.0);
        return Some(NegativeArraySize(readAmount));
      }
      var buffer := new real[readAmount](_ => 0.0);
      assert buffer[..] == Zeros(readAmount, 0.0);
      failure := StoreWindowEnergies(powers, buffer, source.outcomes);
      ghost var all := ChunkEnergies(Zeros(readAmount, 0.0), source.outcomes, 0);
      if |all| <= length {
        assert State() == PowerState(Some(all + Zeros(length - |all|, 0.0)),
                                     RunningMin(before.minPower, all), RunningMax(before.maxPower, all), |all|);
      } else {
        assert State() == PowerState(Some(all[..length]), RunningMin(before.minPower, all[..length + 1]),
                                     RunningMax(before.maxPower, all[..length + 1]), length);
      }
    }

    /** One pass of the read loop: the window's energy goes into the bounds, then into the given slot. */
    method StoreWindow(powers: array<real>, buffer: array<real>, index: nat)
      requires linearPowerArray == powers && powers != buffer && index < powers.Length
      modifies this, powers
      ensures linearPowerArray == powers && written == index + 1
      ensures powers[..] == old(powers[..])[index := Energy(buffer[..])]
      ensures minLinearPower == Min(Energy(buffer[..]), old(minLinearPower))
      ensures maxLinearPower == Max(Energy(buffer[..]), old(maxLinearPower))
    {
      var power := LocalEnergy(buffer);
      minLinearPower := Min(power, minLinearPower);
      maxLinearPower := Max(power, maxLinearPower);
      powers[index] := power;
      written := index + 1;
    }

    /**
     * The read loop of `extractPower`: each window read into the buffer has
     * its energy folded into the bounds and then stored in the next slot of
     * the array, until the stream stops or a window finds no slot left.
     */
    method StoreWindowEnergies(powers: array<real>, buffer: array<real>, outcomes: seq<ReadOutcome<real>>)
      returns (failure: Option<Failure>)
      requires linearPowerArray == powers && powers != buffer && written == 0
      requires forall i :: 0 <= i < powers.Length ==> powers[i] == 0.0
      requires ChunksFit(outcomes, buffer.Length)
      modifies this, powers, buffer
      ensures linearPowerArray == powers
      ensures var all := ChunkEnergies(old(buffer[..]), outcomes, 0);
              var length := powers.Length;
              if |all| <= length then
                && powers[..] == all + Zeros(length - |all|, 0.0)
                && minLinearPower == RunningMin(old(minLinearPower), all)
                && maxLinearPower == RunningMax(old(maxLinearPower), all)
                && written == |all| && failure == None
              else
                && powers[..] == all[..length]
                && minLinearPower == RunningMin(old(minLinearPower), all[..length + 1])
                && maxLinearPower == RunningMax(old(maxLinearPower), all[..length + 1])
                && written == length && failure == Some(ArrayIndexOutOfBounds(length))
    {
      ghost var all := ChunkEnergies(buffer[..], outcomes, 0);
      var index, outcome, before, seen := FillSlots(powers, buffer, outcomes);
      if outcome.Chunk? {
        // A window read after the last slot: its energy reaches the bounds, then the store fails.
        var power := LocalEnergy(buffer);
        ChunkEnergiesStep(before, outcomes, index, buffer[..]);
        minLinearPower := Min(power, minLinearPower);
        maxLinearPower := Max(power, maxLinearPower);
        assert all[..index + 1] == seen + [power];
        assert (seen + [power])[..|seen|] == seen;
        assert all[..index] == seen;
        return Some(ArrayIndexOutOfBounds(index));
      }
      assert all == seen;
      return None;
    }

    /** The read loop while there is a slot left for the window just read. */
    method FillSlots(powers: array<real>, buffer: array<real>, outcomes: seq<ReadOutcome<real>>)
      returns (index: nat, outcome: ReadOutcome<real>, ghost before: seq<real>, ghost seen: seq<real>)
      requires linearPowerArray == powers && powers != buffer && written == 0
      requires forall i :: 0 <= i < powers.Length ==> powers[i] == 0.0
      requires ChunksFit(outcomes, buffer.Length)
      modifies this, powers, buffer
      ensures linearPowerArray == powers && buffer.Length == |before|
      ensures index <= powers.Length && written == index && |seen| == index
      ensures outcome == OutcomeAt(outcomes, index) && (outcome.Chunk? ==> index == powers.Length)
      ensures outcome.Chunk? ==> buffer[..] == Refill(before, outcome.data)
      ensures ChunkEnergies(old(buffer[..]), outcomes, 0) == seen + ChunkEnergies(before, outcomes, index)
      ensures powers[..] == seen + Zeros(powers.Length - index, 0.0)
      ensures minLinearPower == RunningMin(old(minLinearPower), seen)
      ensures maxLinearPower == RunningMax(old(maxLinearPower), seen)
    {
      ghost var all := ChunkEnergies(buffer[..], outcomes, 0);
      seen := [];
      before := buffer[..];
      index := 0;
      outcome := ReadInto(buffer, outcomes, index);
      while outcome.Chunk? && index < powers.Length
        invariant linearPowerArray == powers && buffer.Length == |before|
        invariant 0 <= index <= powers.Length && written == index && |seen| == index
        invariant outcome == OutcomeAt(outcomes, index)
        invariant outcome.Chunk? ==> buffer[..] == Refill(before, outcome.data)
        invariant all == seen + ChunkEnergies(before, outcomes, index)
        invariant powers[..] == seen + Zeros(powers.Length - index, 0.0)
        invariant minLinearPower == RunningMin(old(minLinearPower), seen)
        invariant maxLinearPower == RunningMax(old(maxLinearPower), seen)
        decreases |outcomes| - index
      {
        ghost var filled := buffer[..];
        ghost var power := Energy(filled);
        SeenGrows(all, seen, before, outcomes, index, filled);
        StoreWindow(powers, buffer, index);
        StoreExtendsFilled(seen, power, powers.Length);
        RunningStep(old(minLinearPower), old(maxLinearPower), seen, power);
        seen := seen + [power];
        index := index + 1;
        before := filled;
        outcome := ReadInto(buffer, outcomes, index);
      }
    }

    /**
     * `powerAt`: extracts the powers on the first call, while the array is
     * still null, then reads out the window that holds `seconds`.
     */
    method PowerAt(seconds: real, relative: bool) returns (r: Result<Readout, Failure>)
      requires SourceFits(source, sampleRate)
      modifies this
      ensures old(linearPowerArray) != null ==> linearPowerArray == old(linearPowerArray) && State() == old(State())
      ensures var (after, failure) := Extract(source, sampleRate, audioLengthInSecs, old(State()));
              old(linearPowerArray) == null ==> State() == after && (failure.Some? ==> r == Err(failure.value))
      ensures r.Ok? ==> ReadSlot(State().stored, SecondsToIndex(seconds)).Ok?
      ensures r.Ok? ==> r.value == ReadOut(ReadSlot(State().stored, SecondsToIndex(seconds)).value,
                                            relative, minLinearPower, maxLinearPower)
      ensures r.Err? && !(old(linearPowerArray) == null && Extract(source, sampleRate, audioLengthInSecs, old(State())).1.Some?) ==>
                ReadSlot(State().stored, SecondsToIndex(seconds)) == Err(r.error)
    {
      if linearPowerArray == null {
        var failure := ExtractPower();
        if failure.Some? {
          return Err(failure.value);
        }
      }
      var index := SecondsToIndex(seconds);
      if linearPowerArray == null {
        return Err(NullPointer);
      }
      if index < 0 || index >= linearPowerArray.Length {
        return Err(ArrayIndexOutOfBounds(index));
      }
      var power := linearPowerArray[index];
      if relative {
        var powerDifference := maxLinearPower - minLinearPower;
        r := Ok(Relative(Divide(power - minLinearPower, powerDifference)));
      } else {
        r := Ok(Decibels(power));
      }
    }
  }

  /**
   * A read-out of a filled slot while the bounds bracket every filled slot
   * lies in [0, 1] as soon as the minimum is below the maximum.
   */
  lemma FilledSlotReadsOutInUnitInterval(s: PowerState, index: int)
    requires Bracketed(s) && s.stored.Some? && 0 <= index < s.written && s.minPower < s.maxPower
    ensures ReadSlot(s.stored, index).Ok?
    ensures var q := ReadOut(ReadSlot(s.stored, index).value, true, s.minPower, s.maxPower).ratio;
            q.Finite? && 0.0 <= q.value <= 1.0
  {
    RelativeReadOutRange(s.stored.value[index], s.minPower, s.maxPower);
  }

  /**
   * A slot no window reached still holds 0.0, and when every window had some
   * energy its relative read-out is negative: `powerAt` does not keep the
   * promise of a value in [0, 1] for the slots after the last window.
   */
  lemma UnfilledSlotReadsOutBelowZero(s: PowerState, index: int)
    requires s.stored.Some? && s.written <= index < |s.stored.value| && s.stored.value[index] == 0.0
    requires 0.0 < s.minPower < s.maxPower
    ensures ReadSlot(s.stored, index) == Ok(0.0)
    ensures var q := ReadOut(ReadSlot(s.stored, index).value, true, s.minPower, s.maxPower).ratio;
            q.Finite? && q.value < 0.0
  {
    var q := (0.0 - s.minPower) / (s.maxPower - s.minPower);
    assert q * (s.maxPower - s.minPower) == 0.0 - s.minPower;
  }
}
