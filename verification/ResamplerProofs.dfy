/**
 The resampler is independent of how its input is cut into chunks: it always
 computes the same linear interpolation of the whole signal.
 */
module ResamplerProofs {
  import opened Machine
  import opened CaptureModel

  // ----- Output j of the whole signal

  /** Linear interpolation of the whole signal at input position j * rate / 48000. */
  function Ideal(signal: seq<real>, j: nat, rate: nat): real
    requires signal != []
  {
    Value(None, signal, j * rate)
  }

  /** Outputs j, j + 1, ..., m - 1. */
  function IdealFrom(signal: seq<real>, j: nat, m: nat, rate: nat): seq<real>
    requires signal != []
    decreases m - j
  {
    if j >= m then [] else [Ideal(signal, j, rate)] + IdealFrom(signal, j + 1, m, rate)
  }

  /** How many outputs N input samples allow. */
  function Count(n: nat, rate: nat): nat
    requires rate > 0
  {
    if n == 0 then 0 else (n - 1) * 48_000 / rate + 1
  }

  lemma DivMul(x: nat, d: nat, j: nat)
    requires d > 0
    ensures j <= x / d <==> j * d <= x
  {
    assert x == (x / d) * d + x % d;
    if j <= x / d { MulMono(j, x / d, d); } else { MulMono(x / d + 1, j, d); }
  }

  lemma MulMono(a: nat, b: nat, d: nat)
    requires a <= b
    ensures a * d <= b * d
    ensures (a + 1) * d == a * d + d
  {
  }

  lemma CountOfNone(rate: nat)
    requires rate > 0
    ensures Count(0, rate) == 0
  {
  }

  /** Output j is allowed exactly when its position is not past the last sample. */
  lemma CountBound(n: nat, rate: nat, j: nat)
    requires n > 0 && rate > 0
    ensures j < Count(n, rate) <==> j * rate <= 48_000 * (n - 1)
  {
    DivMul((n - 1) * 48_000, rate, j);
  }

  // ----- A later chunk never changes an earlier output

  lemma PositionOf(phase: nat, n: nat)
    requires n > 0 && phase <= 48_000 * (n - 1)
    ensures phase / 48_000 < n
    ensures phase / 48_000 == n - 1 ==> Fraction(phase) == 0.0
  {
  }

  lemma IdealStable(a: seq<real>, b: seq<real>, j: nat, rate: nat)
    requires a != [] && rate > 0 && j < Count(|a|, rate)
    ensures Ideal(a + b, j, rate) == Ideal(a, j, rate)
  {
    CountBound(|a|, rate, j);
    var phase := j * rate;
    ValueStable(a, b, phase);
  }

  lemma ValueStable(a: seq<real>, b: seq<real>, phase: nat)
    requires a != [] && phase <= 48_000 * (|a| - 1)
    ensures Value(None, a + b, phase) == Value(None, a, phase)
  {
    PositionOf(phase, |a|);
  }

  lemma {:induction false} IdealFromStable(a: seq<real>, b: seq<real>, j: nat, m: nat, rate: nat)
    requires a != [] && rate > 0 && m <= Count(|a|, rate)
    ensures IdealFrom(a + b, j, m, rate) == IdealFrom(a, j, m, rate)
    decreases m - j
  {
    if j < m {
      IdealStable(a, b, j, rate);
      IdealFromStable(a, b, j + 1, m, rate);
    }
  }

  lemma {:induction false} IdealFromSplit(signal: seq<real>, j: nat, k: nat, m: nat, rate: nat)
    requires signal != [] && j <= k <= m
    ensures IdealFrom(signal, j, k, rate) + IdealFrom(signal, k, m, rate) == IdealFrom(signal, j, m, rate)
    decreases k - j
  {
    if j < k { IdealFromSplit(signal, j + 1, k, m, rate); }
  }

  // ----- One chunk, seen from the whole signal

  /** The resampler has consumed `done` and produced its outputs. */
  ghost predicate CaughtUp(r: Resampler, done: seq<real>, rate: nat)
    requires rate > 0
  {
    && r.phase == Count(|done|, rate) * rate - 48_000 * |done|
    && r.prev == if done == [] then None else Some(done[|done| - 1])
  }

  /** A chunk-local position reads the same two samples as the global one. */
  lemma LocalIsGlobal(done: seq<real>, input: seq<real>, phase: int, prev: Option<real>)
    requires input != [] && prev == if done == [] then None else Some(done[|done| - 1])
    requires 0 <= phase && 48_000 * (|done| - 1) < phase
    requires phase - 48_000 * |done| <= 48_000 * (|input| - 1)
    ensures Value(prev, input, phase - 48_000 * |done|) == Value(None, done + input, phase)
  {
    var local := phase - 48_000 * |done|;
    assert local / 48_000 == phase / 48_000 - |done|;
    assert local % 48_000 == phase % 48_000;
    var i := phase / 48_000;
    SameTap(done, input, i, prev);
    SameTap(done, input, i + 1, prev);
  }

  lemma SameTap(done: seq<real>, input: seq<real>, i: int, prev: Option<real>)
    requires input != [] && prev == if done == [] then None else Some(done[|done| - 1])
    requires i >= 0 && i >= |done| - 1
    ensures Tap(prev, input, i - |done|) == Tap(None, done + input, i)
  {
  }

  lemma {:induction false} EmitIsIdeal(done: seq<real>, input: seq<real>, j: nat, rate: nat, prev: Option<real>)
    requires input != [] && rate > 0 && prev == if done == [] then None else Some(done[|done| - 1])
    requires Count(|done|, rate) <= j <= Count(|done + input|, rate)
    ensures var phase := j * rate - 48_000 * |done|;
            var m := Count(|done + input|, rate);
            && Emit(prev, input, phase, rate) == IdealFrom(done + input, j, m, rate)
            && EndPhase(|input|, phase, rate) == m * rate - 48_000 * |done|
    decreases Count(|done + input|, rate) - j
  {
    hide Value, Count;
    var whole := done + input;
    var m := Count(|whole|, rate);
    var phase := j * rate - 48_000 * |done|;
    CountBound(|whole|, rate, j);
    CountOfNone(rate);
    if done != [] { CountBound(|done|, rate, j); }
    if j < m {
      LocalIsGlobal(done, input, j * rate, prev);
      assert (j + 1) * rate == j * rate + rate;
      EmitIsIdeal(done, input, j + 1, rate, prev);
    }
  }

  lemma CountMonotone(n: nat, n': nat, rate: nat)
    requires rate > 0 && n <= n'
    ensures Count(n, rate) <= Count(n', rate)
  {
    if n > 0 {
      var j := Count(n, rate) - 1;
      CountBound(n, rate, j);
      CountBound(n', rate, j);
    }
  }

  /** Feeding a chunk produces the next outputs of the whole signal. */
  lemma FeedContinues(r: Resampler, done: seq<real>, input: seq<real>, rate: nat)
    requires rate != 48_000 && rate != 0 && input != [] && CaughtUp(r, done, rate)
    ensures var (r', out) := Feed(r, input, rate);
            && CaughtUp(r', done + input, rate)
            && out == IdealFrom(done + input, Count(|done|, rate), Count(|done + input|, rate), rate)
  {
    CountMonotone(|done|, |done + input|, rate);
    EmitIsIdeal(done, input, Count(|done|, rate), rate, r.prev);
  }

  // ----- Any number of chunks

  /** What the whole signal resamples to. */
  function Resampled(signal: seq<real>, rate: nat): seq<real> {
    if rate == 48_000 || rate == 0 || signal == [] then signal
    else IdealFrom(signal, 0, Count(|signal|, rate), rate)
  }

  lemma {:induction false} FeedAllIsResampled(chunks: seq<seq<real>>, rate: nat)
    ensures var (r, out) := FeedAll(FRESH_RESAMPLER, chunks, rate);
            && out == Resampled(Flatten(chunks), rate)
            && (rate != 48_000 && rate != 0 ==> CaughtUp(r, Flatten(chunks), rate))
    decreases |chunks|
  {
    if chunks != [] {
      var k := |chunks| - 1;
      var done, input := Flatten(chunks[..k]), chunks[k];
      FeedAllIsResampled(chunks[..k], rate);
      var (r, out) := FeedAll(FRESH_RESAMPLER, chunks[..k], rate);
      if input == [] {
        assert done + input == done && out + input == out;
      } else if rate != 48_000 && rate != 0 {
        FeedContinues(r, done, input, rate);
        JoinOutputs(done, input, rate, out);
      }
    }
  }

  lemma JoinOutputs(done: seq<real>, input: seq<real>, rate: nat, out: seq<real>)
    requires rate != 48_000 && rate != 0 && input != [] && out == Resampled(done, rate)
    ensures out + IdealFrom(done + input, Count(|done|, rate), Count(|done + input|, rate), rate)
            == Resampled(done + input, rate)
  {
    var whole := done + input;
    var k, m := Count(|done|, rate), Count(|whole|, rate);
    CountMonotone(|done|, |whole|, rate);
    if done == [] {
      assert out == [] && k == 0;
    } else {
      IdealFromStable(done, input, 0, k, rate);
      IdealFromSplit(whole, 0, k, m, rate);
    }
  }

  /** Chunk independence: two ways of cutting the same signal give the same output
      and leave the resampler in the same state. */
  lemma ChunksAreIrrelevant(a: seq<seq<real>>, b: seq<seq<real>>, rate: nat)
    requires Flatten(a) == Flatten(b)
    ensures FeedAll(FRESH_RESAMPLER, a, rate).1 == FeedAll(FRESH_RESAMPLER, b, rate).1
    ensures rate != 48_000 && rate != 0 ==> FeedAll(FRESH_RESAMPLER, a, rate).0 == FeedAll(FRESH_RESAMPLER, b, rate).0
  {
    FeedAllIsResampled(a, rate);
    FeedAllIsResampled(b, rate);
  }

  lemma {:induction false} IdealFromAt(signal: seq<real>, j: nat, m: nat, rate: nat, k: nat)
    requires signal != [] && j <= m
    ensures |IdealFrom(signal, j, m, rate)| == m - j
    ensures k < m - j ==> IdealFrom(signal, j, m, rate)[k] == Ideal(signal, j + k, rate)
    decreases m - j
  {
    if j < m { IdealFromAt(signal, j + 1, m, rate, if k == 0 then 0 else k - 1); }
  }

  predicate Between(a: real, b: real, x: real) {
    a <= x <= b || b <= x <= a
  }

  lemma LerpBetween(a: real, b: real, t: real)
    requires 0.0 <= t <= 1.0
    ensures Between(a, b, Lerp(a, b, t))
  {
    hide Between;
    var x := Lerp(a, b, t);
    Scaled(b - a, t, x - a);
    InRange(a, b, x);
  }

  lemma InRange(a: real, b: real, x: real)
    requires b - a >= 0.0 ==> 0.0 <= x - a <= b - a
    requires b - a <= 0.0 ==> b - a <= x - a <= 0.0
    ensures Between(a, b, x)
  {
  }

  lemma Scaled(d: real, t: real, p: real)
    requires 0.0 <= t <= 1.0 && p == d * t
    ensures d >= 0.0 ==> 0.0 <= p <= d
    ensures d <= 0.0 ==> d <= p <= 0.0
  {
    if d >= 0.0 { NonNegativeProduct(d, t); NonNegativeProduct(d, 1.0 - t); assert d * (1.0 - t) == d - d * t; }
    if d <= 0.0 { NonNegativeProduct(-d, t); NonNegativeProduct(-d, 1.0 - t); assert (-d) * (1.0 - t) == -d + d * t; }
  }

  lemma NonNegativeProduct(a: real, b: real)
    requires a >= 0.0 && b >= 0.0
    ensures a * b >= 0.0
  {
  }

  /** After N samples exactly floor((N - 1) * 48000 / rate) + 1 outputs have come out,
      the k-th lying between the two inputs around its position. */
  lemma OutputsLieBetween(chunks: seq<seq<real>>, rate: nat, k: nat)
    requires rate != 48_000 && rate != 0 && Flatten(chunks) != []
    ensures var signal, out := Flatten(chunks), FeedAll(FRESH_RESAMPLER, chunks, rate).1;
            && |out| == (|signal| - 1) * 48_000 / rate + 1
            && (k < |out| ==>
                  var i := k * rate / 48_000;
                  && i < |signal|
                  && Between(signal[i], signal[if i + 1 < |signal| then i + 1 else i], out[k]))
  {
    hide Count, Flatten, FeedAll, Between, Ideal, IdealFrom;
    var signal := Flatten(chunks);
    FeedAllIsResampled(chunks, rate);
    CountOf(|signal|, rate);
    IdealFromAt(signal, 0, Count(|signal|, rate), rate, k);
    if k < Count(|signal|, rate) { IdealBetween(signal, k, rate); }
  }

  lemma CountOf(n: nat, rate: nat)
    requires n > 0 && rate > 0
    ensures Count(n, rate) == (n - 1) * 48_000 / rate + 1
  {
  }

  lemma IdealBetween(signal: seq<real>, k: nat, rate: nat)
    requires signal != [] && rate > 0 && k < Count(|signal|, rate)
    ensures var i := k * rate / 48_000;
            && i < |signal|
            && Between(signal[i], signal[if i + 1 < |signal| then i + 1 else i], Ideal(signal, k, rate))
  {
    hide Count, Between, Value;
    CountBound(|signal|, rate, k);
    PositionOf(k * rate, |signal|);
    IdealLiesBetween(signal, k * rate);
  }

  lemma IdealLiesBetween(signal: seq<real>, phase: nat)
    requires signal != [] && phase / 48_000 < |signal|
    ensures var i := phase / 48_000;
            Between(signal[i], signal[if i + 1 < |signal| then i + 1 else i], Value(None, signal, phase))
  {
    var i := phase / 48_000;
    LerpBetween(Tap(None, signal, i), Tap(None, signal, i + 1), Fraction(phase));
  }

  // ----- Linear interpolation, in so many words

  /** Output k is the two samples around its position, weighted by how near each one
      is, in whole 1/48000ths; the last sample has nothing after it to be weighted. */
  lemma OutputsInterpolate(chunks: seq<seq<real>>, rate: nat, k: nat)
    requires rate != 48_000 && rate != 0
    requires k < |FeedAll(FRESH_RESAMPLER, chunks, rate).1|
    ensures var signal, out := Flatten(chunks), FeedAll(FRESH_RESAMPLER, chunks, rate).1;
            var i, m := k * rate / 48_000, k * rate % 48_000;
            && i < |signal| && (i + 1 == |signal| ==> m == 0)
            && 48_000.0 * out[k] ==
               signal[i] * (48_000 - m) as real + signal[if i + 1 < |signal| then i + 1 else i] * m as real
  {
    hide Count, Flatten, FeedAll, Ideal, IdealFrom;
    var signal := Flatten(chunks);
    FeedAllIsResampled(chunks, rate);
    if signal != [] {
      IdealFromAt(signal, 0, Count(|signal|, rate), rate, k);
      IdealInterpolates(signal, k, rate);
    }
  }

  lemma IdealInterpolates(signal: seq<real>, k: nat, rate: nat)
    requires signal != [] && rate > 0 && k < Count(|signal|, rate)
    ensures var i, m := k * rate / 48_000, k * rate % 48_000;
            && i < |signal| && (i + 1 == |signal| ==> m == 0)
            && 48_000.0 * Ideal(signal, k, rate) ==
               signal[i] * (48_000 - m) as real + signal[if i + 1 < |signal| then i + 1 else i] * m as real
  {
    CountBound(|signal|, rate, k);
    hide Count;
    var phase := k * rate;
    PositionOf(phase, |signal|);
    var i, m := phase / 48_000, phase % 48_000;
    var a, b := signal[i], signal[if i + 1 < |signal| then i + 1 else i];
    assert Ideal(signal, k, rate) == Lerp(a, b, m as real / 48_000.0);
    Weighted(a, b, m as real);
  }

  lemma Weighted(a: real, b: real, m: real)
    ensures 48_000.0 * Lerp(a, b, m / 48_000.0) == a * (48_000.0 - m) + b * m
  {
    var t := m / 48_000.0;
    assert m == 48_000.0 * t;
    assert (b - a) * t * 48_000.0 == (b - a) * m;
  }

  /** A ramp comes out as the same ramp: output k is exactly the line's value at input
      position k * rate / 48000, however the line was cut into chunks. */
  lemma RampsAreExact(chunks: seq<seq<real>>, rate: nat, k: nat, c: real, d: real)
    requires rate != 48_000 && rate != 0
    requires k < |FeedAll(FRESH_RESAMPLER, chunks, rate).1|
    requires forall i | 0 <= i < |Flatten(chunks)| :: Flatten(chunks)[i] == c + d * i as real
    ensures FeedAll(FRESH_RESAMPLER, chunks, rate).1[k] == c + d * ((k * rate) as real / 48_000.0)
  {
    hide Flatten, FeedAll;
    OutputsInterpolate(chunks, rate, k);
    var signal, out := Flatten(chunks), FeedAll(FRESH_RESAMPLER, chunks, rate).1;
    var i, m := k * rate / 48_000, k * rate % 48_000;
    assert k * rate == 48_000 * i + m;
    OnTheLine(c, d, i as real, m as real, (k * rate) as real, out[k],
              signal[if i + 1 < |signal| then i + 1 else i]);
  }

  lemma OnTheLine(c: real, d: real, i: real, m: real, pos: real, out: real, next: real)
    requires pos == 48_000.0 * i + m
    requires m != 0.0 ==> next == c + d * (i + 1.0)
    requires 48_000.0 * out == (c + d * i) * (48_000.0 - m) + next * m
    ensures out == c + d * (pos / 48_000.0)
  {
    var di, dm := d * i, d * m;
    assert (c + di) * (48_000.0 - m) == 48_000.0 * (c + di) - (c + di) * m;
    assert d * (i + 1.0) == di + d;
    assert m != 0.0 ==> next * m == (c + di) * m + dm;
    assert d * pos == 48_000.0 * di + dm by { assert d * (48_000.0 * i + m) == 48_000.0 * (d * i) + d * m; }
    assert d * (pos / 48_000.0) == d * pos / 48_000.0;
  }

  /** Output k depends on no other samples than the two around its position. */
  lemma OutputsAreLocal(a: seq<seq<real>>, b: seq<seq<real>>, rate: nat, k: nat)
    requires rate != 48_000 && rate != 0
    requires k < |FeedAll(FRESH_RESAMPLER, a, rate).1| && k < |FeedAll(FRESH_RESAMPLER, b, rate).1|
    requires forall i | 0 <= i < |Flatten(a)| && i < |Flatten(b)| && k * rate / 48_000 <= i <= k * rate / 48_000 + 1 ::
               Flatten(a)[i] == Flatten(b)[i]
    ensures FeedAll(FRESH_RESAMPLER, a, rate).1[k] == FeedAll(FRESH_RESAMPLER, b, rate).1[k]
  {
    hide Flatten, FeedAll;
    OutputsInterpolate(a, rate, k);
    OutputsInterpolate(b, rate, k);
  }
}
