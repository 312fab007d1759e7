/**
 When the echo canceller learns, what it learns and what it lets out, over every run
 from a new canceller and in terms of the samples alone.
 */
module EchoAdaptation {
  import opened EchoModel
  import opened EchoStability

  // ----- Where a run starts from

  /** A new canceller has as many taps as it was asked for, but at least one; they start
      at zero, and there are never more or fewer of them. */
  lemma {:induction false} TapsOfARun(taps: nat, ins: seq<Input>)
    ensures |Process(Fresh(taps), ins).0.weights| == if taps < 1 then 1 else taps
    ensures forall k | 0 <= k < |Process(Fresh(taps), []).0.weights| :: Process(Fresh(taps), []).0.weights[k] == 0.0
    decreases |ins|
  {
    if ins != [] {
      TapsOfARun(taps, ins[..|ins| - 1]);
      LastStep(taps, ins);
    }
  }

  /** A frame pairs each microphone sample with the reference sample at its own place, and
      a short reference is the same as one padded with silence. */
  lemma FrameInputs(mic: seq<Sample>, far: seq<real>, i: nat)
    requires i < |mic|
    ensures Inputs(mic, far)[i].mic == mic[i]
    ensures i < |far| ==> Inputs(mic, far)[i].far == far[i]
    ensures Inputs(mic, far) == Inputs(mic, far + seq(|mic|, _ => 0.0))
  {
  }

  // ----- The loudest of the far end

  /** A sample's value after fading for n samples. */
  function Faded(x: real, n: nat): real {
    if n == 0 then x else 0.9995 * Faded(x, n - 1)
  }

  /** The loudest faded sample of the far end, in either direction. */
  ghost predicate Loudest(ins: seq<Input>, peak: real) {
    && (exists n | 0 <= n < |ins| :: peak == Faded(Ago(ins, n), n) || peak == Faded(-Ago(ins, n), n))
    && forall n | 0 <= n < |ins| :: Faded(Ago(ins, n), n) <= peak && Faded(-Ago(ins, n), n) <= peak
  }

  ghost predicate Peaks(ins: seq<Input>, peaks: seq<real>) {
    |peaks| == |ins| && forall k | 0 <= k < |ins| :: Loudest(ins[..k + 1], peaks[k])
  }

  lemma LoudestUnique(ins: seq<Input>, p: real, q: real)
    requires Loudest(ins, p) && Loudest(ins, q)
    ensures p == q
  {
  }

  lemma {:induction false} FadedIsDecay(x: real, n: nat)
    ensures Faded(x, n) == x * Decay(n) && Faded(-x, n) == -(x * Decay(n))
    ensures Decay(n) > 0.0
  {
    if n > 0 {
      FadedIsDecay(x, n - 1);
      assert x * (Decay(n - 1) * 0.9995) == 0.9995 * (x * Decay(n - 1));
    }
  }

  lemma EchoedIsFaded(ins: seq<Input>, n: nat)
    ensures var a, b := Faded(Ago(ins, n), n), Faded(-Ago(ins, n), n);
            Echoed(ins, n) == (if a < b then b else a) * 0.9995
  {
    var x := Ago(ins, n);
    FadedIsDecay(x, n);
    var d := Decay(n);
    assert Abs(x) * (d * 0.9995) == (Abs(x) * d) * 0.9995;
    if x < 0.0 { Negative(x, d); assert (-x) * d == -(x * d); } else { NonNegative(x, d); }
  }

  lemma Negative(x: real, d: real)
    requires x < 0.0 && d > 0.0
    ensures x * d < 0.0
  {
  }

  lemma NonNegative(x: real, d: real)
    requires x >= 0.0 && d > 0.0
    ensures x * d >= 0.0
  {
  }

  /** The canceller before the last sample of a run. */
  function BeforeLast(taps: nat, ins: seq<Input>): Canceller
    requires ins != []
  {
    Process(Fresh(taps), ins[..|ins| - 1]).0
  }

  lemma LastStep(taps: nat, ins: seq<Input>)
    requires ins != []
    ensures var i := ins[|ins| - 1];
            && Process(Fresh(taps), ins).0 == Step(BeforeLast(taps, ins), i).0
            && Process(Fresh(taps), ins).1[|ins| - 1] == Step(BeforeLast(taps, ins), i).1
  {
  }

  /** The envelope the detector compares with, while it handles a sample, is that peak. */
  lemma EnvelopeIsLoudest(taps: nat, ins: seq<Input>)
    requires ins != []
    ensures Loudest(ins, Envelope(BeforeLast(taps, ins), ins[|ins| - 1]))
  {
    hide Envelope, Faded, Echoed, Ago;
    var env := Envelope(BeforeLast(taps, ins), ins[|ins| - 1]);
    var at := EnvelopeIsPeak(taps, ins);
    LastStep(taps, ins);
    forall n | 0 <= n < |ins| ensures Faded(Ago(ins, n), n) <= env && Faded(-Ago(ins, n), n) <= env {
      EchoedIsFaded(ins, n);
    }
    EchoedIsFaded(ins, at);
  }

  // ----- Double talk

  /** The microphone is more than 1.1 times as loud as the peak. */
  predicate TooLoud(i: Input, peak: real) {
    var d := i.mic as real / 32768.0;
    d > 1.1 * peak || -d > 1.1 * peak
  }

  lemma TriggerIsTooLoud(taps: nat, ins: seq<Input>, peak: real)
    requires ins != [] && Loudest(ins, peak)
    ensures DoubleTalk(BeforeLast(taps, ins), ins[|ins| - 1]) <==> TooLoud(ins[|ins| - 1], peak)
    ensures Envelope(BeforeLast(taps, ins), ins[|ins| - 1]) == peak
  {
    EnvelopeIsLoudest(taps, ins);
    LoudestUnique(ins, peak, Envelope(BeforeLast(taps, ins), ins[|ins| - 1]));
  }

  /** Some microphone sample since `from` was too loud for its own peak. */
  ghost predicate LoudSince(ins: seq<Input>, peaks: seq<real>, from: int)
    requires |peaks| == |ins|
  {
    exists k | 0 <= k < |ins| :: k >= from && TooLoud(ins[k], peaks[k])
  }

  lemma LoudSinceSnoc(ins: seq<Input>, peaks: seq<real>, from: int)
    requires |peaks| == |ins| > 0
    ensures var n := |ins| - 1;
            LoudSince(ins, peaks, from) <==>
            LoudSince(ins[..n], peaks[..n], from) || (n >= from && TooLoud(ins[n], peaks[n]))
  {
    hide TooLoud;
    var n := |ins| - 1;
    if LoudSince(ins[..n], peaks[..n], from) {
      var k :| 0 <= k < n && k >= from && TooLoud(ins[..n][k], peaks[..n][k]);
      assert TooLoud(ins[k], peaks[k]);
    }
    if k :| 0 <= k < |ins| && k >= from && TooLoud(ins[k], peaks[k]) && k < n {
      assert TooLoud(ins[..n][k], peaks[..n][k]);
    }
  }

  lemma PeaksPrefix(ins: seq<Input>, peaks: seq<real>)
    requires Peaks(ins, peaks) && ins != []
    ensures Peaks(ins[..|ins| - 1], peaks[..|ins| - 1]) && Loudest(ins, peaks[|ins| - 1])
  {
    hide Loudest;
    var n := |ins| - 1;
    assert ins[..n + 1] == ins;
    forall k | 0 <= k < n ensures Loudest(ins[..n][..k + 1], peaks[..n][k]) {
      assert ins[..n][..k + 1] == ins[..k + 1];
    }
  }

  /** What is left of a hold is the samples since the last too loud one, counted from 2399. */
  lemma {:induction false} HoldIsSince(taps: nat, ins: seq<Input>, peaks: seq<real>, m: nat)
    requires Peaks(ins, peaks)
    ensures Process(Fresh(taps), ins).0.dtHold > m <==> LoudSince(ins, peaks, |ins| + m - 2399)
    decreases |ins|
  {
    hide Loudest, LoudSince, TooLoud, DoubleTalk, NewWeights;
    if ins == [] {
      NothingYet(ins, peaks, m);
    } else {
      var n := |ins| - 1;
      PeaksPrefix(ins, peaks);
      HoldIsSince(taps, ins[..n], peaks[..n], m + 1);
      HoldIsSince(taps, ins[..n], peaks[..n], 0);
      LastStep(taps, ins);
      HoldCounts(BeforeLast(taps, ins), ins[n]);
      TriggerIsTooLoud(taps, ins, peaks[n]);
      LoudSinceSnoc(ins, peaks, |ins| + m - 2399);
      if m >= 2399 { Future(ins[..n], peaks[..n], |ins| + m - 2399); }
    }
  }

  lemma NothingYet(ins: seq<Input>, peaks: seq<real>, m: nat)
    requires ins == [] && peaks == []
    ensures !LoudSince(ins, peaks, m - 2399)
  {
  }

  lemma Future(ins: seq<Input>, peaks: seq<real>, from: int)
    requires |peaks| == |ins| && from >= |ins|
    ensures !LoudSince(ins, peaks, from)
  {
  }

  /** Every run has its peaks. */
  lemma {:induction false} PeaksExist(taps: nat, ins: seq<Input>) returns (peaks: seq<real>)
    ensures Peaks(ins, peaks)
    decreases |ins|
  {
    hide Loudest;
    peaks := [];
    if ins != [] {
      var n := |ins| - 1;
      var before := PeaksExist(taps, ins[..n]);
      EnvelopeIsLoudest(taps, ins);
      peaks := before + [Envelope(BeforeLast(taps, ins), ins[n])];
      assert ins[..n + 1] == ins;
      forall k | 0 <= k < |ins| ensures Loudest(ins[..k + 1], peaks[k]) {
        if k < n {
          assert ins[..n][..k + 1] == ins[..k + 1];
          assert Loudest(ins[..n][..k + 1], before[k]);
        }
      }
    }
  }

  // ----- The update

  /** The sum of x[n - i] squared over the first k taps. */
  function Energy(ins: seq<Input>, k: nat): real {
    if k == 0 then 0.0 else Energy(ins, k - 1) + Ago(ins, k - 1) * Ago(ins, k - 1)
  }

  lemma {:induction false} DotIsEnergy(u: seq<real>, ins: seq<Input>, k: nat)
    requires k <= |u| && forall i | 0 <= i < |u| :: u[i] == Ago(ins, i)
    ensures Dot(u[..k], u[..k]) == Energy(ins, k)
  {
    if k > 0 {
      assert u[..k][..k - 1] == u[..k - 1];
      DotIsEnergy(u, ins, k - 1);
    }
  }

  /** The far end is live, and no sample of the last 2400 was double talk. */
  ghost predicate Clear(ins: seq<Input>, peaks: seq<real>)
    requires |peaks| == |ins| > 0
  {
    peaks[|ins| - 1] > 0.0001 && !LoudSince(ins, peaks, |ins| - 2400)
  }

  lemma ClearIsAdapts(taps: nat, ins: seq<Input>, peaks: seq<real>)
    requires Peaks(ins, peaks) && ins != []
    ensures Adapts(BeforeLast(taps, ins), ins[|ins| - 1]) <==> Clear(ins, peaks)
  {
    hide Loudest, LoudSince, TooLoud, DoubleTalk, Envelope;
    var n := |ins| - 1;
    PeaksPrefix(ins, peaks);
    HoldIsSince(taps, ins[..n], peaks[..n], 0);
    TriggerIsTooLoud(taps, ins, peaks[n]);
    LoudSinceSnoc(ins, peaks, |ins| - 2400);
  }

  /** The half-residual step: every tap moves along its own sample by one factor g, and
      g times the window's energy, with a little added, is half the error. */
  predicate HalfResidual(w: seq<real>, w': seq<real>, ins: seq<Input>, g: real)
    requires ins != []
  {
    && |w'| == |w|
    && g * (Energy(ins, |w|) + 0.000001) == 0.5 * (ins[|ins| - 1].mic as real / 32768.0 - Fir(w, ins, |w|))
    && forall k | 0 <= k < |w| :: w'[k] == w[k] + g * Ago(ins, k)
  }

  /** Over any run from a new canceller, a sample takes the half-residual step exactly
      when the loudest faded far sample so far is above 0.0001 and neither it nor any
      of the 2399 samples before it was more than 1.1 times as loud at the microphone
      as its own peak; otherwise the taps stay as they are. */
  lemma LearnsExactly(taps: nat, ins: seq<Input>, peaks: seq<real>) returns (g: real)
    requires Peaks(ins, peaks) && ins != []
    ensures var w, w' := Process(Fresh(taps), ins[..|ins| - 1]).0.weights, Process(Fresh(taps), ins).0.weights;
            if Clear(ins, peaks) then HalfResidual(w, w', ins, g) else w' == w
  {
    hide Clear, Peaks, Adapts, Process;
    var c, i := BeforeLast(taps, ins), ins[|ins| - 1];
    assert c == Process(Fresh(taps), ins[..|ins| - 1]).0;
    ClearIsAdapts(taps, ins, peaks);
    LastStep(taps, ins);
    WindowIsDelayLine(taps, ins[..|ins| - 1]);
    if Adapts(c, i) {
      g := LearnsStep(c, ins[..|ins| - 1], i, ins);
    } else {
      g := 0.0;
      FrozenStep(c, i);
    }
  }

  lemma FrozenStep(c: Canceller, i: Input)
    requires !Adapts(c, i)
    ensures Step(c, i).0.weights == c.weights
  {
  }

  lemma LearnsStep(c: Canceller, before: seq<Input>, i: Input, ins: seq<Input>) returns (g: real)
    requires Remembers(c, before) && Adapts(c, i) && ins == before + [i]
    ensures HalfResidual(c.weights, Step(c, i).0.weights, ins, g)
  {
    hide NewWeights, Dot, Adapts, Fir;
    g := UpdateFollowsReference(c, before, i);
    EstimateIsConvolution(c, before, i);
    ShiftRemembers(c, before, i);
    var u := Shift(c.window, i.far);
    DotIsEnergy(u, ins, |u|);
    assert u[..|u|] == u;
  }

  // ----- What comes out

  /** A whole number of steps, short of the value by less than one and never past it. */
  predicate Toward(out: int, v: real) {
    if v >= 0.0 then 0 <= out && out as real <= v < out as real + 1.0
    else out <= 0 && out as real - 1.0 < v <= out as real
  }

  /** The sample that replaces the microphone's is the error in 32767ths of full scale,
      clipped to full scale and rounded toward zero. */
  lemma OutputExactly(taps: nat, ins: seq<Input>)
    requires ins != []
    ensures var w := Process(Fresh(taps), ins[..|ins| - 1]).0.weights;
            var e := ins[|ins| - 1].mic as real / 32768.0 - Fir(w, ins, |w|);
            var out := Process(Fresh(taps), ins).1[|ins| - 1];
            && (-1.0 <= e <= 1.0 ==> Toward(out, e * 32767.0))
            && (e > 1.0 ==> out == 32767) && (e < -1.0 ==> out == -32767)
  {
    hide Fir;
    var c, i := BeforeLast(taps, ins), ins[|ins| - 1];
    LastStep(taps, ins);
    WindowIsDelayLine(taps, ins[..|ins| - 1]);
    assert ins[..|ins| - 1] + [i] == ins;
    EstimateIsConvolution(c, ins[..|ins| - 1], i);
    RoundsTowardZero(Residual(c, i));
  }

  lemma RoundsTowardZero(e: real)
    ensures -1.0 <= e <= 1.0 ==> Toward(ToSample(e), e * 32767.0)
    ensures (e > 1.0 ==> ToSample(e) == 32767) && (e < -1.0 ==> ToSample(e) == -32767)
  {
  }
}
