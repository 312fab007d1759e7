/**
 The NLMS echo canceller over the reals: one sample, one frame, and a run of
 frames.  `window` is the plain delay line, newest sample first; the circular
 history that implements it is in EchoCanceller.dfy.
 */
module EchoModel {
  import opened Scans

  const MU: real := 0.5
  const EPS: real := 0.000001
  const GEIGEL_C: real := 1.1
  const DT_HANGOVER: nat := 2400
  const REF_FLOOR: real := 0.0001
  const ENV_DECAY: real := 0.9995

  type Sample = x: int | -0x8000 <= x < 0x8000

  function Abs(r: real): real {
    if r < 0.0 then -r else r
  }

  function Dot(a: seq<real>, b: seq<real>): real
    requires |a| == |b|
  {
    if a == [] then 0.0
    else
      var k := |a| - 1;
      Dot(a[..k], b[..k]) + a[k] * b[k]
  }

  /** `a + g * b` */
  function AddScaled(a: seq<real>, g: real, b: seq<real>): (r: seq<real>)
    requires |a| == |b|
    ensures |r| == |a|
  {
    if a == [] then []
    else
      var k := |a| - 1;
      AddScaled(a[..k], g, b[..k]) + [a[k] + g * b[k]]
  }

  lemma {:induction false} AddScaledAt(a: seq<real>, g: real, b: seq<real>, i: nat)
    requires i < |a| == |b|
    ensures AddScaled(a, g, b)[i] == a[i] + g * b[i]
  {
    var k := |a| - 1;
    if i < k { AddScaledAt(a[..k], g, b[..k], i); }
  }

  datatype RawCanceller = Canceller(weights: seq<real>, window: seq<real>, refEnv: real, dtHold: nat)

  type Canceller = c: RawCanceller | |c.weights| == |c.window| > 0 witness Canceller([0.0], [0.0], 0.0, 0)

  function Zeros(n: nat): seq<real> {
    seq(n, _ => 0.0)
  }

  function Fresh(taps: nat): (c: Canceller) {
    var n := if taps < 1 then 1 else taps;
    Canceller(Zeros(n), Zeros(n), 0.0, 0)
  }

  /** One sample pair: what was played and what the microphone captured. */
  datatype Input = Input(far: real, mic: Sample)

  function Shift(window: seq<real>, x: real): (r: seq<real>)
    requires window != []
    ensures |r| == |window|
  {
    [x] + window[..|window| - 1]
  }

  function Desired(m: Sample): real {
    m as real / 32768.0
  }

  function Estimate(c: Canceller, i: Input): real {
    Dot(c.weights, Shift(c.window, i.far))
  }

  function Residual(c: Canceller, i: Input): real {
    Desired(i.mic) - Estimate(c, i)
  }

  function Envelope(c: Canceller, i: Input): real {
    if c.refEnv < Abs(i.far) then Abs(i.far) else c.refEnv
  }

  predicate DoubleTalk(c: Canceller, i: Input) {
    Abs(Desired(i.mic)) > GEIGEL_C * Envelope(c, i)
  }

  function HoldNow(c: Canceller, i: Input): nat {
    if DoubleTalk(c, i) then DT_HANGOVER else c.dtHold
  }

  predicate Adapts(c: Canceller, i: Input) {
    HoldNow(c, i) == 0 && Envelope(c, i) > REF_FLOOR
  }

  /** `(e.clamp(-1, 1) * 32767) as i16`, which truncates toward zero */
  function ToSample(e: real): (r: Sample)
    ensures -32767 <= r <= 32767
  {
    var v := if e < -1.0 then -32767.0 else if e > 1.0 then 32767.0 else e * 32767.0;
    assert -32767.0 <= v <= 32767.0;
    if v < 0.0 then -((-v).Floor) else v.Floor
  }

  /** `MU * e / (norm + EPS)` */
  function Gain(e: real, norm: real): real
    requires norm >= 0.0
  {
    MU * e / (norm + EPS)
  }

  lemma {:induction false} DotSelfNonNegative(a: seq<real>)
    ensures Dot(a, a) >= 0.0
  {
    if a != [] {
      DotSelfNonNegative(a[..|a| - 1]);
      SquareNonNegative(a[|a| - 1]);
    }
  }

  lemma SquareNonNegative(r: real)
    ensures r * r >= 0.0
  {
  }

  function NewWeights(c: Canceller, i: Input): (w: seq<real>)
    ensures |w| == |c.weights|
  {
    if Adapts(c, i) then
      var u := Shift(c.window, i.far);
      DotSelfNonNegative(u);
      AddScaled(c.weights, Gain(Residual(c, i), Dot(u, u)), u)
    else c.weights
  }

  /** One sample: the new state and the sample written back. */
  function Step(c: Canceller, i: Input): (r: (Canceller, Sample))
    ensures |r.0.weights| == |c.weights|
  {
    var hold := HoldNow(c, i);
    (Canceller(NewWeights(c, i),
               Shift(c.window, i.far),
               Envelope(c, i) * ENV_DECAY,
               if hold > 0 then hold - 1 else 0),
     ToSample(Residual(c, i)))
  }

  function Process(c: Canceller, ins: seq<Input>): (r: (Canceller, seq<Sample>))
    ensures |r.1| == |ins|
  {
    Scan(Step, c, ins)
  }

  /** A frame's inputs, with silence where the reference is shorter than the microphone frame. */
  function Inputs(mic: seq<Sample>, far: seq<real>): (r: seq<Input>)
    ensures |r| == |mic|
  {
    seq(|mic|, i requires 0 <= i < |mic| => Input(if i < |far| then far[i] else 0.0, mic[i]))
  }
}
