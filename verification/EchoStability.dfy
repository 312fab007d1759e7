/**
 What the NLMS update guarantees, for every reference and microphone signal: the
 delay-line reading of the estimate, stability of the adaptive filter, and the
 double-talk freeze.
 */
module EchoStability {
  import opened Scans
  import opened EchoModel

  // ----- The window is a delay line, however the signal is cut into frames

  datatype FramePair = FramePair(mic: seq<Sample>, far: seq<real>)

  function FeedFrames(c: Canceller, frames: seq<FramePair>): (Canceller, seq<Sample>)
    decreases |frames|
  {
    if frames == [] then (c, [])
    else
      var (c1, out1) := Process(c, Inputs(frames[0].mic, frames[0].far));
      var (c2, out2) := FeedFrames(c1, frames[1..]);
      (c2, out1 + out2)
  }

  function AllInputs(frames: seq<FramePair>): seq<Input> {
    if frames == [] then [] else Inputs(frames[0].mic, frames[0].far) + AllInputs(frames[1..])
  }

  /** Cutting a signal into frames makes no difference. */
  lemma {:induction false} FramingIrrelevant(c: Canceller, frames: seq<FramePair>)
    ensures FeedFrames(c, frames) == Process(c, AllInputs(frames))
    decreases |frames|
  {
    if frames != [] {
      var ins := Inputs(frames[0].mic, frames[0].far);
      FramingIrrelevant(Process(c, ins).0, frames[1..]);
      ScanConcat(Step, c, ins, AllInputs(frames[1..]));
    }
  }

  /** The reference `i` samples ago, silent before the start. */
  function Ago(ins: seq<Input>, i: nat): real {
    if i < |ins| then ins[|ins| - 1 - i].far else 0.0
  }

  /** The first k taps `w` applied to the last samples of `ins`: the sum of w[i] * x[n - i]. */
  function Fir(w: seq<real>, ins: seq<Input>, k: nat): real
    requires k <= |w|
  {
    if k == 0 then 0.0 else Fir(w, ins, k - 1) + w[k - 1] * Ago(ins, k - 1)
  }

  /** The window is a plain delay line over the whole signal so far. */
  ghost predicate Remembers(c: Canceller, ins: seq<Input>) {
    forall k | 0 <= k < |c.window| :: c.window[k] == Ago(ins, k)
  }

  /** One sample shifts the delay line by one. */
  lemma ShiftRemembers(c: Canceller, ins: seq<Input>, i: Input)
    requires Remembers(c, ins)
    ensures forall k | 0 <= k < |c.window| :: Shift(c.window, i.far)[k] == Ago(ins + [i], k)
    ensures Step(c, i).0.window == Shift(c.window, i.far)
  {
    forall k | 0 <= k < |c.window| ensures Shift(c.window, i.far)[k] == Ago(ins + [i], k) {
      if k > 0 { assert c.window[k - 1] == Ago(ins, k - 1); }
    }
  }

  /** After any number of samples, the window holds the signal's recent past, silent before the start. */
  lemma {:induction false} WindowIsDelayLine(taps: nat, ins: seq<Input>)
    ensures Remembers(Process(Fresh(taps), ins).0, ins)
    decreases |ins|
  {
    if ins != [] {
      var k := |ins| - 1;
      var c := Process(Fresh(taps), ins[..k]).0;
      WindowIsDelayLine(taps, ins[..k]);
      assert Process(Fresh(taps), ins).0 == Step(c, ins[k]).0;
      ShiftRemembers(c, ins[..k], ins[k]);
      assert ins[..k] + [ins[k]] == ins;
    }
  }

  lemma {:induction false} DotIsFir(w: seq<real>, u: seq<real>, ins: seq<Input>, k: nat)
    requires k <= |w| == |u| && forall i | 0 <= i < |u| :: u[i] == Ago(ins, i)
    ensures Dot(w[..k], u[..k]) == Fir(w, ins, k)
  {
    if k > 0 {
      assert w[..k][..k - 1] == w[..k - 1] && u[..k][..k - 1] == u[..k - 1];
      DotIsFir(w, u, ins, k - 1);
    }
  }

  /** The echo estimate is the taps applied to the signal's recent past. */
  lemma EstimateIsConvolution(c: Canceller, ins: seq<Input>, i: Input)
    requires Remembers(c, ins)
    ensures Estimate(c, i) == Fir(c.weights, ins + [i], |c.weights|)
  {
    ShiftRemembers(c, ins, i);
    var u := Shift(c.window, i.far);
    DotIsFir(c.weights, u, ins + [i], |u|);
    assert c.weights[..|u|] == c.weights && u[..|u|] == u;
  }

  // ----- Inner products

  lemma {:induction false} DotAddScaled(a: seq<real>, g: real, b: seq<real>, c: seq<real>)
    requires |a| == |b| == |c|
    ensures Dot(AddScaled(a, g, b), c) == Dot(a, c) + g * Dot(b, c)
  {
    if a != [] {
      var k := |a| - 1;
      DotAddScaled(a[..k], g, b[..k], c[..k]);
      AddScaledPrefix(a, g, b);
      Distribute(a[k], g, b[k], c[k], Dot(b[..k], c[..k]));
    }
  }

  lemma AddScaledPrefix(a: seq<real>, g: real, b: seq<real>)
    requires |a| == |b| > 0
    ensures AddScaled(a, g, b)[..|a| - 1] == AddScaled(a[..|a| - 1], g, b[..|a| - 1])
    ensures AddScaled(a, g, b)[|a| - 1] == a[|a| - 1] + g * b[|a| - 1]
  {
  }

  lemma Distribute(a: real, g: real, b: real, c: real, d: real)
    ensures (a + g * b) * c == a * c + g * (b * c)
    ensures g * (d + b * c) == g * d + g * (b * c)
  {
  }

  lemma DotSnoc(a: seq<real>, b: seq<real>)
    requires |a| == |b| > 0
    ensures Dot(a, b) == Dot(a[..|a| - 1], b[..|a| - 1]) + a[|a| - 1] * b[|a| - 1]
  {
  }

  /** |a + g b|^2 == |a|^2 + 2 g (a . b) + g^2 |b|^2, over the four inner products. */
  predicate SquareLaw(ss: real, aa: real, ab: real, bb: real, g: real) {
    ss == aa + 2.0 * (g * ab) + g * (g * bb)
  }

  lemma {:induction false} SquareAddScaled(a: seq<real>, g: real, b: seq<real>, s: seq<real>)
    requires |a| == |b| && s == AddScaled(a, g, b)
    ensures SquareLaw(Dot(s, s), Dot(a, a), Dot(a, b), Dot(b, b), g)
  {
    hide Dot, AddScaled, SquareLaw;
    if a == [] {
      SquareOfEmpty(a, g, b, s);
    } else {
      var k := |a| - 1;
      AddScaledPrefix(a, g, b);
      SquareAddScaled(a[..k], g, b[..k], s[..k]);
      DotSnoc(s, s);
      DotSnoc(a, a);
      DotSnoc(a, b);
      DotSnoc(b, b);
      SquareLawStep(Dot(s[..k], s[..k]), Dot(a[..k], a[..k]), Dot(a[..k], b[..k]), Dot(b[..k], b[..k]), g,
                    a[k], b[k], s[k], Dot(s, s), Dot(a, a), Dot(a, b), Dot(b, b));
    }
  }

  lemma SquareOfEmpty(a: seq<real>, g: real, b: seq<real>, s: seq<real>)
    requires |a| == |b| == 0 && s == AddScaled(a, g, b)
    ensures SquareLaw(Dot(s, s), Dot(a, a), Dot(a, b), Dot(b, b), g)
  {
  }

  lemma SquareLawStep(ss: real, aa: real, ab: real, bb: real, g: real, x: real, y: real, z: real,
                      ss': real, aa': real, ab': real, bb': real)
    requires SquareLaw(ss, aa, ab, bb, g) && z == x + g * y
    requires ss' == ss + z * z && aa' == aa + x * x && ab' == ab + x * y && bb' == bb + y * y
    ensures SquareLaw(ss', aa', ab', bb', g)
  {
    assert z * z == x * x + 2.0 * (g * (x * y)) + g * (g * (y * y)) by {
      assert (g * y) * (g * y) == g * (g * (y * y));
      assert x * (g * y) == g * (x * y);
    }
    assert g * ab' == g * ab + g * (x * y);
    assert g * bb' == g * bb + g * (y * y);
    assert g * (g * bb') == g * (g * bb) + g * (g * (y * y));
  }

  // ----- One adapting sample

  /** Squared distance between the taps and an echo path. */
  function Distance(w: seq<real>, path: seq<real>): real
    requires |w| == |path|
  {
    Dot(AddScaled(w, -1.0, path), AddScaled(w, -1.0, path))
  }

  /** What the microphone holds besides the echo of `path`: near-end speech, noise, rounding. */
  function NearEnd(c: Canceller, path: seq<real>, i: Input): real
    requires |path| == |c.weights|
  {
    Desired(i.mic) - Dot(path, Shift(c.window, i.far))
  }

  /** The regularised reference power the step size is divided by. */
  function Power(u: seq<real>): (p: real)
    ensures p > 0.0
  {
    DotSelfNonNegative(u);
    Dot(u, u) + EPS
  }

  lemma HalfOver(e: real, p: real)
    requires p > 0.0
    ensures (MU * e / p) * p == 0.5 * e
  {
  }

  /** The update of an adapting sample is a step along the window, sized so that
      step times power is half the residual. */
  lemma UpdateStep(c: Canceller, i: Input) returns (g: real)
    requires Adapts(c, i)
    ensures NewWeights(c, i) == AddScaled(c.weights, g, Shift(c.window, i.far))
    ensures g * Power(Shift(c.window, i.far)) == 0.5 * Residual(c, i)
  {
    var u := Shift(c.window, i.far);
    DotSelfNonNegative(u);
    g := Gain(Residual(c, i), Dot(u, u));
    HalfOver(Residual(c, i), Power(u));
  }

  /** An update moves every tap along the sample that many ago, all by one common
      factor, which is half the residual over the reference power. */
  lemma UpdateFollowsReference(c: Canceller, ins: seq<Input>, i: Input) returns (g: real)
    requires Remembers(c, ins) && Adapts(c, i)
    ensures g * Power(Shift(c.window, i.far)) == 0.5 * Residual(c, i)
    ensures forall k | 0 <= k < |c.weights| :: NewWeights(c, i)[k] == c.weights[k] + g * Ago(ins + [i], k)
  {
    g := UpdateStep(c, i);
    ShiftRemembers(c, ins, i);
    AddScaledAgo(c.weights, NewWeights(c, i), g, Shift(c.window, i.far), ins + [i]);
  }

  lemma AddScaledAgo(w: seq<real>, w': seq<real>, g: real, u: seq<real>, ins: seq<Input>)
    requires |w| == |u| && w' == AddScaled(w, g, u)
    requires forall k | 0 <= k < |u| :: u[k] == Ago(ins, k)
    ensures |w'| == |w| && forall k | 0 <= k < |w| :: w'[k] == w[k] + g * Ago(ins, k)
  {
    forall k | 0 <= k < |w| ensures w'[k] == w[k] + g * Ago(ins, k) {
      AddScaledAt(w, g, u, k);
    }
  }

  /** Same sign, and between half and all of the size. */
  predicate Shrinks(e: real, e': real) {
    && 0.5 * Abs(e) <= Abs(e') <= Abs(e)
    && (e >= 0.0 ==> e' >= 0.0) && (e <= 0.0 ==> e' <= 0.0)
  }

  /** Recomputed with the new weights, the error keeps its sign and between half
      and all of its size. */
  lemma ErrorShrinks(c: Canceller, i: Input)
    requires Adapts(c, i)
    ensures Shrinks(Residual(c, i), Desired(i.mic) - Dot(NewWeights(c, i), Shift(c.window, i.far)))
  {
    hide Dot, NewWeights, Shrinks;
    var g := UpdateStep(c, i);
    var u := Shift(c.window, i.far);
    ErrorAfterStep(c.weights, NewWeights(c, i), u, g, Desired(i.mic));
    DotSelfNonNegative(u);
    ShrinkScalars(Residual(c, i), Desired(i.mic) - Dot(NewWeights(c, i), u), g, Dot(u, u), Power(u));
  }

  lemma ErrorAfterStep(w: seq<real>, w': seq<real>, u: seq<real>, g: real, d: real)
    requires |w| == |u| && w' == AddScaled(w, g, u)
    ensures |w'| == |u| && d - Dot(w', u) == (d - Dot(w, u)) - g * Dot(u, u)
  {
    DotAddScaled(w, g, u, u);
  }

  lemma ShrinkScalars(e: real, e': real, g: real, n: real, p: real)
    requires n >= 0.0 && p == n + EPS && g * p == 0.5 * e && e' == e - g * n
    ensures Shrinks(e, e')
  {
    HalfStep(e, g, n, p);
  }

  lemma HalfStep(e: real, g: real, n: real, p: real)
    requires n >= 0.0 && p == n + EPS && g * p == 0.5 * e
    ensures e >= 0.0 ==> 0.0 <= g * n <= 0.5 * e
    ensures e <= 0.0 ==> 0.5 * e <= g * n <= 0.0
  {
    assert g * p == g * n + g * EPS;
    SignOfFactor(e, g, p);
    if e >= 0.0 { ProductNonNegative(g, n); ProductNonNegative(g, EPS); }
    if e <= 0.0 {
      ProductNonNegative(-g, n);
      ProductNonNegative(-g, EPS);
      assert (-g) * n == -(g * n) && (-g) * EPS == -(g * EPS);
    }
  }

  lemma SignOfFactor(e: real, g: real, p: real)
    requires p > 0.0 && g * p == 0.5 * e
    ensures e >= 0.0 ==> g >= 0.0
    ensures e <= 0.0 ==> g <= 0.0
  {
    if g < 0.0 { NegativeProduct(g, p); }
    if g > 0.0 { NegativeProduct(-g, p); assert (-g) * p == -(g * p); }
  }

  lemma NegativeProduct(g: real, p: real)
    requires g < 0.0 && p > 0.0
    ensures g * p < 0.0
  {
  }

  lemma ProductNonNegative(a: real, b: real)
    requires a >= 0.0 && b >= 0.0
    ensures a * b >= 0.0
  {
  }

  /** Updating and then comparing with the path is comparing and then updating. */
  lemma {:induction false} Rearrange(w: seq<real>, g: real, u: seq<real>, path: seq<real>)
    requires |w| == |u| == |path|
    ensures AddScaled(AddScaled(w, g, u), -1.0, path) == AddScaled(AddScaled(w, -1.0, path), g, u)
  {
    var w', v := AddScaled(w, g, u), AddScaled(w, -1.0, path);
    var l, r := AddScaled(w', -1.0, path), AddScaled(v, g, u);
    forall k | 0 <= k < |w| ensures l[k] == r[k] {
      AddScaledAt(w, g, u, k);
      AddScaledAt(w, -1.0, path, k);
      AddScaledAt(w', -1.0, path, k);
      AddScaledAt(v, g, u, k);
    }
  }

  /** How far an adapting sample with residual `e`, near end `v` and reference power
      `p` may move the filter away from the path; negative when it comes closer. */
  function Change(e: real, v: real, p: real): real
    requires p > 0.0
  {
    (e * v - 0.75 * (e * e)) / p
  }

  /** A squared signal over the reference power. */
  function Over(q: real, p: real): real
    requires p > 0.0
  {
    (q * q) / p
  }

  lemma StepAgainstPath(w: seq<real>, w': seq<real>, u: seq<real>, path: seq<real>,
                        g: real, d: real, e: real, near: real, p: real)
    requires |w| == |u| == |path| && w' == AddScaled(w, g, u)
    requires e == d - Dot(w, u) && near == d - Dot(path, u)
    requires p == Power(u) && g * p == 0.5 * e
    ensures |w'| == |path|
    ensures Distance(w', path) <= Distance(w, path) + Change(e, near, p)
  {
    hide Dot, AddScaled, Change;
    var v := AddScaled(w, -1.0, path);
    Rearrange(w, g, u, path);
    SquareAddScaled(v, g, u, AddScaled(v, g, u));
    DotAddScaled(w, -1.0, path, u);
    StepBound(e, near, g, Dot(u, u), p, Dot(v, u), Dot(w, u), Dot(path, u), d);
  }

  lemma StepBound(e: real, v: real, g: real, n: real, p: real, vu: real, wu: real, pu: real, d: real)
    requires p > 0.0 && n <= p && g * p == 0.5 * e
    requires vu == wu + -1.0 * pu && e == d - wu && v == d - pu
    ensures 2.0 * (g * vu) + g * (g * n) <= Change(e, v, p)
  {
    assert vu == v - e;
    // g * (g * n) <= g * (g * p) == 0.5 * (g * e)
    SquareNonNegative(g);
    ProductNonNegative(g * g, p - n);
    assert (g * g) * (p - n) == g * (g * p) - g * (g * n);
    assert g * (g * p) == 0.5 * (g * e);
    // both remaining products are multiples of 1 / p
    assert g * (v - e) == g * v - g * e;
    var lhs := 2.0 * (g * v) - 1.5 * (g * e);
    assert lhs * p == e * v - 0.75 * (e * e) by {
      assert (g * v) * p == (g * p) * v;
      assert (g * e) * p == (g * p) * e;
    }
    DivideOut(lhs, p);
  }

  lemma DivideOut(q: real, p: real)
    requires p > 0.0
    ensures (q * p) / p == q
  {
  }

  /** The change in distance of one adapting sample, for any path and any near end. */
  lemma AdaptingSample(c: Canceller, path: seq<real>, i: Input)
    requires |path| == |c.weights| && Adapts(c, i)
    ensures Distance(NewWeights(c, i), path) <=
            Distance(c.weights, path) + Change(Residual(c, i), NearEnd(c, path, i), Power(Shift(c.window, i.far)))
  {
    hide Dot, NewWeights, Distance, Change;
    var g := UpdateStep(c, i);
    StepAgainstPath(c.weights, NewWeights(c, i), Shift(c.window, i.far), path,
                    g, Desired(i.mic), Residual(c, i), NearEnd(c, path, i), Power(Shift(c.window, i.far)));
  }

  // ----- Whole runs

  /** What an adapting sample cancels: its squared residual over the reference power. */
  function Cancelled(c: Canceller, i: Input): real {
    if Adapts(c, i) then Over(Residual(c, i), Power(Shift(c.window, i.far))) else 0.0
  }

  /** What an adapting sample lets in: its squared near end over the reference power. */
  function LetIn(c: Canceller, path: seq<real>, i: Input): real
    requires |path| == |c.weights|
  {
    if Adapts(c, i) then Over(NearEnd(c, path, i), Power(Shift(c.window, i.far))) else 0.0
  }

  function TotalCancelled(c: Canceller, ins: seq<Input>): real
    decreases |ins|
  {
    if ins == [] then 0.0 else Cancelled(c, ins[0]) + TotalCancelled(Step(c, ins[0]).0, ins[1..])
  }

  function TotalLetIn(c: Canceller, path: seq<real>, ins: seq<Input>): real
    requires |path| == |c.weights|
    decreases |ins|
  {
    if ins == [] then 0.0 else LetIn(c, path, ins[0]) + TotalLetIn(Step(c, ins[0]).0, path, ins[1..])
  }

  /** Adapting or frozen, one sample obeys the energy balance. */
  lemma SampleBalance(c: Canceller, path: seq<real>, i: Input)
    requires |path| == |c.weights|
    ensures Distance(NewWeights(c, i), path) + 0.5 * Cancelled(c, i)
            <= Distance(c.weights, path) + LetIn(c, path, i)
    ensures NearEnd(c, path, i) == 0.0 ==>
            Distance(NewWeights(c, i), path) + 0.75 * Cancelled(c, i) <= Distance(c.weights, path)
  {
    if Adapts(c, i) {
      AdaptingSample(c, path, i);
      CompleteSquare(Residual(c, i), NearEnd(c, path, i), Power(Shift(c.window, i.far)));
    }
  }

  lemma CompleteSquare(e: real, v: real, p: real)
    requires p > 0.0
    ensures Change(e, v, p) <= Over(v, p) - 0.5 * Over(e, p)
    ensures v == 0.0 ==> Change(e, v, p) == -0.75 * Over(e, p)
  {
    SquareNonNegative(0.5 * e - v);
    var ee, vv, ev := e * e, v * v, e * v;
    assert (0.5 * e - v) * (0.5 * e - v) == 0.25 * ee - ev + vv;
    OverPower(ee, vv, ev, p);
    assert v == 0.0 ==> ev == 0.0;
  }

  lemma OverPower(ee: real, vv: real, ev: real, p: real)
    requires p > 0.0 && 0.25 * ee - ev + vv >= 0.0
    ensures (ev - 0.75 * ee) / p <= vv / p - 0.5 * (ee / p)
    ensures ev == 0.0 ==> (ev - 0.75 * ee) / p == -0.75 * (ee / p)
  {
    var r := 1.0 / p;
    assert r > 0.0;
    ByReciprocal(ev - 0.75 * ee, p);
    ByReciprocal(vv, p);
    ByReciprocal(ee, p);
    ProductNonNegative(0.25 * ee - ev + vv, r);
    assert (0.25 * ee - ev + vv) * r == 0.25 * (ee * r) - ev * r + vv * r;
    assert (ev - 0.75 * ee) * r == ev * r - 0.75 * (ee * r);
  }

  lemma ByReciprocal(q: real, p: real)
    requires p > 0.0
    ensures q / p == q * (1.0 / p)
  {
  }

  lemma FirstStep(c: Canceller, ins: seq<Input>) returns (c1: Canceller)
    requires ins != []
    ensures c1 == Step(c, ins[0]).0 && c1.weights == NewWeights(c, ins[0])
    ensures Process(c, ins).0 == Process(c1, ins[1..]).0
  {
    ScanFirst(Step, c, ins);
    c1 := Step(c, ins[0]).0;
  }

  /** Robust stability, for every signal and every echo path: what the filter
      cancels over a run, plus the distance it ends at, is paid for by the distance
      it began at and the near end it let in. */
  lemma {:induction false} RobustStability(c: Canceller, path: seq<real>, ins: seq<Input>)
    requires |path| == |c.weights|
    ensures |Process(c, ins).0.weights| == |path|
    ensures Distance(Process(c, ins).0.weights, path) + 0.5 * TotalCancelled(c, ins)
            <= Distance(c.weights, path) + TotalLetIn(c, path, ins)
    decreases |ins|
  {
    if ins != [] {
      SampleBalance(c, path, ins[0]);
      var c1 := FirstStep(c, ins);
      RobustStability(c1, path, ins[1..]);
    }
  }

  /** The microphone hears exactly the echo of `path`, sample after sample. */
  ghost predicate PureEcho(c: Canceller, path: seq<real>, ins: seq<Input>)
    requires |path| == |c.weights|
    decreases |ins|
  {
    ins == [] || (NearEnd(c, path, ins[0]) == 0.0 && PureEcho(Step(c, ins[0]).0, path, ins[1..]))
  }

  /** With pure echo, the whole run cancels no more than the distance it started with. */
  lemma {:induction false} PureEchoBudget(c: Canceller, path: seq<real>, ins: seq<Input>)
    requires |path| == |c.weights| && PureEcho(c, path, ins)
    ensures |Process(c, ins).0.weights| == |path|
    ensures Distance(Process(c, ins).0.weights, path) + 0.75 * TotalCancelled(c, ins) <= Distance(c.weights, path)
    decreases |ins|
  {
    if ins != [] {
      SampleBalance(c, path, ins[0]);
      var c1 := FirstStep(c, ins);
      PureEchoBudget(c1, path, ins[1..]);
    }
  }

  /** With pure echo, no sample of the run, adapting or frozen, moves the filter away from the path. */
  lemma {:induction false} PureEchoStability(c: Canceller, path: seq<real>, ins: seq<Input>, k: nat)
    requires |path| == |c.weights| && k < |ins| && PureEcho(c, path, ins)
    ensures |Process(c, ins[..k]).0.weights| == |Process(c, ins[..k + 1]).0.weights| == |path|
    ensures Distance(Process(c, ins[..k + 1]).0.weights, path) <= Distance(Process(c, ins[..k]).0.weights, path)
    decreases |ins|
  {
    var c1 := FirstStep(c, ins[..k + 1]);
    assert ins[..k + 1][1..] == ins[1..][..k];
    if k == 0 {
      SampleBalance(c, path, ins[0]);
      CancelledNonNegative(c, ins[0]);
    } else {
      var c1' := FirstStep(c, ins[..k]);
      assert ins[..k][1..] == ins[1..][..k - 1];
      PureEchoStability(c1, path, ins[1..], k - 1);
    }
  }

  lemma CancelledNonNegative(c: Canceller, i: Input)
    ensures Cancelled(c, i) >= 0.0
  {
    if Adapts(c, i) { OverNonNegative(Residual(c, i), Power(Shift(c.window, i.far))); }
  }

  lemma OverNonNegative(q: real, p: real)
    requires p > 0.0
    ensures Over(q, p) >= 0.0
  {
    SquareNonNegative(q);
    ByReciprocal(q * q, p);
    ProductNonNegative(q * q, 1.0 / p);
  }

  // ----- Double talk

  /** A double-talk trigger freezes the weights on that sample and the 2399 after
      it, whatever arrives. */
  lemma DoubleTalkFreezes(c: Canceller, ins: seq<Input>)
    requires 0 < |ins| <= DT_HANGOVER && DoubleTalk(c, ins[0])
    ensures Process(c, ins).0.weights == c.weights
  {
    var c1 := FirstStep(c, ins);
    HoldCounts(c, ins[0]);
    HeldWeights(c1, ins[1..]);
  }

  lemma HoldCounts(c: Canceller, i: Input)
    ensures var h := Step(c, i).0.dtHold;
            h == if DoubleTalk(c, i) then DT_HANGOVER - 1 else if c.dtHold > 0 then c.dtHold - 1 else 0
    ensures DoubleTalk(c, i) || c.dtHold > 0 ==> NewWeights(c, i) == c.weights
  {
  }

  lemma {:induction false} HeldWeights(c: Canceller, ins: seq<Input>)
    requires |ins| <= c.dtHold <= DT_HANGOVER
    ensures Process(c, ins).0.weights == c.weights
    decreases |ins|
  {
    if ins != [] {
      var c1 := FirstStep(c, ins);
      HoldCounts(c, ins[0]);
      HeldWeights(c1, ins[1..]);
    }
  }

  // ----- The far-end envelope

  /** The decay after `n` samples. */
  function Decay(n: nat): real {
    if n == 0 then 1.0 else Decay(n - 1) * ENV_DECAY
  }

  /** The far-end sample of `n` samples ago, as loud as the envelope remembers it. */
  function Echoed(ins: seq<Input>, n: nat): real {
    Abs(Ago(ins, n)) * Decay(n + 1)
  }

  lemma EchoedFades(ins: seq<Input>, i: Input, n: nat)
    ensures Echoed(ins + [i], n + 1) == Echoed(ins, n) * ENV_DECAY
    ensures Echoed(ins + [i], 0) == Abs(i.far) * ENV_DECAY
  {
    assert Ago(ins + [i], n + 1) == Ago(ins, n) && Ago(ins + [i], 0) == i.far;
    assert Decay(0) * ENV_DECAY == ENV_DECAY;
    var a := Abs(Ago(ins, n));
    assert a * (Decay(n + 1) * ENV_DECAY) == (a * Decay(n + 1)) * ENV_DECAY;
  }

  lemma ScaleKeepsOrder(a: real, b: real)
    requires a >= b
    ensures a * ENV_DECAY >= b * ENV_DECAY
  {
  }

  /** The envelope the detector compares against is exactly the loudest decayed
      sample of the whole far end so far: none is above it, and one reaches it. */
  lemma {:induction false} EnvelopeIsPeak(taps: nat, ins: seq<Input>) returns (at: nat)
    ensures var env := Process(Fresh(taps), ins).0.refEnv;
            && (if ins == [] then env == 0.0 else at < |ins| && env == Echoed(ins, at))
            && forall n | 0 <= n < |ins| :: Echoed(ins, n) <= env
    decreases |ins|
  {
    hide Echoed, Abs;
    at := 0;
    if ins != [] {
      var k := |ins| - 1;
      var init, i := ins[..k], ins[k];
      assert init + [i] == ins;
      var before := EnvelopeIsPeak(taps, init);
      var c := Process(Fresh(taps), init).0;
      assert Process(Fresh(taps), ins).0 == Step(c, i).0;
      forall n | 0 <= n < |ins| ensures Echoed(ins, n) <= Envelope(c, i) * ENV_DECAY {
        if n > 0 {
          EchoedFades(init, i, n - 1);
          ScaleKeepsOrder(Envelope(c, i), Echoed(init, n - 1));
        } else {
          EchoedFades(init, i, 0);
          ScaleKeepsOrder(Envelope(c, i), Abs(i.far));
        }
      }
      EchoedFades(init, i, before);
      at := if init == [] || c.refEnv < Abs(i.far) then 0 else before + 1;
      AbsNonNegative(i.far);
    }
  }

  lemma AbsNonNegative(r: real)
    ensures Abs(r) >= 0.0
  {
  }

  // ----- A silent far end

  ghost predicate Silent(u: seq<real>) {
    forall i | 0 <= i < |u| :: u[i] == 0.0
  }

  lemma {:induction false} DotZero(w: seq<real>, u: seq<real>)
    requires |w| == |u| && Silent(u)
    ensures Dot(w, u) == 0.0
  {
    if w != [] { DotZero(w[..|w| - 1], u[..|u| - 1]); }
  }

  /** With nothing played, every microphone sample passes through to within one step. */
  lemma {:induction false} SilentFarEndPasses(c: Canceller, ins: seq<Input>, k: nat)
    requires Silent(c.window) && k < |ins|
    requires forall i | 0 <= i < |ins| :: ins[i].far == 0.0
    ensures -1 <= (Process(c, ins).1[k] as int) - (ins[k].mic as int) <= 1
    ensures Silent(Process(c, ins).0.window)
    decreases |ins|
  {
    var n := |ins| - 1;
    var (c1, outs) := Process(c, ins[..n]);
    if n > 0 { SilentFarEndPasses(c, ins[..n], if k < n then k else 0); }
    SilentSample(c1, ins[n]);
    var (c2, o) := Step(c1, ins[n]);
    assert Process(c, ins) == (c2, outs + [o]);
  }

  lemma SilentSample(c: Canceller, i: Input)
    requires Silent(c.window) && i.far == 0.0
    ensures Silent(Step(c, i).0.window)
    ensures -1 <= (Step(c, i).1 as int) - (i.mic as int) <= 1
  {
    DotZero(c.weights, Shift(c.window, i.far));
    PassThrough(i.mic);
  }

  lemma PassThrough(m: Sample)
    ensures -1 <= (ToSample(Desired(m)) as int) - (m as int) <= 1
  {
    var d := m as real / 32768.0;
    assert -1.0 <= d <= 1.0;
    assert d * 32767.0 == m as real - d;
  }
}
