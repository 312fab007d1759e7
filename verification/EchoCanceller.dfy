/**
 The echo canceller as the program writes it: a circular history walked as two
 contiguous runs, and weights updated in place.  Each frame is proved to compute
 `EchoModel.Process` on a plain delay line.
 */
module EchoCancellers {
  import opened Scans
  import opened EchoModel

  /** The circular buffer read newest to oldest, with the newest sample at `newest`. */
  function Unrolled(h: seq<real>, newest: nat): (u: seq<real>)
    requires newest < |h|
    ensures |u| == |h|
  {
    seq(|h|, i requires 0 <= i < |h| => if i <= newest then h[newest - i] else h[|h| + newest - i])
  }

  /** Where the newest sample is when `wp` is the next slot to write. */
  function Before(wp: nat, taps: nat): nat
    requires wp < taps
  {
    if wp == 0 then taps - 1 else wp - 1
  }

  /** Overwriting the oldest slot is shifting the delay line. */
  lemma WriteIsShift(h: seq<real>, wp: nat, x: real)
    requires wp < |h|
    ensures Unrolled(h[wp := x], wp) == Shift(Unrolled(h, Before(wp, |h|)), x)
  {
    var a, b := Unrolled(h[wp := x], wp), Shift(Unrolled(h, Before(wp, |h|)), x);
    forall i | 0 <= i < |h| ensures a[i] == b[i] {}
  }

  /** The first `n` terms of a dot product, as the loops accumulate them. */
  ghost function Partial(a: seq<real>, b: seq<real>, n: nat): real
    requires n <= |a| == |b|
  {
    if n == 0 then 0.0 else Partial(a, b, n - 1) + a[n - 1] * b[n - 1]
  }

  lemma {:induction false} PartialIsDot(a: seq<real>, b: seq<real>, n: nat)
    requires n <= |a| == |b|
    ensures Partial(a, b, n) == Dot(a[..n], b[..n])
  {
    if n > 0 {
      PartialIsDot(a, b, n - 1);
      assert a[..n][..n - 1] == a[..n - 1] && b[..n][..n - 1] == b[..n - 1];
    }
  }

  lemma StepParts(c: Canceller, i: Input, c': Canceller, e: real, out: Sample)
    requires c'.weights == NewWeights(c, i) && c'.window == Shift(c.window, i.far)
    requires c'.refEnv == Envelope(c, i) * ENV_DECAY
    requires c'.dtHold == if HoldNow(c, i) > 0 then HoldNow(c, i) - 1 else 0
    requires e == Desired(i.mic) - Estimate(c, i) && out == ToSample(e)
    ensures (c', out) == Step(c, i)
  {
  }

  class EchoCanceller {
    const taps: nat
    const weights: array<real>
    const history: array<real>
    var wp: nat
    var refEnv: real
    var dtHold: nat

    ghost predicate Ok()
      reads this, weights, history
    {
      weights != history && weights.Length == history.Length == taps && wp < taps
    }

    ghost function Abstract(): Canceller
      requires Ok()
      reads this, weights, history
    {
      Canceller(weights[..], Unrolled(history[..], Before(wp, taps)), refEnv, dtHold)
    }

    constructor (taps: nat)
      ensures Ok() && Abstract() == Fresh(taps)
      ensures fresh(weights) && fresh(history)
    {
      var n := if taps < 1 then 1 else taps;
      this.taps := n;
      weights := new real[n](_ => 0.0);
      history := new real[n](_ => 0.0);
      wp, refEnv, dtHold := 0, 0.0, 0;
      new;
      assert weights[..] == Zeros(n) && history[..] == Zeros(n);
      assert Unrolled(Zeros(n), n - 1) == Zeros(n);
    }

    /** The estimate and the reference power, over the window as two reversed runs. */
    method Filter() returns (y: real, norm: real)
      requires Ok()
      ensures y == Dot(weights[..], Unrolled(history[..], wp))
      ensures norm == Dot(Unrolled(history[..], wp), Unrolled(history[..], wp))
    {
      ghost var w, u := weights[..], Unrolled(history[..], wp);
      y, norm := 0.0, 0.0;
      var wi := 0;
      for k := wp + 1 downto 0
        invariant wi == wp + 1 - k
        invariant y == Partial(w, u, wi) && norm == Partial(u, u, wi)
      {
        var xi := history[k];
        assert xi == u[wi] && weights[wi] == w[wi];
        y := y + weights[wi] * xi;
        norm := norm + xi * xi;
        wi := wi + 1;
      }
      for k := taps downto wp + 1
        invariant wi == wp + 1 + (taps - k)
        invariant y == Partial(w, u, wi) && norm == Partial(u, u, wi)
      {
        var xi := history[k];
        assert xi == u[wi] && weights[wi] == w[wi];
        y := y + weights[wi] * xi;
        norm := norm + xi * xi;
        wi := wi + 1;
      }
      PartialIsDot(w, u, taps);
      PartialIsDot(u, u, taps);
      assert w[..taps] == w && u[..taps] == u;
    }

    /** Add `g` times each window sample to its tap, over the same two runs. */
    method Adapt(g: real)
      requires Ok()
      modifies weights
      ensures weights[..] == AddScaled(old(weights[..]), g, Unrolled(history[..], wp))
    {
      ghost var w, u := weights[..], Unrolled(history[..], wp);
      ghost var target := AddScaled(w, g, u);
      var wi := 0;
      for k := wp + 1 downto 0
        invariant wi == wp + 1 - k
        invariant forall i | 0 <= i < taps :: weights[i] == if i < wi then target[i] else w[i]
      {
        assert u[wi] == history[k];
        AddScaledAt(w, g, u, wi);
        weights[wi] := weights[wi] + g * history[k];
        wi := wi + 1;
      }
      for k := taps downto wp + 1
        invariant wi == wp + 1 + (taps - k)
        invariant forall i | 0 <= i < taps :: weights[i] == if i < wi then target[i] else w[i]
      {
        assert u[wi] == history[k];
        AddScaledAt(w, g, u, wi);
        weights[wi] := weights[wi] + g * history[k];
        wi := wi + 1;
      }
      assert weights[..] == target;
    }

    /** Write the newest reference sample over the oldest. */
    method WriteReference(x: real)
      requires Ok()
      modifies history
      ensures Unrolled(history[..], wp) == Shift(old(Abstract()).window, x)
    {
      WriteIsShift(history[..], wp, x);
      ghost var h := history[..];
      history[wp] := x;
      assert history[..] == h[wp := x];
    }

    /** The far-end envelope, then the double-talk detector. */
    method Detect(i: Input, d: real)
      requires Ok() && d == Desired(i.mic)
      modifies this`refEnv, this`dtHold
      ensures refEnv == Envelope(old(Abstract()), i)
      ensures dtHold == HoldNow(old(Abstract()), i)
    {
      if refEnv < Abs(i.far) {
        refEnv := Abs(i.far);
      }
      if Abs(d) > GEIGEL_C * refEnv {
        dtHold := DT_HANGOVER;
      }
    }

    /** Count the hold down, decay the envelope, and move to the next slot. */
    method Advance()
      requires Ok()
      modifies this`refEnv, this`dtHold, this`wp
      ensures Ok() && refEnv == old(refEnv) * ENV_DECAY
      ensures dtHold == if old(dtHold) > 0 then old(dtHold) - 1 else 0
      ensures Before(wp, taps) == old(wp)
    {
      if dtHold > 0 {
        dtHold := dtHold - 1;
      }
      refEnv := refEnv * ENV_DECAY;
      wp := (wp + 1) % taps;
    }

    /** The weights move unless they are held, or the reference is too quiet to learn from. */
    method AdaptIfClear(ghost c: Canceller, i: Input, e: real, norm: real)
      requires Ok()
      requires weights[..] == c.weights && Unrolled(history[..], wp) == Shift(c.window, i.far)
      requires e == Residual(c, i) && norm == Dot(Shift(c.window, i.far), Shift(c.window, i.far))
      requires refEnv == Envelope(c, i) && dtHold == HoldNow(c, i)
      modifies weights
      ensures weights[..] == NewWeights(c, i)
    {
      if dtHold == 0 && refEnv > REF_FLOOR {
        DotSelfNonNegative(Shift(c.window, i.far));
        var g := Gain(e, norm);
        Adapt(g);
      }
    }

    method ProcessSample(i: Input) returns (out: Sample)
      requires Ok()
      modifies this, weights, history
      ensures Ok() && (Abstract(), out) == Step(old(Abstract()), i)
    {
      ghost var c := Abstract();
      WriteReference(i.far);
      ghost var h := history[..];
      var y, norm := Filter();
      var d := Desired(i.mic);
      var e := d - y;
      Detect(i, d);
      AdaptIfClear(c, i, e, norm);
      ghost var w := weights[..];
      Advance();
      out := ToSample(e);
      assert history[..] == h && weights[..] == w;
      StepParts(c, i, Abstract(), e, out);
    }

    /** One frame in place; `far` may be shorter, its missing samples are silence. */
    method ProcessFrame(mic: array<Sample>, far: seq<real>)
      requires Ok()
      modifies this, weights, history, mic
      ensures Ok()
      ensures (Abstract(), mic[..]) == Process(old(Abstract()), Inputs(old(mic[..]), far))
    {
      hide Step;
      ghost var c, ms, ins := Abstract(), mic[..], Inputs(mic[..], far);
      var n := 0;
      while n < mic.Length
        invariant n <= mic.Length && Ok()
        invariant (Abstract(), mic[..n]) == Scan(Step, c, ins[..n])
        invariant forall k | n <= k < mic.Length :: mic[k] == ms[k]
      {
        var x := if n < |far| then far[n] else 0.0;
        ghost var done := mic[..n];
        ScanSnoc(Step, c, ins, n);
        var out := ProcessSample(Input(x, mic[n]));
        mic[n] := out;
        n := n + 1;
        assert mic[..n] == done + [out];
      }
      assert ins[..n] == ins && mic[..n] == mic[..];
    }
  }
}
