/**
 Running a step function over a sequence of inputs: the shape shared by every
 stateful filter in the audio path.
 */
module Scans {

  /** The state after all inputs, and one output for each. */
  function Scan<S, I, O>(step: (S, I) -> (S, O), s: S, ins: seq<I>): (r: (S, seq<O>))
    ensures |r.1| == |ins|
  {
    if ins == [] then (s, [])
    else
      var (s1, outs) := Scan(step, s, ins[..|ins| - 1]);
      var (s2, o) := step(s1, ins[|ins| - 1]);
      (s2, outs + [o])
  }

  /** One more input at the end. */
  lemma ScanSnoc<S, I, O>(step: (S, I) -> (S, O), s: S, ins: seq<I>, n: nat)
    requires n < |ins|
    ensures var (s1, outs) := Scan(step, s, ins[..n]);
            var (s2, o) := step(s1, ins[n]);
            Scan(step, s, ins[..n + 1]) == (s2, outs + [o])
  {
    assert ins[..n + 1][..n] == ins[..n];
  }

  /** Where the input is cut makes no difference. */
  lemma {:induction false} ScanConcat<S, I, O>(step: (S, I) -> (S, O), s: S, a: seq<I>, b: seq<I>)
    ensures Scan(step, s, a + b).0 == Scan(step, Scan(step, s, a).0, b).0
    ensures Scan(step, s, a + b).1 == Scan(step, s, a).1 + Scan(step, Scan(step, s, a).0, b).1
    decreases |b|
  {
    if b == [] {
      assert a + b == a;
    } else {
      var k := |b| - 1;
      ScanConcat(step, s, a, b[..k]);
      ScanSnoc(step, s, a + b, |a| + k);
      ScanSnoc(step, Scan(step, s, a).0, b, k);
      assert (a + b)[..|a| + k] == a + b[..k];
      assert (a + b)[..|a| + k + 1] == a + b && b[..k + 1] == b;
    }
  }

  /** The same run, first input first. */
  lemma ScanFirst<S, I, O>(step: (S, I) -> (S, O), s: S, ins: seq<I>)
    requires ins != []
    ensures Scan(step, s, ins).0 == Scan(step, step(s, ins[0]).0, ins[1..]).0
  {
    var a, b := [ins[0]], ins[1..];
    assert ins == a + b && a[..0] == [];
    assert Scan(step, s, a).0 == step(s, ins[0]).0;
    ScanConcat(step, s, a, b);
  }
}
