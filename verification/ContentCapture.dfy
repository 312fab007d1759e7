/**
 The capture pipeline as the program writes it: objects that carry a read
 position, a partial frame and a timeline from one packet to the next.
 */
module ContentCaptures {
  import opened Machine
  import opened CaptureModel

  /** The floor and the fraction of a read position, in whole 1/48000ths. */
  lemma FloorOfPhase(phase: int)
    ensures (phase as real / 48000.0).Floor == phase / SAMPLE_RATE
    ensures phase as real / 48000.0 - (phase as real / 48000.0).Floor as real == Fraction(phase)
  {
    var q, r := phase / SAMPLE_RATE, phase % SAMPLE_RATE;
    assert phase == q * SAMPLE_RATE + r;
    assert phase as real / 48000.0 == q as real + r as real / 48000.0;
  }

  class StreamResampler {
    const inRate: nat
    var pos: real
    var prev: Option<real>
    ghost var phase: int

    ghost predicate Ok()
      reads this
    {
      pos == phase as real / 48000.0
    }

    ghost function Abstract(): Resampler
      reads this
    {
      Resampler(phase, prev)
    }

    constructor (inRate: nat)
      ensures Ok() && Abstract() == FRESH_RESAMPLER && this.inRate == inRate
    {
      this.inRate := inRate;
      pos, prev, phase := 0.0, None, 0;
    }

    method Process(input: seq<real>) returns (out: seq<real>)
      requires Ok()
      modifies this
      ensures Ok() && (Abstract(), out) == Feed(old(Abstract()), input, inRate)
    {
      if inRate == SAMPLE_RATE || inRate == 0 || input == [] {
        return input;
      }
      hide Value;
      var ratio := inRate as real / 48000.0;
      var n := |input|;
      var last := (n - 1) as real;
      var before := prev;
      ghost var start := phase;
      out := [];
      var p := pos;
      ghost var at := phase;
      while p <= last
        invariant p == at as real / 48000.0
        invariant out + Emit(before, input, at, inRate) == Emit(before, input, start, inRate)
        invariant EndPhase(n, at, inRate) == EndPhase(n, start, inRate)
        decreases SAMPLE_RATE * n - at
      {
        var sample := Interpolate(before, input, p, at);
        out := out + [sample];
        p := p + ratio;
        at := at + inRate;
      }
      assert Emit(before, input, at, inRate) == [] && EndPhase(n, at, inRate) == at;
      assert out + [] == out;
      phase := at - SAMPLE_RATE * n;
      pos := p - n as real;
      prev := Some(input[n - 1]);
    }

    static method Interpolate(prev: Option<real>, input: seq<real>, p: real, ghost at: int) returns (sample: real)
      requires input != [] && p == at as real / 48000.0
      ensures sample == Value(prev, input, at)
    {
      FloorOfPhase(at);
      var idx := p.Floor;
      var frac := p - idx as real;
      var a := Tap(prev, input, idx);
      var b := Tap(prev, input, idx + 1);
      sample := a + (b - a) * frac;
    }
  }

  class FrameAccumulator {
    var pending: seq<real>

    constructor ()
      ensures pending == []
    {
      pending := [];
    }

    method Push(samples: seq<real>) returns (out: seq<seq<real>>)
      modifies this
      ensures out == Frames(old(pending) + samples) && pending == Rest(old(pending) + samples)
    {
      pending := pending + samples;
      ghost var all := pending;
      out := [];
      while |pending| >= SAMPLES_PER_FRAME
        invariant out + Frames(pending) == Frames(all) && Rest(pending) == Rest(all)
        decreases |pending|
      {
        out := out + [pending[..SAMPLES_PER_FRAME]];
        pending := pending[SAMPLES_PER_FRAME..];
      }
    }

    method Reset()
      modifies this
      ensures pending == []
    {
      pending := [];
    }
  }

  class CaptureTimeline {
    var originUs: Option<U64>
    var nextUs: U64

    ghost function Abstract(): Timeline
      reads this
    {
      Timeline(originUs, nextUs)
    }

    constructor ()
      ensures Abstract() == Timeline(None, 0)
    {
      originUs, nextUs := None, 0;
    }

    method OnPacket(deviceUs: U64, pendingSamples: nat) returns (jumped: bool)
      modifies this
      ensures (Abstract(), jumped) == CaptureModel.OnPacket(old(Abstract()), deviceUs, pendingSamples)
    {
      if originUs.None? {
        originUs := Some(deviceUs);
      }
      var origin := originUs.value;
      var deviceOff: U64 := if deviceUs >= origin then deviceUs - origin else 0;
      var expected := nextUs + SamplesToUs(pendingSamples);
      if deviceOff > SaturatingAdd(expected, GAP_US) {
        nextUs := deviceOff;
        return true;
      }
      return false;
    }

    method OnFrameEmitted()
      modifies this
      ensures Abstract() == CaptureModel.OnFrameEmitted(old(Abstract()))
    {
      nextUs := SaturatingAdd(nextUs, SamplesToUs(SAMPLES_PER_FRAME));
    }
  }

  /** A capture source, as far as its packets' samples: the tail of the pump. */
  class LoopbackSource {
    const resampler: StreamResampler
    const accumulator: FrameAccumulator
    const timeline: CaptureTimeline
    var ready: seq<ContentFrame>

    ghost predicate Ok()
      reads this, resampler
    {
      resampler.Ok()
    }

    ghost function Abstract(): Capture
      reads this, resampler, accumulator, timeline
    {
      Capture(resampler.Abstract(), accumulator.pending, timeline.Abstract())
    }

    constructor (rate: nat)
      ensures Ok() && Abstract() == FRESH_CAPTURE && ready == [] && resampler.inRate == rate
    {
      resampler := new StreamResampler(rate);
      accumulator := new FrameAccumulator();
      timeline := new CaptureTimeline();
      ready := [];
    }

    /** One packet: its timestamp first, then its samples. */
    method PumpPacket(p: Packet)
      requires Ok()
      modifies this, resampler, accumulator, timeline
      ensures Ok()
      ensures Abstract() == Pump(old(Abstract()), p, resampler.inRate).0
      ensures ready == old(ready) + Pump(old(Abstract()), p, resampler.inRate).1
    {
      hide Feed, Frames, Rest, CaptureModel.OnPacket, Number;
      ghost var c := Abstract();
      if p.qpc100ns != 0 {
        var jumped := timeline.OnPacket(p.qpc100ns / 10, |accumulator.pending|);
        if jumped {
          accumulator.Reset();
        }
      }
      assert Abstract() == Stamp(c, p.qpc100ns).0;
      var resampled := resampler.Process(p.mono);
      var frames := accumulator.Push(resampled);
      EmitFrames(frames);
    }

    method EmitFrames(frames: seq<seq<real>>)
      modifies this`ready, timeline
      ensures (timeline.Abstract(), ready) ==
              (Number(old(timeline.Abstract()), frames).0, old(ready) + Number(old(timeline.Abstract()), frames).1)
    {
      ghost var t, r := timeline.Abstract(), ready;
      for i := 0 to |frames|
        invariant timeline.Abstract() == Number(t, frames[..i]).0
        invariant ready == r + Number(t, frames[..i]).1
      {
        assert frames[..i + 1][..i] == frames[..i];
        var offsetUs := timeline.nextUs;
        timeline.OnFrameEmitted();
        ready := ready + [ContentFrame(frames[i], offsetUs)];
      }
      assert frames[..|frames|] == frames;
    }
  }
}
