/**
 Whole runs of the capture pump: samples are conserved between gaps, frames never
 straddle a gap, and offsets keep their distance.
 */
module CapturePump {
  import opened Machine
  import opened CaptureModel

  // ----- Cutting into frames loses nothing

  lemma {:induction false} FlattenCons<T>(x: seq<T>, rest: seq<seq<T>>)
    ensures Flatten([x] + rest) == x + Flatten(rest)
  {
    if rest == [] {
      assert [x] + rest == [x];
      assert [x][..0] == [];
      assert Flatten([x]) == Flatten([x][..0]) + x;
    } else {
      var k := |rest| - 1;
      FlattenCons(x, rest[..k]);
      assert ([x] + rest)[..k + 1] == [x] + rest[..k];
    }
  }

  lemma {:induction false} FramesAndRest(s: seq<real>)
    ensures Flatten(Frames(s)) + Rest(s) == s
    ensures forall f | f in Frames(s) :: |f| == 960
    ensures |Rest(s)| < 960
    decreases |s|
  {
    if |s| >= 960 {
      var a, b := s[..960], s[960..];
      FramesAndRest(b);
      FlattenCons(a, Frames(b));
      assert a + b == s;
    }
  }

  // ----- Numbering

  /** Frame j of a stretch that starts at `start` carries start plus j frame lengths. */
  ghost predicate Numbered(frames: seq<ContentFrame>, start: nat) {
    forall j | 0 <= j < |frames| :: frames[j].offsetUs == SaturatingAdd(start, j * 20_000)
  }

  lemma OneFrameUs()
    ensures SamplesToUs(960) == 20_000
  {
  }

  lemma SaturatingTwice(a: nat, b: nat, c: nat)
    ensures SaturatingAdd(SaturatingAdd(a, b), c) == SaturatingAdd(a, b + c)
  {
  }

  lemma {:induction false} NumberOffsets(t: Timeline, frames: seq<seq<real>>)
    ensures var (t', out) := Number(t, frames);
            && |out| == |frames| && Numbered(out, t.nextUs)
            && t'.originUs == t.originUs
            && t'.nextUs == SaturatingAdd(t.nextUs, |frames| * 20_000)
            && forall j | 0 <= j < |frames| :: out[j].samples == frames[j]
  {
    if frames != [] {
      var k := |frames| - 1;
      NumberOffsets(t, frames[..k]);
      OneFrameUs();
      SaturatingTwice(t.nextUs, k * 20_000, 20_000);
    }
  }

  /** All the samples of a stretch of frames. */
  function SamplesOf(frames: seq<ContentFrame>): seq<real> {
    if frames == [] then [] else SamplesOf(frames[..|frames| - 1]) + frames[|frames| - 1].samples
  }

  lemma {:induction false} SamplesOfConcat(a: seq<ContentFrame>, b: seq<ContentFrame>)
    ensures SamplesOf(a + b) == SamplesOf(a) + SamplesOf(b)
    decreases |b|
  {
    if b == [] {
      assert a + b == a;
    } else {
      var k := |b| - 1;
      SamplesOfConcat(a, b[..k]);
      assert (a + b)[..|a + b| - 1] == a + b[..k];
    }
  }

  lemma {:induction false} SamplesOfNumbered(out: seq<ContentFrame>, frames: seq<seq<real>>)
    requires |out| == |frames| && forall j | 0 <= j < |frames| :: out[j].samples == frames[j]
    ensures SamplesOf(out) == Flatten(frames)
  {
    if frames != [] { SamplesOfNumbered(out[..|out| - 1], frames[..|frames| - 1]); }
  }

  // ----- A record of the whole capture, in stretches between gaps

  datatype Stretch = Stretch(start: U64, samples: seq<real>, frames: seq<ContentFrame>)

  datatype Record = Record(closed: seq<Stretch>, current: Stretch, emitted: seq<ContentFrame>)

  const NEW_RECORD: Record := Record([], Stretch(0, [], []), [])

  /** A gap closes the stretch and opens one at the device's own offset. */
  function RecordStamp(c: Capture, l: Record, qpc100ns: U64): Record {
    var (c1, gap) := Stamp(c, qpc100ns);
    if gap then Record(l.closed + [l.current], Stretch(c1.timeline.nextUs, [], []), l.emitted) else l
  }

  function RecordTake(c: Capture, l: Record, mono: seq<real>, rate: nat): Record {
    var resampled := Feed(c.resampler, mono, rate).1;
    var frames := Take(c, mono, rate).1;
    Record(l.closed,
           Stretch(l.current.start, l.current.samples + resampled, l.current.frames + frames),
           l.emitted + frames)
  }

  function RecordPump(c: Capture, l: Record, p: Packet, rate: nat): Record {
    RecordTake(Stamp(c, p.qpc100ns).0, RecordStamp(c, l, p.qpc100ns), p.mono, rate)
  }

  function PumpAll(c: Capture, ps: seq<Packet>, rate: nat): Capture
    decreases |ps|
  {
    if ps == [] then c else PumpAll(Pump(c, ps[0], rate).0, ps[1..], rate)
  }

  function RecordAll(c: Capture, l: Record, ps: seq<Packet>, rate: nat): Record
    decreases |ps|
  {
    if ps == [] then l else RecordAll(Pump(c, ps[0], rate).0, RecordPump(c, l, ps[0], rate), ps[1..], rate)
  }

  // ----- What every run keeps

  /** Whole frames numbered from the start, then fewer samples than a frame. */
  ghost predicate StretchOk(s: Stretch, pending: seq<real>) {
    && SamplesOf(s.frames) + pending == s.samples
    && |pending| < 960
    && (forall f | f in s.frames :: |f.samples| == 960)
    && Numbered(s.frames, s.start)
  }

  /** A closed stretch lost less than one frame: the partial one at its end. */
  ghost predicate ClosedOk(s: Stretch) {
    exists lost :: StretchOk(s, lost)
  }

  /** Successive offsets are at least a frame apart, until the clock saturates. */
  ghost predicate Spaced(frames: seq<ContentFrame>) {
    forall i | 0 <= i < |frames| - 1 ::
      frames[i + 1].offsetUs >= SaturatingAdd(frames[i].offsetUs, 20_000)
  }

  /** The timeline is at least a frame past the last offset handed out. */
  ghost predicate Ahead(frames: seq<ContentFrame>, nextUs: U64) {
    frames != [] ==> nextUs >= SaturatingAdd(frames[|frames| - 1].offsetUs, 20_000)
  }

  ghost predicate CaptureOk(c: Capture, l: Record) {
    && StretchOk(l.current, c.pending)
    && c.timeline.nextUs == SaturatingAdd(l.current.start, |l.current.frames| * 20_000)
    && (forall s | s in l.closed :: ClosedOk(s))
    && Spaced(l.emitted) && Ahead(l.emitted, c.timeline.nextUs)
  }

  /** A gap is exactly a jump of more than 100 ms past the audio accounted for; it
      drops the partial frame and adopts the device's offset.  Without one nothing
      moves.  Either way the timeline then lags the device by at most 100 ms. */
  lemma StampMeaning(c: Capture, qpc100ns: U64)
    requires qpc100ns != 0
    ensures var off := DeviceOffset(c.timeline, qpc100ns / 10);
            var (c', gap) := Stamp(c, qpc100ns);
            && (gap <==> off > c.timeline.nextUs + |c.pending| * 1_000_000 / 48_000 + 100_000)
            && (gap ==> c'.timeline.nextUs == off && c'.pending == [])
            && (!gap ==> c'.timeline.nextUs == c.timeline.nextUs && c'.pending == c.pending)
            && off <= c'.timeline.nextUs + |c'.pending| * 1_000_000 / 48_000 + 100_000
            && c'.timeline.originUs == Some(if c.timeline.originUs.Some? then c.timeline.originUs.value else qpc100ns / 10)
  {
  }

  lemma StampKeeps(c: Capture, l: Record, qpc100ns: U64)
    requires CaptureOk(c, l)
    ensures CaptureOk(Stamp(c, qpc100ns).0, RecordStamp(c, l, qpc100ns))
  {
    hide Spaced, DeviceOffset, SamplesToUs;
    if qpc100ns != 0 {
      StampMeaning(c, qpc100ns);
      if Stamp(c, qpc100ns).1 {
        assert ClosedOk(l.current);
      }
    }
  }

  lemma TakeMeaning(c: Capture, mono: seq<real>, rate: nat) returns (resampled: seq<real>)
    ensures resampled == Feed(c.resampler, mono, rate).1
    ensures var (c', frames) := Take(c, mono, rate);
            && SamplesOf(frames) + c'.pending == c.pending + resampled
            && |c'.pending| < 960
            && (forall f | f in frames :: |f.samples| == 960)
            && Numbered(frames, c.timeline.nextUs)
            && c'.timeline.nextUs == SaturatingAdd(c.timeline.nextUs, |frames| * 20_000)
  {
    resampled := Feed(c.resampler, mono, rate).1;
    hide Feed, Frames, Rest, Number, Flatten, SamplesOf;
    var all := c.pending + resampled;
    FramesAndRest(all);
    NumberOffsets(c.timeline, Frames(all));
    var (t, frames) := Number(c.timeline, Frames(all));
    SamplesOfNumbered(frames, Frames(all));
    forall f | f in frames ensures |f.samples| == 960 {
      var j :| 0 <= j < |frames| && frames[j] == f;
      assert Frames(all)[j] in Frames(all);
    }
  }

  lemma NumberedConcat(a: seq<ContentFrame>, b: seq<ContentFrame>, start: nat)
    requires Numbered(a, start) && Numbered(b, SaturatingAdd(start, |a| * 20_000))
    ensures Numbered(a + b, start)
  {
    forall j | 0 <= j < |a + b| ensures (a + b)[j].offsetUs == SaturatingAdd(start, j * 20_000) {
      if j >= |a| {
        SaturatingTwice(start, |a| * 20_000, (j - |a|) * 20_000);
        assert |a| * 20_000 + (j - |a|) * 20_000 == j * 20_000;
      }
    }
  }

  lemma SpacedConcat(a: seq<ContentFrame>, b: seq<ContentFrame>, next: U64)
    requires Spaced(a) && Ahead(a, next) && Numbered(b, next)
    ensures Spaced(a + b)
    ensures Ahead(a + b, SaturatingAdd(next, |b| * 20_000))
  {
    forall i | 0 <= i < |a + b| - 1 ensures (a + b)[i + 1].offsetUs >= SaturatingAdd((a + b)[i].offsetUs, 20_000) {
      if i >= |a| {
        SaturatingTwice(next, (i - |a|) * 20_000, 20_000);
      } else if i == |a| - 1 {
        assert (a + b)[i + 1] == b[0] && b[0].offsetUs == SaturatingAdd(next, 0 * 20_000);
      }
    }
    if b != [] {
      SaturatingTwice(next, (|b| - 1) * 20_000, 20_000);
      assert (a + b)[|a + b| - 1] == b[|b| - 1];
    } else {
      assert a + b == a;
    }
  }

  lemma StretchGrows(s: Stretch, pending: seq<real>, resampled: seq<real>, frames: seq<ContentFrame>, pending': seq<real>)
    requires StretchOk(s, pending)
    requires SamplesOf(frames) + pending' == pending + resampled && |pending'| < 960
    requires forall f | f in frames :: |f.samples| == 960
    requires Numbered(frames, SaturatingAdd(s.start, |s.frames| * 20_000))
    ensures StretchOk(Stretch(s.start, s.samples + resampled, s.frames + frames), pending')
  {
    hide Numbered, SamplesOf;
    SamplesOfConcat(s.frames, frames);
    NumberedConcat(s.frames, frames, s.start);
    assert SamplesOf(s.frames) + (SamplesOf(frames) + pending') == (SamplesOf(s.frames) + SamplesOf(frames)) + pending';
    assert SamplesOf(s.frames) + (pending + resampled) == (SamplesOf(s.frames) + pending) + resampled;
  }

  lemma TakeKeeps(c: Capture, l: Record, mono: seq<real>, rate: nat)
    requires CaptureOk(c, l)
    ensures CaptureOk(Take(c, mono, rate).0, RecordTake(c, l, mono, rate))
  {
    hide StretchOk, Numbered, Spaced, Ahead, Feed, Take, ClosedOk, SamplesOf;
    var resampled := TakeMeaning(c, mono, rate);
    var (c', frames) := Take(c, mono, rate);
    StretchGrows(l.current, c.pending, resampled, frames, c'.pending);
    SpacedConcat(l.emitted, frames, c.timeline.nextUs);
    SaturatingTwice(l.current.start, |l.current.frames| * 20_000, |frames| * 20_000);
    assert |l.current.frames + frames| * 20_000 == |l.current.frames| * 20_000 + |frames| * 20_000;
  }

  lemma PumpKeeps(c: Capture, l: Record, p: Packet, rate: nat)
    requires CaptureOk(c, l)
    ensures CaptureOk(Pump(c, p, rate).0, RecordPump(c, l, p, rate))
  {
    hide CaptureOk, Stamp, RecordStamp, Take, RecordTake;
    StampKeeps(c, l, p.qpc100ns);
    TakeKeeps(Stamp(c, p.qpc100ns).0, RecordStamp(c, l, p.qpc100ns), p.mono, rate);
  }

  /** Over every run of packets, at any rate: between gaps the frames followed by
      what is pending are exactly the resampled samples; a gap costs less than one
      frame, which no emitted frame spans; frame j of a stretch carries its start
      plus j frame lengths; and offsets are never less than a frame apart. */
  lemma {:induction false} EveryCaptureKeeps(c: Capture, l: Record, ps: seq<Packet>, rate: nat)
    requires CaptureOk(c, l)
    ensures CaptureOk(PumpAll(c, ps, rate), RecordAll(c, l, ps, rate))
    decreases |ps|
  {
    hide CaptureOk, Pump, RecordPump;
    if ps != [] {
      PumpKeeps(c, l, ps[0], rate);
      EveryCaptureKeeps(Pump(c, ps[0], rate).0, RecordPump(c, l, ps[0], rate), ps[1..], rate);
    }
  }

  lemma FreshCaptureOk()
    ensures CaptureOk(FRESH_CAPTURE, NEW_RECORD)
  {
  }

  /** Two successive offsets differ by at least 20 000 us exactly while the clock
      has room for another frame. */
  lemma SpacingUnlessSaturated(frames: seq<ContentFrame>, i: nat)
    requires Spaced(frames) && i + 1 < |frames|
    ensures frames[i + 1].offsetUs - frames[i].offsetUs >= 20_000 <==> frames[i].offsetUs + 20_000 <= U64_MAX
  {
  }

  // ----- Nothing is resampled twice or skipped, gaps or not

  function Recorded(l: Record): seq<real> {
    ClosedSamples(l.closed) + l.current.samples
  }

  function ClosedSamples(closed: seq<Stretch>): seq<real> {
    if closed == [] then [] else ClosedSamples(closed[..|closed| - 1]) + closed[|closed| - 1].samples
  }

  function Monos(ps: seq<Packet>): seq<seq<real>> {
    if ps == [] then [] else [ps[0].mono] + Monos(ps[1..])
  }

  /** The stretches laid end to end are the resampling of everything delivered so far. */
  ghost predicate Fed(c: Capture, l: Record, monos: seq<seq<real>>, rate: nat) {
    (c.resampler, Recorded(l)) == FeedAll(FRESH_RESAMPLER, monos, rate)
  }

  lemma PumpFeeds(c: Capture, l: Record, monos: seq<seq<real>>, p: Packet, rate: nat)
    requires Fed(c, l, monos, rate)
    ensures Fed(Pump(c, p, rate).0, RecordPump(c, l, p, rate), monos + [p.mono], rate)
  {
    hide Feed, Frames, Rest, Number, DeviceOffset;
    var (c1, gap) := Stamp(c, p.qpc100ns);
    var l1 := RecordStamp(c, l, p.qpc100ns);
    assert c1.resampler == c.resampler;
    if gap { assert (l.closed + [l.current])[..|l.closed|] == l.closed; }
    assert Recorded(l1) == Recorded(l);
    assert (monos + [p.mono])[..|monos|] == monos;
    var (r, resampled) := Feed(c.resampler, p.mono, rate);
    assert ClosedSamples(l1.closed) + (l1.current.samples + resampled) == Recorded(l1) + resampled;
  }

  /** Over any run, with any gaps, the recorded stretches are together one resampling
      of one continuous signal. */
  lemma {:induction false} RecordedIsResampled(c: Capture, l: Record, monos: seq<seq<real>>, ps: seq<Packet>, rate: nat)
    requires Fed(c, l, monos, rate)
    ensures Fed(PumpAll(c, ps, rate), RecordAll(c, l, ps, rate), monos + Monos(ps), rate)
    decreases |ps|
  {
    hide Fed, Pump, RecordPump;
    if ps == [] {
      assert monos + [] == monos;
    } else {
      PumpFeeds(c, l, monos, ps[0], rate);
      RecordedIsResampled(Pump(c, ps[0], rate).0, RecordPump(c, l, ps[0], rate), monos + [ps[0].mono], ps[1..], rate);
      assert monos + [ps[0].mono] + Monos(ps[1..]) == monos + ([ps[0].mono] + Monos(ps[1..]));
    }
  }

  // ----- What a gap does not reset

  lemma FirstValueBlends(p: real, q: real, input: seq<real>, phase: int)
    requires input != [] && p != q && phase + SAMPLE_RATE > 0
    ensures Value(Some(p), input, phase) != Value(Some(q), input, phase) <==> phase < 0
  {
    if phase < 0 {
      var t := Fraction(phase);
      assert phase / SAMPLE_RATE == -1 && phase % SAMPLE_RATE == phase + SAMPLE_RATE;
      assert t < 1.0;
      BlendDiffers(p, q, input[0], t);
    }
  }

  lemma BlendDiffers(p: real, q: real, x: real, t: real)
    requires p != q && t < 1.0
    ensures Lerp(p, x, t) != Lerp(q, x, t)
  {
    assert Lerp(p, x, t) - Lerp(q, x, t) == (p - q) * (1.0 - t);
    if p > q { Positive(p - q, 1.0 - t); } else { Positive(q - p, 1.0 - t); assert (p - q) * (1.0 - t) == -((q - p) * (1.0 - t)); }
  }

  lemma Positive(a: real, b: real)
    requires a > 0.0 && b > 0.0
    ensures a * b > 0.0
  {
  }

  /** All the samples a packet leaves after it: in the frames it completes, and pending. */
  function Taken(c: Capture, p: Packet, rate: nat): seq<real> {
    SamplesOf(Pump(c, p, rate).1) + Pump(c, p, rate).0.pending
  }

  /** The same capture, but for the last sample the resampler was fed. */
  function WithLast(c: Capture, x: real): Capture {
    c.(resampler := c.resampler.(prev := Some(x)))
  }

  lemma TakenAfterGap(c: Capture, p: Packet, rate: nat)
    requires Stamp(c, p.qpc100ns).1
    ensures Taken(c, p, rate) == Feed(c.resampler, p.mono, rate).1
  {
    hide Feed, Take, SamplesOf, OnPacket;
    var c1 := Stamp(c, p.qpc100ns).0;
    assert c1.pending == [] && c1.resampler == c.resampler;
    var resampled := TakeMeaning(c1, p.mono, rate);
    assert [] + resampled == resampled;
  }

  /** Where a resampler can stand between packets: less than one input sample back. */
  ghost predicate Standing(c: Capture) {
    c.resampler.phase + SAMPLE_RATE > 0
  }

  lemma {:induction false} EndIsPastTheChunk(n: nat, phase: int, rate: nat)
    requires n > 0 && rate > 0
    ensures EndPhase(n, phase, rate) > SAMPLE_RATE * (n - 1)
    decreases SAMPLE_RATE * n - phase
  {
    if phase <= SAMPLE_RATE * (n - 1) { EndIsPastTheChunk(n, phase + rate, rate); }
  }

  lemma PumpKeepsStanding(c: Capture, p: Packet, rate: nat)
    requires Standing(c)
    ensures Standing(Pump(c, p, rate).0)
  {
    if !PassThrough(rate) && p.mono != [] { EndIsPastTheChunk(|p.mono|, c.resampler.phase, rate); }
  }

  lemma {:induction false} RunKeepsStanding(c: Capture, ps: seq<Packet>, rate: nat)
    requires Standing(c)
    ensures Standing(PumpAll(c, ps, rate))
    decreases |ps|
  {
    hide Standing, Pump;
    if ps != [] {
      PumpKeepsStanding(c, ps[0], rate);
      RunKeepsStanding(Pump(c, ps[0], rate).0, ps[1..], rate);
    }
  }

  /** The resampler is not told about a gap.  After any run, on a packet whose stamp
      is a gap, the first sample of the new stretch still blends in the last sample
      from before the gap, exactly when the read position has not yet reached the
      new packet. */
  lemma GapBlends(ps: seq<Packet>, p: Packet, rate: nat, x: real, y: real)
    requires rate != 48_000 && rate != 0 && x != y
    requires Stamp(PumpAll(FRESH_CAPTURE, ps, rate), p.qpc100ns).1
    ensures var c := PumpAll(FRESH_CAPTURE, ps, rate);
            var a, b := Taken(WithLast(c, x), p, rate), Taken(WithLast(c, y), p, rate);
            && |a| == |b|
            && (a != [] ==> (a[0] != b[0] <==> c.resampler.phase < 0))
  {
    hide Pump, PumpAll, Value;
    var c := PumpAll(FRESH_CAPTURE, ps, rate);
    RunKeepsStanding(FRESH_CAPTURE, ps, rate);
    TakenAfterGap(WithLast(c, x), p, rate);
    TakenAfterGap(WithLast(c, y), p, rate);
    if p.mono != [] {
      EmitLength(Some(x), Some(y), p.mono, c.resampler.phase, rate);
      FirstValueBlends(x, y, p.mono, c.resampler.phase);
    }
  }

  lemma {:induction false} EmitLength(a: Option<real>, b: Option<real>, input: seq<real>, phase: int, rate: nat)
    requires input != [] && rate > 0
    ensures |Emit(a, input, phase, rate)| == |Emit(b, input, phase, rate)|
    decreases SAMPLE_RATE * |input| - phase
  {
    if phase <= SAMPLE_RATE * (|input| - 1) { EmitLength(a, b, input, phase + rate, rate); }
  }

  /** It does happen, from a fresh capture at 44.1 kHz: one sample `x`, then a packet a
      second later.  The later packet is a gap, and what it leaves starts with a
      sample that still holds part of `x`. */
  lemma GapBlendIsReachable(x: real, z: real)
    ensures var first, later := Packet(10, [x]), Packet(10_000_010, [z]);
            var c := PumpAll(FRESH_CAPTURE, [first], 44_100);
            && c.resampler == Resampler(-3_900, Some(x))
            && Stamp(c, later.qpc100ns).1
            && Taken(c, later, 44_100) == [Lerp(x, z, 0.91875)]
  {
    var first, later := Packet(10, [x]), Packet(10_000_010, [z]);
    var c := PumpAll(FRESH_CAPTURE, [first], 44_100);
    AfterOneSample(x);
    PumpOne(FRESH_CAPTURE, first, 44_100);
    hide Pump, PumpAll;
    TakenAfterGap(c, later, 44_100);
    SecondSample(x, z);
  }

  lemma PumpOne(c: Capture, p: Packet, rate: nat)
    ensures PumpAll(c, [p], rate) == Pump(c, p, rate).0
  {
    hide Pump;
    assert [p][1..] == [];
    assert PumpAll(Pump(c, p, rate).0, [], rate) == Pump(c, p, rate).0;
  }

  lemma AfterOneSample(x: real)
    ensures var c := Pump(FRESH_CAPTURE, Packet(10, [x]), 44_100).0;
            c.resampler == Resampler(-3_900, Some(x)) && c.timeline == Timeline(Some(1), 0) && |c.pending| == 1
  {
    assert EndPhase(1, 0, 44_100) == EndPhase(1, 44_100, 44_100) == 44_100;
    var out := Emit(None, [x], 0, 44_100);
    assert out == [Value(None, [x], 0)] + Emit(None, [x], 44_100, 44_100);
    assert [] + out == out && |out| == 1;
    assert Frames(out) == [] && Rest(out) == out;
  }

  lemma SecondSample(x: real, z: real)
    ensures Feed(Resampler(-3_900, Some(x)), [z], 44_100).1 == [Lerp(x, z, 0.91875)]
  {
    assert -3_900 / SAMPLE_RATE == -1 && -3_900 % SAMPLE_RATE == 44_100;
    assert Fraction(-3_900) == 0.91875;
    assert Value(Some(x), [z], -3_900) == Lerp(x, z, 0.91875);
    assert Emit(Some(x), [z], -3_900 + 44_100, 44_100) == [];
  }
}
