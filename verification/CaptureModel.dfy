/**
 The content-capture pipeline on values: the phase-carrying linear resampler, the
 frame accumulator, the device timeline, and the pump that joins them.

 Over the reals the resampler's read position is always a whole number of 1/48000ths
 of an input sample; `phase` is that number.
 */
module CaptureModel {
  import opened Machine

  const SAMPLE_RATE: nat := 48_000
  const SAMPLES_PER_FRAME: nat := 960
  const GAP_US: nat := 100_000

  // ----- Resampler

  datatype Resampler = Resampler(phase: int, prev: Option<real>)

  const FRESH_RESAMPLER: Resampler := Resampler(0, None)

  /** The sample at index i of the current chunk, reaching one back into the previous chunk. */
  function Tap(prev: Option<real>, input: seq<real>, i: int): real
    requires input != []
  {
    if i < 0 then (if prev.Some? then prev.value else input[0])
    else if i < |input| then input[i]
    else input[|input| - 1]
  }

  function Fraction(phase: int): real {
    (phase % SAMPLE_RATE) as real / 48000.0
  }

  function Lerp(a: real, b: real, t: real): real {
    a + (b - a) * t
  }

  function Value(prev: Option<real>, input: seq<real>, phase: int): real
    requires input != []
  {
    var i := phase / SAMPLE_RATE;
    Lerp(Tap(prev, input, i), Tap(prev, input, i + 1), Fraction(phase))
  }

  /** The outputs of one chunk, from read position `phase` on. */
  function Emit(prev: Option<real>, input: seq<real>, phase: int, rate: nat): seq<real>
    requires input != [] && rate > 0
    decreases SAMPLE_RATE * |input| - phase
  {
    if phase > SAMPLE_RATE * (|input| - 1) then []
    else [Value(prev, input, phase)] + Emit(prev, input, phase + rate, rate)
  }

  /** The read position at which the chunk's outputs stop. */
  function EndPhase(n: nat, phase: int, rate: nat): int
    requires n > 0 && rate > 0
    decreases SAMPLE_RATE * n - phase
  {
    if phase > SAMPLE_RATE * (n - 1) then phase else EndPhase(n, phase + rate, rate)
  }

  predicate PassThrough(rate: nat) {
    rate == SAMPLE_RATE || rate == 0
  }

  /** One chunk's outputs, and the position and last sample the next chunk starts from. */
  function Feed(r: Resampler, input: seq<real>, rate: nat): (Resampler, seq<real>) {
    if PassThrough(rate) || input == [] then (r, input)
    else
      (Resampler(EndPhase(|input|, r.phase, rate) - SAMPLE_RATE * |input|, Some(input[|input| - 1])),
       Emit(r.prev, input, r.phase, rate))
  }

  function FeedAll(r: Resampler, chunks: seq<seq<real>>, rate: nat): (Resampler, seq<real>)
    decreases |chunks|
  {
    if chunks == [] then (r, [])
    else
      var k := |chunks| - 1;
      var (r1, out1) := FeedAll(r, chunks[..k], rate);
      var (r2, out2) := Feed(r1, chunks[k], rate);
      (r2, out1 + out2)
  }

  // ----- Frame accumulator

  function Flatten<T>(chunks: seq<seq<T>>): seq<T> {
    if chunks == [] then [] else Flatten(chunks[..|chunks| - 1]) + chunks[|chunks| - 1]
  }

  /** The whole frames at the front of `samples`. */
  function Frames(samples: seq<real>): seq<seq<real>>
    decreases |samples|
  {
    if |samples| < SAMPLES_PER_FRAME then []
    else [samples[..SAMPLES_PER_FRAME]] + Frames(samples[SAMPLES_PER_FRAME..])
  }

  /** The partial frame left over. */
  function Rest(samples: seq<real>): seq<real>
    decreases |samples|
  {
    if |samples| < SAMPLES_PER_FRAME then samples else Rest(samples[SAMPLES_PER_FRAME..])
  }

  // ----- Timeline

  datatype Timeline = Timeline(originUs: Option<U64>, nextUs: U64)

  function SamplesToUs(n: nat): nat {
    n * 1_000_000 / SAMPLE_RATE
  }

  /** The device's reading relative to its first one; never before it. */
  function DeviceOffset(t: Timeline, deviceUs: U64): U64 {
    if t.originUs.Some? then (if deviceUs >= t.originUs.value then deviceUs - t.originUs.value else 0) else 0
  }

  function OnPacket(t: Timeline, deviceUs: U64, pending: nat): (Timeline, bool) {
    var off := DeviceOffset(t, deviceUs);
    var seen := t.(originUs := if t.originUs.None? then Some(deviceUs) else t.originUs);
    if off > SaturatingAdd(t.nextUs + SamplesToUs(pending), GAP_US) then (seen.(nextUs := off), true)
    else (seen, false)
  }

  function OnFrameEmitted(t: Timeline): Timeline {
    t.(nextUs := SaturatingAdd(t.nextUs, SamplesToUs(SAMPLES_PER_FRAME)))
  }

  // ----- Pump

  /** One device packet: its timestamp in 100 ns units, zero when there is none, and its mono samples. */
  datatype Packet = Packet(qpc100ns: U64, mono: seq<real>)

  datatype ContentFrame = ContentFrame(samples: seq<real>, offsetUs: U64)

  datatype Capture = Capture(resampler: Resampler, pending: seq<real>, timeline: Timeline)

  const FRESH_CAPTURE: Capture := Capture(FRESH_RESAMPLER, [], Timeline(None, 0))

  /** Account for the timestamp first; a gap drops the partial frame. */
  function Stamp(c: Capture, qpc100ns: U64): (Capture, bool) {
    if qpc100ns == 0 then (c, false)
    else
      var (t, gap) := OnPacket(c.timeline, qpc100ns / 10, |c.pending|);
      (Capture(c.resampler, if gap then [] else c.pending, t), gap)
  }

  /** Number the frames as they come out. */
  function Number(t: Timeline, frames: seq<seq<real>>): (Timeline, seq<ContentFrame>) {
    if frames == [] then (t, [])
    else
      var k := |frames| - 1;
      var (t1, out) := Number(t, frames[..k]);
      (OnFrameEmitted(t1), out + [ContentFrame(frames[k], t1.nextUs)])
  }

  /** Resample, accumulate, and emit whole frames. */
  function Take(c: Capture, mono: seq<real>, rate: nat): (Capture, seq<ContentFrame>) {
    var (r, resampled) := Feed(c.resampler, mono, rate);
    var all := c.pending + resampled;
    var (t, frames) := Number(c.timeline, Frames(all));
    (Capture(r, Rest(all), t), frames)
  }

  function Pump(c: Capture, p: Packet, rate: nat): (Capture, seq<ContentFrame>) {
    Take(Stamp(c, p.qpc100ns).0, p.mono, rate)
  }
}
