/**
 Voice playout and adaptive control on values: what each event does to the
 per-peer queues, the underrun accounting, the jitter depth and the bitrate.
 Counters and clocks are unbounded; rates and averages are over the reals.
 */
module VoiceModel {
  import opened Machine

  type Peer = string
  type Packet = Bytes

  const PEER_SILENCE_MS: nat := 600
  const MAX_UNDERRUN_GAP_FRAMES: nat := 12

  const MIN_JITTER_DEPTH: nat := 2
  const MAX_JITTER_DEPTH: nat := 12
  const MAX_PINNED_DEPTH: nat := 20
  const JITTER_GROW_RATIO: real := 0.05
  const JITTER_SHRINK_RATIO: real := 0.005
  const JITTER_SHRINK_STREAK: nat := 5

  const MIN_BITRATE: nat := 16_000
  const MAX_BITRATE: nat := 192_000
  const DEFAULT_BITRATE: nat := 128_000
  const UNDERRUN_SIGNAL_PCT: real := 1.0
  const WARMUP_TICKS: nat := 6
  const MAX_FEC_HINT_PCT: nat := 50

  function Max(a: nat, b: nat): nat {
    if a < b then b else a
  }

  function Clamp(x: nat, lo: nat, hi: nat): nat {
    if x < lo then lo else if x > hi then hi else x
  }

  // ----- Voice queues

  datatype Voice = Voice(
    queues: map<Peer, seq<Packet>>,
    started: set<Peer>,
    lastAudio: map<Peer, nat>,
    dry: map<Peer, nat>,
    depth: nat,
    frames: nat,
    underruns: nat)

  function Queue(v: Voice, p: Peer): seq<Packet> {
    if p in v.queues then v.queues[p] else []
  }

  function Get(m: map<Peer, nat>, p: Peer): nat {
    if p in m then m[p] else 0
  }

  /** The newest `n`, as popping from the front leaves them. */
  function Capped(q: seq<Packet>, n: nat): seq<Packet> {
    if |q| > n then q[|q| - n..] else q
  }

  /** The dry slots a resuming peer is charged for: a gap a jitter buffer could have covered. */
  function Charge(v: Voice, p: Peer): nat {
    if Get(v.dry, p) <= MAX_UNDERRUN_GAP_FRAMES then Get(v.dry, p) else 0
  }

  function Audio(v: Voice, p: Peer, packet: Packet, now: nat): Voice {
    v.(queues := v.queues[p := Capped(Queue(v, p) + [packet], Max(v.depth * 8, 16))],
       lastAudio := v.lastAudio[p := now],
       dry := v.dry - {p},
       frames := v.frames + Charge(v, p),
       underruns := v.underruns + Charge(v, p))
  }

  /** What one slot does for one peer. */
  datatype Outcome = Buffering | WentSilent | Served(frame: Option<Packet>)

  /** `now.duration_since(t)`, which is zero for a time in the future */
  function Elapsed(now: nat, t: nat): nat {
    if now >= t then now - t else 0
  }

  predicate RecentlyActive(v: Voice, p: Peer, now: nat) {
    p in v.lastAudio && Elapsed(now, v.lastAudio[p]) < PEER_SILENCE_MS
  }

  function SlotOutcome(v: Voice, p: Peer, now: nat): Outcome {
    if p !in v.started && |Queue(v, p)| < v.depth then Buffering
    else if Queue(v, p) == [] && !RecentlyActive(v, p, now) then WentSilent
    else if Queue(v, p) != [] then Served(Some(Queue(v, p)[0]))
    else Served(None)
  }

  function ServePeer(v: Voice, p: Peer, now: nat): Voice
    requires p in v.queues
  {
    match SlotOutcome(v, p, now)
    case Buffering => v
    case WentSilent => v.(started := v.started + {p})
    case Served(Some(_)) =>
      v.(started := v.started + {p}, queues := v.queues[p := v.queues[p][1..]], frames := v.frames + 1)
    case Served(None) =>
      v.(started := v.started + {p}, dry := v.dry[p := Get(v.dry, p) + 1])
  }

  /** Everything held for a peer, except when it was last heard. */
  function Release(v: Voice, p: Peer): Voice {
    v.(queues := v.queues - {p}, started := v.started - {p}, dry := v.dry - {p})
  }

  function RemovePeer(v: Voice, p: Peer): Voice {
    Release(v, p).(lastAudio := v.lastAudio - {p})
  }

  function Expire(v: Voice, now: nat): Voice {
    v.(lastAudio := map p | p in v.lastAudio && !(Elapsed(now, v.lastAudio[p]) > PEER_SILENCE_MS) :: v.lastAudio[p])
  }

  datatype Slots = Slots(frames: seq<(Peer, Option<Packet>)>, silent: seq<Peer>)

  function Recorded(slots: Slots, p: Peer, outcome: Outcome): Slots {
    match outcome
    case Buffering => slots
    case WentSilent => slots.(silent := slots.silent + [p])
    case Served(frame) => slots.(frames := slots.frames + [(p, frame)])
  }

  /** The peers in the order the map yields them, each listed once. */
  ghost predicate Enumerates(order: seq<Peer>, peers: set<Peer>) {
    && (forall i, j | 0 <= i < j < |order| :: order[i] != order[j])
    && (forall p :: p in order <==> p in peers)
  }

  function ServeAll(v: Voice, order: seq<Peer>, now: nat): (r: (Voice, Slots))
    requires forall p | p in order :: p in v.queues
    ensures r.0.queues.Keys == v.queues.Keys
    ensures forall p | p in r.1.silent :: p in order
    decreases |order|
  {
    if order == [] then (v, Slots([], []))
    else
      var k := |order| - 1;
      var p := order[k];
      assert forall q | q in order[..k] :: q in order;
      var (v1, slots) := ServeAll(v, order[..k], now);
      (ServePeer(v1, p, now), Recorded(slots, p, SlotOutcome(v1, p, now)))
  }

  function ReleaseAll(v: Voice, peers: seq<Peer>): Voice {
    if peers == [] then v else Release(ReleaseAll(v, peers[..|peers| - 1]), peers[|peers| - 1])
  }

  /** One playout slot for every peer, then the cleanup of those that went silent. */
  function Playout(v: Voice, order: seq<Peer>, now: nat): (Voice, Slots)
    requires forall p | p in order :: p in v.queues
  {
    var (v1, slots) := ServeAll(v, order, now);
    (ReleaseAll(v1, slots.silent), slots)
  }

  // ----- A slot leaves the depth alone, and when each peer was last heard

  lemma PlayoutKeepsDepth(v: Voice, order: seq<Peer>, now: nat)
    requires forall p | p in order :: p in v.queues
    ensures Playout(v, order, now).0.depth == v.depth
    ensures Playout(v, order, now).0.lastAudio == v.lastAudio
  {
    ServeAllKeepsDepth(v, order, now);
    ReleaseAllKeepsDepth(ServeAll(v, order, now).0, ServeAll(v, order, now).1.silent);
  }

  lemma {:induction false} ServeAllKeepsDepth(v: Voice, order: seq<Peer>, now: nat)
    requires forall p | p in order :: p in v.queues
    ensures ServeAll(v, order, now).0.depth == v.depth
    ensures ServeAll(v, order, now).0.lastAudio == v.lastAudio
    decreases |order|
  {
    if order != [] {
      var k := |order| - 1;
      assert forall q | q in order[..k] :: q in order;
      ServeAllKeepsDepth(v, order[..k], now);
      assert order[k] in order;
      ServeKeepsContext(ServeAll(v, order[..k], now).0, order[k], now);
    }
  }

  lemma ServeKeepsContext(v: Voice, p: Peer, now: nat)
    requires p in v.queues
    ensures ServePeer(v, p, now).depth == v.depth && ServePeer(v, p, now).lastAudio == v.lastAudio
  {
  }

  lemma {:induction false} ReleaseAllKeepsDepth(v: Voice, peers: seq<Peer>)
    ensures ReleaseAll(v, peers).depth == v.depth
    ensures ReleaseAll(v, peers).lastAudio == v.lastAudio
  {
    if peers != [] { ReleaseAllKeepsDepth(v, peers[..|peers| - 1]); }
  }

  // ----- Adaptive control

  datatype Control = Control(
    adaptive: bool,
    lowStreak: nat,
    roomMode: bool,
    audioLive: bool,
    warmup: nat,
    lossEma: real,
    outgoing: nat,
    ceiling: nat)

  function NextJitterDepth(depth: nat, lowStreak: nat, frames: nat, underruns: nat): (nat, nat) {
    if frames == 0 then (depth, lowStreak)
    else
      var ratio := underruns as real / frames as real;
      if ratio > JITTER_GROW_RATIO && depth < MAX_JITTER_DEPTH then (depth + 1, 0)
      else if ratio < JITTER_SHRINK_RATIO then
        if lowStreak + 1 >= JITTER_SHRINK_STREAK && depth > MIN_JITTER_DEPTH then (depth - 1, 0)
        else (depth, lowStreak + 1)
      else (depth, 0)
  }

  /** `x` scaled by a percentage, truncated to a whole number. */
  function Percent(x: nat, pct: nat): nat {
    x * pct / 100
  }

  function Capacity(target: nat, ceiling: nat): nat {
    Clamp(target, MIN_BITRATE, Max(ceiling, MIN_BITRATE))
  }

  function NextBitrate(current: nat, ceiling: nat, loss: real): nat {
    Capacity(
      if loss > 10.0 then Percent(current, 80)
      else if loss > 4.0 then current
      else Percent(current, 108) + 1_000,
      ceiling)
  }

  function NextRoomBitrate(current: nat, ceiling: nat, loss: real): nat {
    Capacity(
      if loss > 10.0 then Percent(current, 80)
      else if loss > 4.0 then Percent(current, 104) + 500
      else Percent(current, 110) + 1_000,
      ceiling)
  }

  function NonNegative(x: real): real {
    if x < 0.0 then 0.0 else x
  }

  function UnderrunPct(underruns: nat, frames: nat): real
    requires frames > 0
  {
    underruns as real * 100.0 / frames as real
  }

  function UpdateRoomLossEma(ema: real, underruns: nat, frames: nat): real {
    if frames == 0 then ema
    else if underruns == 0 then NonNegative(ema * 0.50)
    else if UnderrunPct(underruns, frames) > UNDERRUN_SIGNAL_PCT then
      ema * 0.7 + UnderrunPct(underruns, frames) * 0.3
    else NonNegative(ema * 0.65)
  }

  datatype Controller = Controller(voice: Voice, control: Control)

  const FRESH: Controller :=
    Controller(Voice(map[], {}, map[], map[], 3, 0, 0),
               Control(true, 0, false, false, 0, 0.0, DEFAULT_BITRATE, DEFAULT_BITRATE))

  function AdaptJitter(c: Controller): Controller {
    if !c.control.adaptive || !c.control.audioLive || c.voice.frames == 0 then c
    else
      var (depth, streak) :=
        NextJitterDepth(c.voice.depth, c.control.lowStreak, c.voice.frames, c.voice.underruns);
      Controller(c.voice.(depth := depth), c.control.(lowStreak := streak))
  }

  /** The room's loss average and bitrate after one window of `frames` slots. */
  function AdaptRoom(k: Control, frames: nat, underruns: nat): Control {
    if !k.roomMode || !k.audioLive || frames == 0 then k
    else if k.warmup > 0 then k.(warmup := k.warmup - 1)
    else
      var ema := UpdateRoomLossEma(k.lossEma, underruns, frames);
      k.(lossEma := ema, outgoing := NextRoomBitrate(k.outgoing, k.ceiling, ema))
  }

  function MetricsTick(c: Controller): Controller {
    var c1 := AdaptJitter(c);
    Controller(c1.voice.(frames := 0, underruns := 0),
               AdaptRoom(c1.control, c1.voice.frames, c1.voice.underruns))
  }

  function NetworkQuality(k: Control, lossPct: real): Control {
    var ema := k.lossEma * 0.6 + NonNegative(lossPct) * 0.4;
    k.(lossEma := ema, outgoing := NextBitrate(k.outgoing, k.ceiling, ema))
  }

  /** `ema.round().clamp(0.0, 50.0) as u8`, which rounds halves away from zero */
  function FecHint(ema: real): nat {
    if ema < 0.0 then 0
    else
      var nearest := (ema + 0.5).Floor;
      if nearest > MAX_FEC_HINT_PCT then MAX_FEC_HINT_PCT else nearest
  }

  function SetBitrate(k: Control, bps: nat): Control {
    var clamped := Clamp(bps, MIN_BITRATE, MAX_BITRATE);
    k.(ceiling := clamped, outgoing := clamped)
  }

  function SetDepth(c: Controller, depth: nat): Controller {
    Controller(c.voice.(depth := Clamp(depth, MIN_JITTER_DEPTH, MAX_PINNED_DEPTH)), c.control.(adaptive := false))
  }

  function SetRoomMode(k: Control): Control {
    k.(roomMode := true, lossEma := 0.0, warmup := WARMUP_TICKS)
  }

  // ----- Events

  datatype Event =
    | AudioArrives(peer: Peer, packet: Packet, now: nat)
    | PlayoutSlot(order: seq<Peer>, now: nat)
    | PeerLeaves(peer: Peer)
    | SpeakersExpire(now: nat)
    | WindowEnds
    | QualityReport(lossPct: real)
    | PinDepth(depth: nat)
    | ChooseBitrate(bps: nat)
    | EnterRoom
    | LeaveRoom
    | AudioDevice(live: bool)

  /** A playout slot visits every peer once; quality reports are percentages. */
  ghost predicate Possible(c: Controller, e: Event) {
    && (e.PlayoutSlot? ==> Enumerates(e.order, c.voice.queues.Keys))
    && (e.QualityReport? ==> e.lossPct <= 100.0)
  }

  function Step(c: Controller, e: Event): Controller
    requires e.PlayoutSlot? ==> forall p | p in e.order :: p in c.voice.queues
  {
    match e
    case AudioArrives(p, packet, now) => c.(voice := Audio(c.voice, p, packet, now))
    case PlayoutSlot(order, now) =>
      if c.control.audioLive then c.(voice := Playout(c.voice, order, now).0) else c
    case PeerLeaves(p) => c.(voice := RemovePeer(c.voice, p))
    case SpeakersExpire(now) => c.(voice := Expire(c.voice, now))
    case WindowEnds => MetricsTick(c)
    case QualityReport(loss) => c.(control := NetworkQuality(c.control, loss))
    case PinDepth(depth) => SetDepth(c, depth)
    case ChooseBitrate(bps) => c.(control := SetBitrate(c.control, bps))
    case EnterRoom => c.(control := SetRoomMode(c.control))
    case LeaveRoom => c.(control := c.control.(roomMode := false))
    case AudioDevice(live) => c.(control := c.control.(audioLive := live))
  }

  ghost predicate PossibleRun(c: Controller, events: seq<Event>)
    decreases |events|
  {
    events == [] || (Possible(c, events[0]) && PossibleRun(Step(c, events[0]), events[1..]))
  }

  function Run(c: Controller, events: seq<Event>): Controller
    requires PossibleRun(c, events)
    decreases |events|
  {
    if events == [] then c else Run(Step(c, events[0]), events[1..])
  }
}
