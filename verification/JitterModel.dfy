/**
 The content-audio jitter buffer as a state machine on values: what one arriving
 frame and one 20 ms slot do to a peer's buffer.  The class in JitterBuffer.dfy
 is proved to compute exactly these functions.
 */
module JitterModel {
  import opened Machine

  const JITTER_DEPTH: nat := 3
  const MAX_BUFFERED_FRAMES: nat := JITTER_DEPTH * 4
  const RESYNC_GAP: nat := 50
  const MAX_CONCEALED_FRAMES: nat := 20
  const FRAME_DURATION_US: nat := 20_000

  datatype Frame = Frame(number: U32, ptsUs: U64, opus: Bytes)

  datatype Action = Play(frame: Frame) | Conceal(ptsUs: U64) | Idle

  datatype State = State(
    pending: seq<Frame>,
    nextSeq: Option<U32>,
    nextPtsUs: U64,
    streak: nat,
    buffering: bool,
    fillTicks: U64)

  const FRESH: State := State([], None, 0, 0, true, 0)

  // ----- Accepting a frame

  predicate Sorted(p: seq<Frame>) {
    forall i, j | 0 <= i < j < |p| :: p[i].number < p[j].number
  }

  predicate Buffered(p: seq<Frame>, number: U32) {
    exists f | f in p :: f.number == number
  }

  /** Already played, unless it is so far behind that the sender must have restarted. */
  predicate Stale(s: State, number: U32) {
    s.nextSeq.Some? && number < s.nextSeq.value && s.nextSeq.value - number < RESYNC_GAP
  }

  /** Place `f` by sequence number; a number already held keeps the frame it has. */
  function Insert(p: seq<Frame>, f: Frame): seq<Frame> {
    if p == [] || p[|p| - 1].number < f.number then p + [f]
    else if p[|p| - 1].number == f.number then p
    else Insert(p[..|p| - 1], f) + [p[|p| - 1]]
  }

  /** What survives shedding: the highest-numbered frames, at most the buffer's limit. */
  function Newest(p: seq<Frame>): seq<Frame> {
    if |p| <= MAX_BUFFERED_FRAMES then p else p[|p| - MAX_BUFFERED_FRAMES..]
  }

  function Push(s: State, f: Frame): State {
    if Stale(s, f.number) then s else s.(pending := Newest(Insert(s.pending, f)))
  }

  function PushAll(s: State, fs: seq<Frame>): State
    decreases |fs|
  {
    if fs == [] then s else PushAll(Push(s, fs[0]), fs[1..])
  }

  // ----- One 20 ms slot

  function PlayFirst(s: State): (State, Action)
    requires s.pending != []
  {
    var first := s.pending[0];
    (s.(pending := s.pending[1..],
        nextSeq := Some(WrappingInc(first.number)),
        nextPtsUs := SaturatingAdd(first.ptsUs, FRAME_DURATION_US),
        streak := 0),
     Play(first))
  }

  function ConcealSlot(s: State, advanceSeq: bool): (State, Action) {
    if s.streak >= MAX_CONCEALED_FRAMES then (FRESH, Idle)
    else
      (s.(nextSeq := if advanceSeq && s.nextSeq.Some? then Some(WrappingInc(s.nextSeq.value)) else s.nextSeq,
          nextPtsUs := SaturatingAdd(s.nextPtsUs, FRAME_DURATION_US),
          streak := s.streak + 1),
       Conceal(s.nextPtsUs))
  }

  /** The head is released now rather than waited for. */
  predicate Releases(s: State, expected: U32)
    requires s.pending != []
  {
    || WrappingSub(s.pending[0].number, expected) >= RESYNC_GAP
    || |s.pending| > JITTER_DEPTH
    || s.pending[0].number == expected
  }

  function Tick(s: State): (State, Action) {
    if s.buffering then
      if |s.pending| < JITTER_DEPTH && !(s.fillTicks >= JITTER_DEPTH && s.pending != []) then
        var filling := s.(fillTicks := SaturatingAdd(s.fillTicks, 1));
        if s.nextSeq.Some? then ConcealSlot(filling, false) else (filling, Idle)
      else
        PlayFirst(s.(buffering := false, fillTicks := 0))
    else if s.nextSeq.None? then (s, Idle)
    else if s.pending == [] then ConcealSlot(s.(buffering := true), false)
    else if Releases(s, s.nextSeq.value) then PlayFirst(s)
    else ConcealSlot(s, true)
  }

  predicate IsIdle(s: State) {
    s.nextSeq.None? && s.pending == []
  }

  // ----- Runs

  datatype Event = Arrive(frame: Frame) | Slot

  function Step(s: State, e: Event): State {
    match e
    case Arrive(f) => Push(s, f)
    case Slot => Tick(s).0
  }

  function After(s: State, events: seq<Event>): State
    decreases |events|
  {
    if events == [] then s else After(Step(s, events[0]), events[1..])
  }

  function Actions(s: State, events: seq<Event>): seq<Action>
    decreases |events|
  {
    if events == [] then []
    else (if events[0].Slot? then [Tick(s).1] else []) + Actions(Step(s, events[0]), events[1..])
  }
}
