/**
 What every run of pushes and slots keeps: order, bounds, no replay of a recent
 frame while the timeline runs, evenly spaced concealment, and an end to a stream
 that stops.

 Here and in the other files of properties the numbers are spelled out instead of
 naming the model's constants: a cushion of 3 frames, 12 at most, 20 concealed in a
 row, a restart 50 numbers away, 20 000 us a frame.
 */
module JitterRuns {
  import opened Machine
  import opened JitterModel
  import opened JitterOrder

  // ----- The invariant of every reachable state

  ghost predicate Valid(s: State) {
    && Sorted(s.pending)
    && |s.pending| <= 12
    && s.streak <= 20
    && (s.nextSeq.None? ==> s.buffering && s.streak == 0)
  }

  lemma PushKeepsValid(s: State, f: Frame)
    requires Valid(s)
    ensures Valid(Push(s, f))
  {
    InsertSorted(s.pending, f);
  }

  lemma TickKeepsValid(s: State)
    requires Valid(s)
    ensures Valid(Tick(s).0)
  {
  }

  lemma {:induction false} RunKeepsValid(s: State, events: seq<Event>)
    requires Valid(s)
    ensures Valid(After(s, events))
    decreases |events|
  {
    if events != [] {
      if events[0].Arrive? { PushKeepsValid(s, events[0].frame); } else { TickKeepsValid(s); }
      RunKeepsValid(Step(s, events[0]), events[1..]);
    }
  }

  // ----- While the timeline runs, no recently played frame is held or played again

  /** At or past the expected number, or so far behind that it is a restart. */
  predicate Current(expected: U32, number: U32) {
    number >= expected || expected - number >= 50
  }

  ghost predicate NoReplay(s: State) {
    s.nextSeq.Some? ==> forall f | f in s.pending :: Current(s.nextSeq.value, f.number)
  }

  lemma PushKeepsNoReplay(s: State, f: Frame)
    requires Valid(s) && NoReplay(s)
    ensures NoReplay(Push(s, f))
  {
    var s' := Push(s, f);
    forall g | g in s'.pending && s.nextSeq.Some? ensures Current(s.nextSeq.value, g.number) {
      if !Stale(s, f.number) {
        assert g in Insert(s.pending, f);
        InsertMember(s.pending, f, g);
      }
    }
  }

  /** The slot at which the numeric order of the buffer disagrees with the wrapped
      order of the sequence: the head is a number that has wrapped past zero, so
      the slot conceals although the expected frame is held right behind it. */
  predicate StepsOverHeldFrame(s: State) {
    && !s.buffering && s.nextSeq.Some? && s.streak < 20
    && s.pending != [] && !Releases(s, s.nextSeq.value)
    && Buffered(s.pending, s.nextSeq.value)
    && s.nextSeq.value < U32_LIMIT - 1
  }

  lemma PlayLeavesLater(s: State)
    requires Sorted(s.pending) && s.pending != []
    ensures NoReplay(PlayFirst(s).0)
  {
    var s' := PlayFirst(s).0;
    forall g | g in s'.pending ensures g.number > s.pending[0].number {
      var i :| 0 <= i < |s'.pending| && s'.pending[i] == g;
      assert g == s.pending[i + 1];
    }
  }

  lemma ConcealLeavesCurrent(s: State)
    requires NoReplay(s) && s.nextSeq.Some? && s.streak < 20
    ensures NoReplay(ConcealSlot(s, true).0) <==>
            !(Buffered(s.pending, s.nextSeq.value) && s.nextSeq.value < U32_LIMIT - 1)
  {
    var s' := ConcealSlot(s, true).0;
    var e := s.nextSeq.value;
    if Buffered(s.pending, e) && e < U32_LIMIT - 1 {
      var g :| g in s.pending && g.number == e;
      assert g in s'.pending && !Current(s'.nextSeq.value, g.number);
    } else {
      forall g | g in s'.pending ensures Current(s'.nextSeq.value, g.number) {
        assert g in s.pending && Current(e, g.number);
      }
    }
  }

  /** One slot keeps the invariant exactly when it does not step over a held frame. */
  lemma TickNoReplayExact(s: State)
    requires Valid(s) && NoReplay(s)
    ensures NoReplay(Tick(s).0) <==> !StepsOverHeldFrame(s)
  {
    if s.pending != [] {
      PlayLeavesLater(s);
      PlayLeavesLater(s.(buffering := false, fillTicks := 0));
    }
    if s.nextSeq.Some? && s.streak < 20 {
      ConcealLeavesCurrent(s);
    }
  }

  /** A reachable run that crosses the wrap: the stream plays 2^32-4, then the
      wrapped number 1 and the expected 2^32-3 arrive together. */
  function WrapRun(): seq<Event> {
    [Arrive(Frame(U32_LIMIT - 4, 0, [])), Slot, Slot, Slot, Slot,
     Arrive(Frame(1, 0, [])), Arrive(Frame(U32_LIMIT - 3, 0, []))]
  }

  /** The expected number comes next, with the wrapped one sorted before it. */
  const WRAPPED: State :=
    State([Frame(1, 0, []), Frame(U32_LIMIT - 3, 0, [])], Some(U32_LIMIT - 3), 20_000, 0, false, 0)

  /** The step-over does happen, and it leaves a frame behind the expected number. */
  lemma StepOverIsReachable()
    ensures var s := After(FRESH, WrapRun());
            StepsOverHeldFrame(s) && Tick(s).1.Conceal? && !NoReplay(Tick(s).0)
  {
    WrapRunReaches();
    assert WRAPPED.pending[1] in WRAPPED.pending;
    assert !Releases(WRAPPED, U32_LIMIT - 3);
    ConcealLeavesCurrent(WRAPPED);
  }

  lemma WrapRunReaches()
    ensures After(FRESH, WrapRun()) == WRAPPED
  {
    var x, a, b := Frame(U32_LIMIT - 4, 0, []), Frame(1, 0, []), Frame(U32_LIMIT - 3, 0, []);
    WrapRunIs(x, a, b);
    var s1 := Push(FRESH, x);
    assert Tick(Tick(Tick(s1).0).0).0 == s1.(fillTicks := 3);
    var s5 := Tick(s1.(fillTicks := 3)).0;
    assert s5 == WRAPPED.(pending := []);
    assert Push(s5, a) == s5.(pending := [a]);
  }

  lemma WrapRunIs(x: Frame, a: Frame, b: Frame)
    ensures After(FRESH, [Arrive(x), Slot, Slot, Slot, Slot, Arrive(a), Arrive(b)]) ==
            Push(Push(Tick(Tick(Tick(Tick(Push(FRESH, x)).0).0).0).0, a), b)
  {
    hide Push, Tick;
    var s1 := Push(FRESH, x);
    var s3 := Tick(Tick(s1).0).0;
    var s5 := Tick(Tick(s3).0).0;
    calc {
      After(FRESH, [Arrive(x), Slot, Slot, Slot, Slot, Arrive(a), Arrive(b)]);
      After(s1, [Slot, Slot, Slot, Slot, Arrive(a), Arrive(b)]);
      After(Tick(s1).0, [Slot, Slot, Slot, Arrive(a), Arrive(b)]);
      After(s3, [Slot, Slot, Arrive(a), Arrive(b)]);
      After(Tick(s3).0, [Slot, Arrive(a), Arrive(b)]);
      After(s5, [Arrive(a), Arrive(b)]);
      After(Push(s5, a), [Arrive(b)]);
      After(Push(Push(s5, a), b), []);
    }
  }

  /** Far enough from the wrap that numeric and sequence order agree. */
  predicate ClearOfWrap(events: seq<Event>) {
    forall e | e in events && e.Arrive? :: e.frame.number + 50 < U32_LIMIT
  }

  ghost predicate Low(s: State) {
    && (forall f | f in s.pending :: f.number + 50 < U32_LIMIT)
    && (s.nextSeq.Some? ==> s.nextSeq.value + 50 <= U32_LIMIT)
  }

  ghost predicate Sound(s: State) {
    Valid(s) && NoReplay(s) && Low(s)
  }

  lemma PushKeepsSound(s: State, f: Frame)
    requires Sound(s) && f.number + 50 < U32_LIMIT
    ensures Sound(Push(s, f))
  {
    PushKeepsValid(s, f);
    PushKeepsNoReplay(s, f);
    forall g | g in Push(s, f).pending ensures g.number + 50 < U32_LIMIT {
      if !Stale(s, f.number) {
        assert g in Insert(s.pending, f);
        InsertMember(s.pending, f, g);
      }
    }
  }

  /** A concealed slot that gives up on a number only does so for one that is missing. */
  lemma LowConceals(s: State)
    requires Sound(s) && !s.buffering && s.nextSeq.Some? && s.pending != [] && !Releases(s, s.nextSeq.value)
    ensures s.pending[0].number > s.nextSeq.value
    ensures !Buffered(s.pending, s.nextSeq.value)
  {
    var e := s.nextSeq.value;
    assert s.pending[0] in s.pending;
    assert s.pending[0].number > e;
    forall g | g in s.pending ensures g.number != e {
      var i :| 0 <= i < |s.pending| && s.pending[i] == g;
      assert i > 0 ==> s.pending[0].number < s.pending[i].number;
    }
  }

  lemma PlayKeepsLow(s: State)
    requires Low(s) && s.pending != []
    ensures Low(PlayFirst(s).0)
  {
    assert s.pending[0] in s.pending;
    assert forall g | g in PlayFirst(s).0.pending :: g in s.pending;
  }

  lemma TickKeepsLow(s: State)
    requires Sound(s)
    ensures Low(Tick(s).0)
  {
    if s.pending != [] {
      PlayKeepsLow(s);
      PlayKeepsLow(s.(buffering := false, fillTicks := 0));
      assert s.pending[0] in s.pending;
      if !s.buffering && s.nextSeq.Some? && !Releases(s, s.nextSeq.value) { LowConceals(s); }
    }
  }

  lemma TickKeepsSound(s: State)
    requires Sound(s)
    ensures Sound(Tick(s).0)
  {
    TickKeepsValid(s);
    TickKeepsLow(s);
    if !s.buffering && s.nextSeq.Some? && s.pending != [] && !Releases(s, s.nextSeq.value) {
      LowConceals(s);
    }
    TickNoReplayExact(s);
  }

  lemma {:induction false} RunKeepsSound(s: State, events: seq<Event>)
    requires Sound(s) && ClearOfWrap(events)
    ensures Sound(After(s, events))
    decreases |events|
  {
    if events != [] {
      assert events[0] in events;
      if events[0].Arrive? { PushKeepsSound(s, events[0].frame); } else { TickKeepsSound(s); }
      RunKeepsSound(Step(s, events[0]), events[1..]);
    }
  }

  /** Every state reached from a fresh buffer is sorted and bounded; and while the
      timeline runs, every frame held, and what the next slot plays, is at or past
      the expected number or at least 50 behind it.  A reset ends the timeline and
      with it this memory: what that allows is in JitterReplay.dfy. */
  lemma EveryRunIsSound(events: seq<Event>)
    requires ClearOfWrap(events)
    ensures Sound(After(FRESH, events))
    ensures var s := After(FRESH, events);
            Tick(s).1.Play? && s.nextSeq.Some? ==> Current(s.nextSeq.value, Tick(s).1.frame.number)
  {
    RunKeepsSound(FRESH, events);
    var s := After(FRESH, events);
    if Tick(s).1.Play? && s.nextSeq.Some? { PlayIsCurrent(s); }
  }

  // ----- What follows a played frame

  ghost predicate AllConceal(acts: seq<Action>) {
    forall i | 0 <= i < |acts| :: acts[i].Conceal?
  }

  /** Concealed slots in a row, with any arrivals between them: each advances the
      timeline by exactly one frame, and the budget runs down by one. */
  lemma {:induction false} ConcealRun(s: State, events: seq<Event>, k: nat)
    requires Valid(s) && AllConceal(Actions(s, events))
    ensures |Actions(s, events)| + s.streak <= 20
    ensures After(s, events).streak == s.streak + |Actions(s, events)|
    ensures k < |Actions(s, events)| ==>
              Actions(s, events)[k] == Conceal(SaturatingAdd(s.nextPtsUs, k * 20_000))
    decreases |events|
  {
    hide Tick, Push;
    if events != [] {
      var s', rest := Step(s, events[0]), events[1..];
      var acts, more := Actions(s, events), Actions(s', rest);
      if events[0].Arrive? {
        PushKeepsValid(s, events[0].frame);
        PushKeepsClock(s, events[0].frame);
        assert acts == more;
        ConcealRun(s', rest, k);
      } else {
        TickKeepsValid(s);
        assert acts == [Tick(s).1] + more;
        assert forall i | 0 <= i < |more| :: more[i] == acts[i + 1];
        assert acts[0] == Tick(s).1;
        ConcealClock(s);
        ConcealRun(s', rest, if k == 0 then 0 else k - 1);
        if 0 < k < |acts| { LaterClock(s.nextPtsUs, k); }
      }
    }
  }

  lemma PushKeepsClock(s: State, f: Frame)
    ensures Push(s, f).streak == s.streak && Push(s, f).nextPtsUs == s.nextPtsUs
  {
  }

  /** A concealed slot reports the time the next one is due, and costs one of the budget. */
  lemma ConcealClock(s: State)
    requires Tick(s).1.Conceal?
    ensures Tick(s).1 == Conceal(s.nextPtsUs) && s.streak < 20
    ensures Tick(s).0.streak == s.streak + 1
    ensures Tick(s).0.nextPtsUs == SaturatingAdd(s.nextPtsUs, 20_000)
  {
  }

  lemma LaterClock(pts: U64, k: nat)
    requires k > 0
    ensures SaturatingAdd(SaturatingAdd(pts, 20_000), (k - 1) * 20_000) ==
            SaturatingAdd(pts, k * 20_000)
  {
  }

  /** The k-th concealed slot after playing `f` reports `f`'s own time plus k frames. */
  lemma ConcealedTimeline(s: State, events: seq<Event>, k: nat)
    requires Valid(s) && Tick(s).1.Play?
    requires AllConceal(Actions(Tick(s).0, events))
    ensures |Actions(Tick(s).0, events)| <= 20
    ensures 1 <= k <= |Actions(Tick(s).0, events)| ==>
              Actions(Tick(s).0, events)[k - 1] ==
              Conceal(SaturatingAdd(Tick(s).1.frame.ptsUs, k * 20_000))
  {
    TickKeepsValid(s);
    if k >= 1 {
      ConcealRun(Tick(s).0, events, k - 1);
      LaterClock(Tick(s).1.frame.ptsUs, k);
    } else {
      ConcealRun(Tick(s).0, events, 0);
    }
  }

  /** No run, from any valid state, conceals more than twenty slots in a row. */
  lemma {:induction false} ConcealBurst(s: State, events: seq<Event>, i: nat, j: nat)
    requires Valid(s) && i <= j <= |Actions(s, events)|
    requires forall k | i <= k < j :: Actions(s, events)[k].Conceal?
    ensures j - i <= 20 - (if i == 0 then s.streak else 0)
    decreases |events|
  {
    if events != [] {
      var s', rest := Step(s, events[0]), events[1..];
      var acts, more := Actions(s, events), Actions(s', rest);
      if events[0].Arrive? {
        PushKeepsValid(s, events[0].frame);
        assert acts == more;
        ConcealBurst(s', rest, i, j);
      } else {
        TickKeepsValid(s);
        assert acts == [Tick(s).1] + more;
        assert forall k | 0 <= k < |more| :: more[k] == acts[k + 1];
        if j > 0 {
          assert i == 0 ==> acts[0].Conceal?;
          ConcealBurst(s', rest, if i == 0 then 0 else i - 1, j - 1);
        }
      }
    }
  }

  /** The expected number has moved past `f` by no more than the slots concealed since. */
  ghost predicate Follows(s: State, f: Frame) {
    s.nextSeq.Some? && f.number + 1 <= s.nextSeq.value <= f.number + 1 + s.streak
  }

  lemma {:induction false} FollowsThroughConceals(s: State, events: seq<Event>, f: Frame)
    requires Sound(s) && Follows(s, f) && ClearOfWrap(events) && AllConceal(Actions(s, events))
    ensures Follows(After(s, events), f)
    decreases |events|
  {
    hide Tick, Push, Sound, Follows;
    if events != [] {
      var s', rest := Step(s, events[0]), events[1..];
      var acts, more := Actions(s, events), Actions(s', rest);
      assert events[0] in events;
      assert forall e | e in rest :: e in events;
      if events[0].Arrive? {
        PushKeepsSound(s, events[0].frame);
        PushFollows(s, events[0].frame, f);
        assert acts == more;
      } else {
        TickKeepsSound(s);
        assert acts == [Tick(s).1] + more;
        assert forall i | 0 <= i < |more| :: more[i] == acts[i + 1];
        assert acts[0].Conceal?;
        ConcealFollows(s, f);
      }
      FollowsThroughConceals(s', rest, f);
    }
  }

  lemma PushFollows(s: State, g: Frame, f: Frame)
    requires Follows(s, f)
    ensures Follows(Push(s, g), f)
  {
  }

  lemma ConcealFollows(s: State, f: Frame)
    requires Sound(s) && Follows(s, f) && Tick(s).1.Conceal?
    ensures Follows(Tick(s).0, f)
  {
    if !s.buffering && s.pending != [] { LowConceals(s); }
  }

  /** Between two frames played one after the other, with any arrivals and any
      concealed slots between them, the second is later in the stream, or belongs
      to a restart at least 29 numbers back; it is never a recent frame again. */
  lemma ConsecutivePlays(s: State, events: seq<Event>)
    requires Sound(s) && ClearOfWrap(events) && Tick(s).1.Play?
    requires AllConceal(Actions(Tick(s).0, events))
    requires Tick(After(Tick(s).0, events)).1.Play?
    ensures var f, g := Tick(s).1.frame, Tick(After(Tick(s).0, events)).1.frame;
            g.number > f.number || g.number + 29 <= f.number
  {
    TickKeepsSound(s);
    var s' := Tick(s).0;
    PlayIsFollowed(s);
    FollowsThroughConceals(s', events, s.pending[0]);
    RunKeepsSound(s', events);
    PlayIsCurrent(After(s', events));
  }

  lemma PlayIsFollowed(s: State)
    requires Sound(s) && Tick(s).1.Play?
    ensures s.pending != [] && Tick(s).1.frame == s.pending[0] && Follows(Tick(s).0, s.pending[0])
  {
    assert s.pending[0] in s.pending;
  }

  lemma PlayIsCurrent(s: State)
    requires NoReplay(s) && Tick(s).1.Play? && s.nextSeq.Some?
    ensures Current(s.nextSeq.value, Tick(s).1.frame.number)
  {
    assert s.pending[0] in s.pending;
  }

  // ----- When a slot plays

  /** A slot plays the head at once, dropping nothing behind it, exactly when the
      buffer is past its cushion, the head is the next number or a restart, or a
      rebuilt cushion is full or has been waited for. */
  lemma PlaysExactly(s: State)
    requires Sound(s)
    ensures var (s', a) := Tick(s);
            var full := |s.pending| >= 3 || (s.pending != [] && s.fillTicks >= 3);
            var due := s.pending != [] && s.nextSeq.Some?
                       && (|s.pending| > 3 || s.pending[0].number <= s.nextSeq.value
                           || s.pending[0].number - s.nextSeq.value >= 50);
            && (a.Play? <==> if s.buffering then full else due)
            && (a.Play? ==> a.frame == s.pending[0] && s'.pending == s.pending[1..] && s'.streak == 0)
            && (a.Conceal? ==> s'.pending == s.pending && s'.streak == s.streak + 1)
            && (a.Idle? ==> s' == FRESH || (s.nextSeq.None? && s'.pending == s.pending))
  {
    if s.pending != [] { assert s.pending[0] in s.pending; }
  }

  // ----- A stream that stops comes to an end

  /** Slots that playing `held` frames can take: past the cushion each takes one, and
      each of the last three can first be waited for through a whole budget. */
  function SlotsFor(held: nat): nat {
    if held <= 3 then 21 * held
    else 21 * 3 + (held - 3)
  }

  /** Slots left before the buffer is idle, if nothing more arrives. */
  function SlotsLeft(s: State): nat {
    if IsIdle(s) then 0
    else SlotsFor(|s.pending|) +
         if |s.pending| > 3 then 21
         else if s.nextSeq.Some? then
           if s.streak <= 20 then 21 - s.streak else 0
         else if s.fillTicks <= 3 then 4 - s.fillTicks else 1
  }

  /** Every slot without an arrival brings the end nearer. */
  lemma SlotsLeftDecreases(s: State)
    requires Valid(s) && !IsIdle(s)
    ensures SlotsLeft(Tick(s).0) < SlotsLeft(s)
    ensures IsIdle(Tick(s).0) ==> Tick(s).1.Idle?
  {
  }

  function Drain(s: State, slots: nat): State
    decreases slots
  {
    if slots == 0 then s else Drain(Tick(s).0, slots - 1)
  }

  lemma IdleStaysIdle(s: State)
    requires Valid(s) && IsIdle(s)
    ensures IsIdle(Tick(s).0) && Tick(s).1.Idle?
  {
  }

  /** A buffer that receives nothing more is idle within `SlotsLeft` slots, at most 93. */
  lemma {:induction false} StreamEnds(s: State, slots: nat)
    requires Valid(s) && slots >= SlotsLeft(s)
    ensures IsIdle(Drain(s, slots))
    ensures SlotsLeft(s) <= 93
    decreases slots
  {
    if IsIdle(s) {
      if slots > 0 { IdleStaysIdle(s); TickKeepsValid(s); StreamEnds(Tick(s).0, slots - 1); }
    } else {
      SlotsLeftDecreases(s);
      TickKeepsValid(s);
      StreamEnds(Tick(s).0, slots - 1);
    }
  }

  /** One frame that is never followed takes exactly 25 slots. */
  lemma OneFrameTakesAllItsSlots(f: Frame)
    ensures SlotsLeft(Push(FRESH, f)) == 25
    ensures !IsIdle(Drain(Push(FRESH, f), 24))
  {
    var s0 := Push(FRESH, f);
    var s1 := Tick(s0).0;
    var s2 := Tick(s1).0;
    var s3 := Tick(s2).0;
    var s4 := Tick(s3).0;
    assert Drain(s0, 24) == Drain(s4, 20);
    DrainConceals(s4, 20);
  }

  lemma {:induction false} DrainConceals(s: State, slots: nat)
    requires s.nextSeq.Some? && s.pending == [] && s.streak + slots <= 20
    ensures Drain(s, slots).nextSeq.Some?
    decreases slots
  {
    if slots > 0 { DrainConceals(Tick(s).0, slots - 1); }
  }
}
