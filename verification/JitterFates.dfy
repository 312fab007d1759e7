/**
 What becomes of a frame once it is held, and how long a gap or a stream can last.
 A frame held stays held until it is played, shed by a full buffer, or dropped with
 the whole stream; and a gap the concealment budget covers always ends in a play.
 */
module JitterFates {
  import opened Machine
  import opened JitterModel
  import opened JitterOrder
  import opened JitterRuns
  import opened JitterReplay

  // ----- The three ways out of the buffer

  /** The budget is spent, and the slot would wait once more: for a fuller cushion, or
      for a number still missing before the head. */
  predicate Discards(s: State) {
    && s.pending != [] && s.streak == 20 && s.nextSeq.Some?
    && if s.buffering then |s.pending| < 3 && s.fillTicks < 3
       else !Releases(s, s.nextSeq.value)
  }

  /** The buffer is full and a higher number takes the place of its lowest. */
  predicate Sheds(s: State, g: Frame) {
    && |s.pending| == 12 && s.pending[0].number < g.number
    && !Stale(s, g.number) && !Buffered(s.pending, g.number)
  }

  /** A slot drops held frames exactly when the budget is spent and it would wait on;
      otherwise each one is played or kept, never both. */
  lemma SlotFate(s: State, f: Frame)
    requires Valid(s) && f in s.pending
    ensures f !in Tick(s).0.pending && Tick(s).1 != Play(f) <==> Discards(s)
    ensures !(f in Tick(s).0.pending && Tick(s).1 == Play(f))
    ensures Discards(s) ==> Tick(s) == (FRESH, Idle)
  {
    var i :| 0 <= i < |s.pending| && s.pending[i] == f;
    assert i > 0 ==> s.pending[1..][i - 1] == f;
    assert forall j | 0 < j < |s.pending| :: s.pending[0].number < s.pending[j].number;
  }

  /** A push drops a held frame exactly when it is the lowest of a full buffer that
      takes a higher one. */
  lemma PushFate(s: State, g: Frame, f: Frame)
    requires Valid(s) && f in s.pending
    ensures f in Push(s, g).pending <==> !(Sheds(s, g) && f == s.pending[0])
  {
    if !Stale(s, g.number) {
      var all := Insert(s.pending, g);
      InsertSorted(s.pending, g);
      InsertMember(s.pending, g, f);
      if Buffered(s.pending, g.number) {
        InsertDuplicate(s.pending, g);
      } else {
        InsertLonger(s.pending, g);
        if |all| > 12 { ShedsLowest(s.pending, g, f); }
      }
    }
  }

  lemma {:induction false} InsertLonger(p: seq<Frame>, g: Frame)
    requires !Buffered(p, g.number)
    ensures |Insert(p, g)| == |p| + 1
  {
    if p != [] && p[|p| - 1].number >= g.number {
      assert p[|p| - 1] in p;
      assert forall h | h in p[..|p| - 1] :: h in p;
      InsertLonger(p[..|p| - 1], g);
    }
  }

  /** One frame too many: the lowest goes, be it a held frame or the new one. */
  lemma ShedsLowest(p: seq<Frame>, g: Frame, f: Frame)
    requires Sorted(p) && !Buffered(p, g.number) && |p| == 12 && f in p
    ensures f in Newest(Insert(p, g)) <==> !(f == p[0] && p[0].number < g.number)
  {
    hide Insert, Sorted;
    var all := Insert(p, g);
    InsertSorted(p, g);
    InsertLonger(p, g);
    assert Newest(all) == all[1..];
    TailMembers(all, f);
    TailMembers(p, f);
    forall h ensures h in all <==> h in p || h == g { InsertMember(p, g, h); }
    LowestOf(p, g, all);
  }

  lemma TailMembers(p: seq<Frame>, f: Frame)
    requires Sorted(p) && p != []
    ensures f in p[1..] <==> f in p && f != p[0]
    ensures forall h | h in p && h != p[0] :: p[0].number < h.number
  {
    if f in p && f != p[0] {
      var i :| 0 <= i < |p| && p[i] == f;
      assert p[1..][i - 1] == f;
    }
  }

  lemma LowestOf(p: seq<Frame>, g: Frame, all: seq<Frame>)
    requires Sorted(p) && p != [] && Sorted(all) && all != [] && !Buffered(p, g.number)
    requires forall h :: h in all <==> h in p || h == g
    ensures all[0] == if p[0].number < g.number then p[0] else g
  {
    hide Sorted;
    TailMembers(p, g);
    TailMembers(all, g);
    assert p[0] in p && p[0] in all && g in all && all[0] in all;
  }

  /** The event does not leave `f` held. */
  predicate Ends(s: State, e: Event, f: Frame) {
    match e
    case Arrive(g) => s.pending != [] && f == s.pending[0] && Sheds(s, g)
    case Slot => Tick(s).1 == Play(f) || Discards(s)
  }

  lemma StepFate(s: State, e: Event, f: Frame)
    requires Valid(s) && f in s.pending
    ensures f in Step(s, e).pending <==> !Ends(s, e, f)
    ensures Valid(Step(s, e))
  {
    hide Push, Tick, Sheds, Discards;
    match e {
      case Arrive(g) =>
        PushFate(s, g, f);
        PushKeepsValid(s, g);
      case Slot =>
        SlotFate(s, f);
        TickKeepsValid(s);
    }
  }

  /** Over every run nothing held is lost unaccountably: a frame is still held at the
      end, or it was held until one event of the run played it, shed it, or dropped
      it with the stream. */
  lemma {:induction false} FrameFate(s: State, events: seq<Event>, f: Frame) returns (n: nat)
    requires Valid(s) && f in s.pending
    ensures n <= |events|
    ensures forall k | 0 <= k <= n :: f in After(s, events[..k]).pending
    ensures n < |events| ==>
              Ends(After(s, events[..n]), events[n], f) && f !in After(s, events[..n + 1]).pending
    decreases |events|
  {
    hide Ends, Step;
    n := 0;
    assert events[..0] == [];
    if events != [] {
      StepFate(s, events[0], f);
      assert events[..1] == [events[0]] && [events[0]][1..] == [];
      assert After(s, events[..1]) == After(Step(s, events[0]), []);
      if !Ends(s, events[0], f) {
        n := FrameFate(Step(s, events[0]), events[1..], f);
        n := n + 1;
        forall k | 0 <= k <= |events| ensures k > 0 ==> After(s, events[..k]) == After(Step(s, events[0]), events[1..][..k - 1]) {
          if k > 0 { assert events[..k][1..] == events[1..][..k - 1]; }
        }
      }
    }
  }

  // ----- Gaps

  /** Playing, with something held: too much to wait on, or a head at most `gap` ahead. */
  predicate Near(s: State, gap: nat) {
    && !s.buffering && s.nextSeq.Some? && s.pending != []
    && (|s.pending| > 3 || s.pending[0].number <= s.nextSeq.value + gap)
  }

  lemma NearSlot(s: State, gap: nat)
    requires Sound(s) && Near(s, gap) && s.streak + gap <= 20
    ensures var (s', a) := Tick(s);
            || a.Play?
            || (gap > 0 && a.Conceal? && Near(s', gap - 1) && s'.streak == s.streak + 1)
  {
    PlaysExactly(s);
    if s.pending[0].number > s.nextSeq.value { assert s.pending[0] in s.pending; }
  }

  lemma NearPush(s: State, f: Frame, gap: nat)
    requires Sound(s) && Near(s, gap)
    ensures Near(Push(s, f), gap) && Push(s, f).streak == s.streak
  {
    var t := Push(s, f);
    if !Stale(s, f.number) {
      var p := s.pending;
      var all := Insert(p, f);
      InsertSorted(p, f);
      if Buffered(p, f.number) { InsertDuplicate(p, f); } else { InsertLonger(p, f); }
      InsertMember(p, f, p[0]);
      assert p[0] in p && p[0] in all;
      TailMembers(all, p[0]);
      assert all[0].number <= p[0].number;
      assert |t.pending| <= 3 ==> t.pending == all;
    }
  }

  /** Whatever arrives meanwhile, a gap the budget covers ends in a play: the first
      slots are concealed, no more of them than numbers are missing, and the next plays. */
  lemma {:induction false} GapEnds(s: State, events: seq<Event>, gap: nat) returns (k: nat)
    requires Sound(s) && ClearOfWrap(events) && Near(s, gap)
    requires s.streak + gap <= 20 && gap < |Actions(s, events)|
    ensures k <= gap && Actions(s, events)[k].Play?
    ensures forall i | 0 <= i < k :: Actions(s, events)[i].Conceal?
    decreases |events|
  {
    hide Sound, Near, Tick, Push;
    var s', rest := Step(s, events[0]), events[1..];
    assert events[0] in events;
    assert forall e | e in rest :: e in events;
    if events[0].Arrive? {
      PushKeepsSound(s, events[0].frame);
      NearPush(s, events[0].frame, gap);
      assert Actions(s, events) == Actions(s', rest);
      k := GapEnds(s', rest, gap);
    } else {
      TickKeepsSound(s);
      NearSlot(s, gap);
      assert Actions(s, events) == [Tick(s).1] + Actions(s', rest);
      if Tick(s).1.Play? {
        k := 0;
      } else {
        k := GapEnds(s', rest, gap - 1);
        k := k + 1;
      }
    }
  }

  /** Playing, with nothing missing but the numbers before the head, which is `gap` ahead. */
  predicate Waiting(s: State, gap: nat) {
    && !s.buffering && s.nextSeq.Some?
    && 0 < |s.pending| <= 3
    && s.pending[0].number == s.nextSeq.value + gap
    && gap < 50
  }

  lemma WaitingSlot(s: State, gap: nat)
    requires Valid(s) && Waiting(s, gap) && gap > 0 && s.streak < 20
    ensures var (s', a) := Tick(s);
            a.Conceal? && Waiting(s', gap - 1) && s'.pending == s.pending && s'.streak == s.streak + 1
  {
  }

  /** If nothing more arrives: the head plays after exactly as many concealed slots as
      numbers are missing before it, when the budget covers them; when it does not,
      the frames held are dropped with the rest of the stream. */
  lemma {:induction false} GapIsWaitedOut(s: State, gap: nat, slots: nat)
    requires Valid(s) && Waiting(s, gap)
    ensures s.streak + gap <= 20 ==>
              && (slots < gap ==> Tick(Drain(s, slots)).1.Conceal?)
              && Tick(Drain(s, gap)).1 == Play(s.pending[0])
              && ResumesAfter(Drain(s, gap + 1), s.pending)
    ensures s.streak + gap > 20 ==>
              Drain(s, 21 - s.streak) == FRESH
    decreases gap
  {
    if gap > 0 {
      if s.streak < 20 {
        WaitingSlot(s, gap);
        TickKeepsValid(s);
        GapIsWaitedOut(Tick(s).0, gap - 1, if slots > 0 then slots - 1 else 0);
      } else {
        assert Drain(s, 1) == Drain(Tick(s).0, 0);
      }
    } else {
      assert Drain(s, 1) == Drain(Tick(s).0, 0);
    }
  }

  /** The head of `held` has just been played and the rest is waiting. */
  predicate ResumesAfter(s: State, held: seq<Frame>) {
    && held != [] && s.pending == held[1..]
    && s.nextSeq == Some(WrappingInc(held[0].number)) && s.streak == 0 && !s.buffering
  }

  /** From a fresh buffer: `f` plays, the frame 40 numbers on arrives in time, and is
      dropped unplayed 21 slots later. */
  lemma HeldFrameIsDropped(f: Frame, g: Frame)
    requires g.number == f.number + 40 && g.number + 50 < U32_LIMIT
    ensures var s := After(FRESH, [Arrive(f)] + Quiet(4) + [Arrive(g)]);
            && Tick(Drain(Push(FRESH, f), 3)).1 == Play(f)
            && s.pending == [g] && Waiting(s, 39) && Discards(Drain(s, 20)) && Drain(s, 21) == FRESH
  {
    var first := [Arrive(f)] + Quiet(4);
    RunConcat(FRESH, first, [Arrive(g)]);
    ArriveThenQuiet(FRESH, f, 4);
    LoneFramePlays(f);
    var s0 := Push(FRESH, f);
    DrainConcat(s0, 3, 1);
    var t := Tick(Drain(s0, 3)).0;
    assert Drain(Drain(s0, 3), 1) == Drain(t, 0) == t;
    TickKeepsValid(Drain(s0, 3));
    assert [Arrive(g)][1..] == [];
    var s := Push(t, g);
    assert s.pending == [g];
    PushKeepsValid(t, g);
    GapIsWaitedOut(s, 39, 0);
    StillWaiting(s, 39, 20);
  }

  lemma {:induction false} StillWaiting(s: State, gap: nat, slots: nat)
    requires Valid(s) && Waiting(s, gap) && slots < gap && s.streak + slots <= 20
    ensures var t := Drain(s, slots);
            Valid(t) && Waiting(t, gap - slots) && t.streak == s.streak + slots && t.pending == s.pending
    decreases slots
  {
    if slots > 0 {
      WaitingSlot(s, gap);
      TickKeepsValid(s);
      StillWaiting(Tick(s).0, gap - 1, slots - 1);
    }
  }

  // ----- The longest a stream can last

  /** A full buffer whose last three frames each have twenty missing before them. */
  function Gappy(): seq<Frame> {
    seq(12, i requires 0 <= i < 12 => Frame(if i < 9 then i else 8 + 21 * (i - 8), 0, []))
  }

  lemma {:induction false} PushAscending(s: State, fs: seq<Frame>)
    requires s.nextSeq.None? && Sorted(s.pending + fs) && |s.pending + fs| <= 12
    ensures PushAll(s, fs) == s.(pending := s.pending + fs)
    decreases |fs|
  {
    if fs == [] {
      assert s.pending + fs == s.pending;
    } else {
      var all := s.pending + fs;
      assert forall i | 0 <= i < |s.pending| :: all[i] == s.pending[i];
      assert all[|s.pending|] == fs[0];
      assert s.pending + [fs[0]] + fs[1..] == all;
      assert Push(s, fs[0]) == s.(pending := s.pending + [fs[0]]);
      PushAscending(Push(s, fs[0]), fs[1..]);
    }
  }

  lemma {:induction false} OverfullPlays(s: State, slots: nat)
    requires Valid(s) && s.nextSeq.Some? && !s.buffering && s.streak == 0
    requires |s.pending| >= 3 + slots && slots > 0
    ensures ResumesAfter(Drain(s, slots), s.pending[slots - 1..])
    decreases slots
  {
    var s' := Tick(s).0;
    TickKeepsValid(s);
    assert s'.pending == s.pending[1..];
    if slots == 1 {
      assert Drain(s, 1) == Drain(s', 0);
    } else {
      OverfullPlays(s', slots - 1);
      assert s'.pending[slots - 2..] == s.pending[slots - 1..];
    }
  }

  lemma WaitsOneGap(s: State, gap: nat)
    requires Valid(s) && Waiting(s, gap) && s.streak == 0 && gap <= 20
    ensures ResumesAfter(Drain(s, gap + 1), s.pending) && Valid(Drain(s, gap + 1))
  {
    GapIsWaitedOut(s, gap, 0);
    DrainKeepsValid(s, gap + 1);
  }

  lemma {:induction false} DrainKeepsValid(s: State, slots: nat)
    requires Valid(s)
    ensures Valid(Drain(s, slots))
    decreases slots
  {
    if slots > 0 {
      TickKeepsValid(s);
      DrainKeepsValid(Tick(s).0, slots - 1);
    }
  }

  /** The bound of 93 slots is reached: nine frames played at once, three waited for
      through twenty slots each, and twenty more before the buffer gives up. */
  lemma NinetyThreeSlots()
    ensures var s := PushAll(FRESH, Gappy());
            Valid(s) && SlotsLeft(s) == 93 && !IsIdle(Drain(s, 92)) && IsIdle(Drain(s, 93))
  {
    hide Drain, Tick, Waiting;
    var p := Gappy();
    assert Sorted(p) && [] + p == p;
    PushAscending(FRESH, p);
    var s := FRESH.(pending := p);
    var s1 := FirstPlay(s);
    DrainKeepsValid(s, 1);
    OverfullPlays(s1, 8);
    DrainKeepsValid(s1, 8);
    var s9 := Drain(s1, 8);
    LastThree(s9, p);
    DrainConcat(s1, 8, 83);
    DrainConcat(s, 1, 91);
    StreamEnds(s, 93);
  }

  lemma FirstPlay(s: State) returns (s1: State)
    requires Valid(s) && s.buffering && |s.pending| == 12
    ensures s1 == Drain(s, 1) && ResumesAfter(s1, s.pending)
  {
    s1 := Drain(s, 1);
    assert s1 == Drain(Tick(s).0, 0);
  }

  lemma LastThree(s: State, p: seq<Frame>)
    requires Valid(s) && p == Gappy() && ResumesAfter(s, p[8..])
    ensures !IsIdle(Drain(s, 83))
  {
    hide Drain, Valid;
    assert s.pending == p[9..];
    WaitsOneGap(s, 20);
    var a := Drain(s, 21);
    assert a.pending == p[10..];
    WaitsOneGap(a, 20);
    var b := Drain(a, 21);
    assert b.pending == p[11..];
    WaitsOneGap(b, 20);
    var c := Drain(b, 21);
    assert c.pending == [];
    DrainConcat(b, 21, 20);
    DrainConcat(a, 21, 41);
    DrainConcat(s, 21, 62);
    DrainConceals(c, 20);
  }
}
