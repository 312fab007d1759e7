/**
 The jitter buffer as the program writes it: an object whose methods update its
 fields.  Each method is proved to compute the function of the same name in
 JitterModel.
 */
module JitterBuffers {
  import opened Machine
  import opened JitterModel
  import opened JitterOrder
  import opened JitterRuns

  /** The standard library's sort by key. */
  function SortByNumber(p: seq<Frame>): seq<Frame> {
    if p == [] then [] else InsertAfterEqual(SortByNumber(p[..|p| - 1]), p[|p| - 1])
  }

  function InsertAfterEqual(p: seq<Frame>, f: Frame): seq<Frame> {
    if p == [] || p[|p| - 1].number <= f.number then p + [f]
    else InsertAfterEqual(p[..|p| - 1], f) + [p[|p| - 1]]
  }

  /** Sorting a sorted buffer with one new number at its end is placing that number. */
  lemma {:induction false} SortedAlready(p: seq<Frame>)
    requires Sorted(p)
    ensures SortByNumber(p) == p
  {
    if p != [] {
      SortedAlready(p[..|p| - 1]);
      assert p == p[..|p| - 1] + [p[|p| - 1]];
    }
  }

  lemma {:induction false} SameInsert(p: seq<Frame>, f: Frame)
    requires !Buffered(p, f.number)
    ensures InsertAfterEqual(p, f) == Insert(p, f)
  {
    if p != [] {
      assert p[|p| - 1] in p;
      SameInsert(p[..|p| - 1], f);
    }
  }

  lemma SortAfterPush(p: seq<Frame>, f: Frame)
    requires Sorted(p) && !Buffered(p, f.number)
    ensures SortByNumber(p + [f]) == Insert(p, f)
  {
    assert (p + [f])[..|p|] == p;
    SortedAlready(p);
    SameInsert(p, f);
  }

  /** The three ways a push can go, in the order the program tests them. */
  lemma PushCases(s: State, f: Frame)
    requires Valid(s)
    ensures Buffered(s.pending, f.number) || Stale(s, f.number) ==> Push(s, f) == s
    ensures !Buffered(s.pending, f.number) && !Stale(s, f.number) ==>
              Push(s, f) == s.(pending := Newest(SortByNumber(s.pending + [f])))
  {
    if Buffered(s.pending, f.number) {
      InsertDuplicate(s.pending, f);
    } else {
      SortAfterPush(s.pending, f);
    }
  }

  /** `retain(|f| f.seq != number)` */
  function Without(p: seq<Frame>, number: U32): seq<Frame> {
    if p == [] then []
    else (if p[0].number == number then [] else [p[0]]) + Without(p[1..], number)
  }

  lemma {:induction false} WithoutAbsent(p: seq<Frame>, number: U32)
    requires forall i | 0 <= i < |p| :: p[i].number > number
    ensures Without(p, number) == p
  {
    if p != [] { WithoutAbsent(p[1..], number); }
  }

  class JitterBuffer {
    var pending: seq<Frame>
    var nextSeq: Option<U32>
    var nextPtsUs: U64
    var concealedStreak: nat
    var buffering: bool
    var fillTicks: U64

    ghost function Abstract(): State
      reads this
    {
      State(pending, nextSeq, nextPtsUs, concealedStreak, buffering, fillTicks)
    }

    constructor ()
      ensures Abstract() == FRESH
    {
      pending := [];
      nextSeq := None;
      nextPtsUs := 0;
      concealedStreak := 0;
      buffering := true;
      fillTicks := 0;
    }

    method Push(frame: Frame)
      requires Valid(Abstract())
      modifies this
      ensures Abstract() == JitterModel.Push(old(Abstract()), frame)
      ensures Valid(Abstract())
    {
      ghost var s := Abstract();
      PushKeepsValid(s, frame);
      PushCases(s, frame);
      if Buffered(pending, frame.number) {
        return;
      }
      if nextSeq.Some? && frame.number < nextSeq.value && WrappingSub(nextSeq.value, frame.number) < RESYNC_GAP {
        return;
      }
      pending := pending + [frame];
      pending := SortByNumber(pending);
      Shed();
      assert Abstract() == s.(pending := Newest(SortByNumber(s.pending + [frame])));
    }

    /** Drop the oldest frames while there are too many. */
    method Shed()
      modifies this`pending
      ensures pending == Newest(old(pending))
    {
      ghost var sorted := pending;
      while |pending| > MAX_BUFFERED_FRAMES
        invariant |pending| >= if |sorted| < MAX_BUFFERED_FRAMES then |sorted| else MAX_BUFFERED_FRAMES
        invariant |pending| <= |sorted| && pending == sorted[|sorted| - |pending|..]
      {
        pending := pending[1..];
      }
    }

    method Tick() returns (action: Action)
      requires Valid(Abstract())
      modifies this
      ensures (Abstract(), action) == JitterModel.Tick(old(Abstract()))
      ensures Valid(Abstract())
    {
      TickKeepsValid(Abstract());
      if buffering {
        var stalled := fillTicks >= JITTER_DEPTH && pending != [];
        if |pending| < JITTER_DEPTH && !stalled {
          fillTicks := SaturatingAdd(fillTicks, 1);
          if nextSeq.Some? {
            action := ConcealFrame(false);
          } else {
            action := Idle;
          }
          return;
        }
        buffering := false;
        fillTicks := 0;
        var first := pending[0];
        StartFrom(first);
        return Play(first);
      }
      if nextSeq.None? {
        return Idle;
      }
      var expected := nextSeq.value;
      if pending != [] {
        var first := pending[0];
        if WrappingSub(first.number, expected) >= RESYNC_GAP
           || |pending| > JITTER_DEPTH
           || first.number == expected
        {
          StartFrom(first);
          return Play(first);
        }
        action := ConcealFrame(true);
        return;
      }
      buffering := true;
      action := ConcealFrame(false);
    }

    method ConcealFrame(advanceSeq: bool) returns (action: Action)
      modifies this
      ensures (Abstract(), action) == ConcealSlot(old(Abstract()), advanceSeq)
    {
      if concealedStreak >= MAX_CONCEALED_FRAMES {
        Reset();
        return Idle;
      }
      if advanceSeq && nextSeq.Some? {
        nextSeq := Some(WrappingInc(nextSeq.value));
      }
      var ptsUs := nextPtsUs;
      nextPtsUs := SaturatingAdd(ptsUs, FRAME_DURATION_US);
      concealedStreak := concealedStreak + 1;
      return Conceal(ptsUs);
    }

    method StartFrom(frame: Frame)
      requires Sorted(pending) && pending != [] && pending[0] == frame
      modifies this
      ensures (Abstract(), Play(frame)) == PlayFirst(old(Abstract()))
    {
      WithoutAbsent(pending[1..], frame.number);
      assert [] + pending[1..] == pending[1..];
      pending := Without(pending, frame.number);
      nextSeq := Some(WrappingInc(frame.number));
      nextPtsUs := SaturatingAdd(frame.ptsUs, FRAME_DURATION_US);
      concealedStreak := 0;
    }

    method Reset()
      modifies this
      ensures Abstract() == FRESH
    {
      pending, nextSeq, nextPtsUs := [], None, 0;
      concealedStreak, buffering, fillTicks := 0, true, 0;
    }

    method IsIdle() returns (idle: bool)
      ensures idle == JitterModel.IsIdle(Abstract())
    {
      return nextSeq.None? && pending == [];
    }
  }
}
