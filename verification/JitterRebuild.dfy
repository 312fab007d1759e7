/**
 Where steady delivery ends.  The first frame that is neither in time nor bridged
 sends the buffer back to filling, at that very slot and at no other; whether the
 next frame still plays in its own slot is then up to a single batch.
 */
module JitterRebuild {
  import opened Machine
  import opened JitterModel
  import opened JitterOrder
  import opened JitterDelivery

  /** On a stream that is steady so far, a slot sends the buffer back to filling exactly
      when its frame is not in time and neither of the two after it is there. */
  lemma RebuildsExactly(frames: seq<Frame>, batches: seq<seq<nat>>, t: nat)
    requires Numbered(frames, |frames|) && WellTimed(batches, |frames|)
    requires 3 < t < |batches| && Cursor(t) < |frames| && Steady(batches, t)
    ensures Tick(AtSlot(frames, batches, t)).0.buffering <==> !Bridged(batches, Cursor(t))
  {
    hide AtSlot, Tick, Holds, OnTrack;
    EverySlot(frames, |frames|, batches, t);
    var s := AtSlot(frames, batches, t);
    if Bridged(batches, Cursor(t)) {
      BridgedSlot(s, frames, batches, t);
    } else {
      UnbridgedSlot(s, frames, |frames|, batches, t);
    }
  }

  lemma BridgedSlot(s: State, frames: seq<Frame>, batches: seq<seq<nat>>, t: nat)
    requires Numbered(frames, |frames|) && WellTimed(batches, |frames|)
    requires 3 <= t && Cursor(t) < |frames|
    requires Bridged(batches, Cursor(t)) && (t == 3 ==> InTime(batches, 0))
    requires OnTrack(s, frames, batches, t)
    requires Sorted(s.pending) && Holds(s.pending, frames, batches, Cursor(t), t)
    ensures !Tick(s).0.buffering
  {
    SlotOutcome(s, frames, |frames|, batches, t);
  }

  /** Over the whole run: from its first frame on, the buffer never goes back to filling
      exactly as long as every frame is in time or bridged. */
  lemma {:induction false} SteadyExactly(frames: seq<Frame>, batches: seq<seq<nat>>, t: nat)
    requires Numbered(frames, |frames|) && WellTimed(batches, |frames|)
    requires 3 <= t < |batches| && Cursor(t) < |frames| && InTime(batches, 0)
    ensures Steady(batches, t + 1) <==>
            forall u | 3 <= u <= t :: !Tick(AtSlot(frames, batches, u)).0.buffering
    decreases t
  {
    hide AtSlot, Tick, InTime, Bridged, Holds, OnTrack;
    if t == 3 {
      FirstFrameIsSteady(batches);
      EverySlot(frames, |frames|, batches, t);
      BridgedSlot(AtSlot(frames, batches, t), frames, batches, t);
    } else {
      SteadyExactly(frames, batches, t - 1);
      if Steady(batches, t) { RebuildsExactly(frames, batches, t); }
      SteadyOneMore(batches, t);
    }
  }

  lemma FirstFrameIsSteady(batches: seq<seq<nat>>)
    requires InTime(batches, 0)
    ensures Steady(batches, 3) && Steady(batches, 4) && Bridged(batches, 0)
  {
  }

  lemma SteadyOneMore(batches: seq<seq<nat>>, t: nat)
    requires t > 3
    ensures Steady(batches, t + 1) <==> Steady(batches, t) && Bridged(batches, Cursor(t))
  {
    hide Bridged, InTime;
  }

  // ----- The slot after

  /** Frames k to k + 3, those that are in the batch. */
  function FourFrom(frames: seq<Frame>, batch: seq<nat>, k: nat): seq<Frame>
    requires forall j | j in batch :: j < |frames|
  {
    (if k in batch then [frames[k]] else []) + (if k + 1 in batch then [frames[k + 1]] else [])
    + (if k + 2 in batch then [frames[k + 2]] else []) + (if k + 3 in batch then [frames[k + 3]] else [])
  }

  lemma FourSorted(frames: seq<Frame>, batch: seq<nat>, k: nat)
    requires Numbered(frames, |frames|) && forall j | j in batch :: j < |frames|
    ensures Sorted(FourFrom(frames, batch, k))
    ensures forall f :: f in FourFrom(frames, batch, k) <==>
                        exists j: nat | j < |frames| :: k <= j <= k + 3 && j in batch && f == frames[j]
  {
    forall f ensures f in FourFrom(frames, batch, k) <==>
                     exists j: nat | j < |frames| :: k <= j <= k + 3 && j in batch && f == frames[j]
    {
      FourMembers(frames, batch, k, f);
    }
  }

  lemma FourMembers(frames: seq<Frame>, batch: seq<nat>, k: nat, f: Frame)
    requires forall j | j in batch :: j < |frames|
    ensures f in FourFrom(frames, batch, k) <==>
            exists j: nat | j < |frames| :: k <= j <= k + 3 && j in batch && f == frames[j]
  {
    var q := FourFrom(frames, batch, k);
    assert f in q <==> (k in batch && f == frames[k]) || (k + 1 in batch && f == frames[k + 1])
                       || (k + 2 in batch && f == frames[k + 2]) || (k + 3 in batch && f == frames[k + 3]);
  }

  /** The buffer that an unbridged frame k leaves, still expecting k. */
  predicate Refilling(s: State, expected: U32) {
    && s.pending == [] && s.buffering && s.fillTicks == 0
    && s.nextSeq == Some(expected) && s.streak < 20
  }

  lemma UnbridgedRefills(s: State, frames: seq<Frame>, batches: seq<seq<nat>>, t: nat)
    requires Numbered(frames, |frames|) && WellTimed(batches, |frames|) && t > 3 && Cursor(t) < |frames|
    requires !Bridged(batches, Cursor(t)) && OnTrack(s, frames, batches, t)
    requires Sorted(s.pending) && Holds(s.pending, frames, batches, Cursor(t), t)
    ensures Refilling(Tick(s).0, frames[Cursor(t)].number)
  {
    UnbridgedSlot(s, frames, |frames|, batches, t);
  }

  /** One batch into a refilling buffer: what it holds of the four frames not yet late. */
  lemma RefillBatch(s: State, frames: seq<Frame>, batches: seq<seq<nat>>, t: nat)
    requires Numbered(frames, |frames|) && WellTimed(batches, |frames|)
    requires 3 < t && t + 1 < |batches| && Cursor(t) < |frames|
    requires Refilling(s, frames[Cursor(t)].number)
    ensures PushAll(s, Pick(frames, batches[t + 1])) ==
            s.(pending := FourFrom(frames, batches[t + 1], Cursor(t)))
  {
    var k, batch := Cursor(t), batches[t + 1];
    var fs := Pick(frames, batch);
    PickConsistent(frames, |frames|, batch);
    var all := BatchKeepsTheNewest(s, fs);
    FourSorted(frames, batch, k);
    forall f ensures f in all <==> f in FourFrom(frames, batch, k) {
      PickMembers(frames, batch, f);
      RefillTakes(s, frames, batches, t, f);
    }
    SortedUnique(all, FourFrom(frames, batch, k));
  }

  lemma RefillTakes(s: State, frames: seq<Frame>, batches: seq<seq<nat>>, t: nat, f: Frame)
    requires Numbered(frames, |frames|) && WellTimed(batches, |frames|)
    requires 3 < t && t + 1 < |batches| && Cursor(t) < |frames|
    requires Refilling(s, frames[Cursor(t)].number)
    ensures (exists j | j in batches[t + 1] :: f == frames[j]) && !Stale(s, f.number) <==>
            exists j: nat | j < |frames| ::
              Cursor(t) <= j <= Cursor(t) + 3 && j in batches[t + 1] && f == frames[j]
  {
    if j :| j in batches[t + 1] && f == frames[j] {
      assert j < t + 1 < j + 53;
      assert Stale(s, f.number) <==> j < Cursor(t);
    }
  }

  /** The slot after the buffer went back to filling, on a stream steady until then: it
      plays the first of frames k to k + 3 if its own batch brings at least three of
      them, and conceals otherwise. */
  lemma AfterRebuild(frames: seq<Frame>, batches: seq<seq<nat>>, t: nat)
    requires Numbered(frames, |frames|) && WellTimed(batches, |frames|)
    requires 3 < t && t + 1 < |batches| && Cursor(t) < |frames|
    requires Steady(batches, t) && !Bridged(batches, Cursor(t))
    ensures var held := FourFrom(frames, batches[t + 1], Cursor(t));
            var a := SlotAction(frames, batches, t + 1);
            if |held| >= 3 then a == Play(held[0]) else a.Conceal?
  {
    hide Holds, OnTrack, PushAll, FourFrom, Refilling, Tick, ConcealSlot, Numbered, Bridged, Steady;
    EverySlot(frames, |frames|, batches, t);
    var s := AtSlot(frames, batches, t);
    UnbridgedRefills(s, frames, batches, t);
    RefillBatch(Tick(s).0, frames, batches, t);
    assert Before(frames, batches, t + 1) == Tick(s).0;
    RefilledSlot(Tick(s).0, frames[Cursor(t)].number, FourFrom(frames, batches[t + 1], Cursor(t)));
  }

  lemma RefilledSlot(s: State, expected: U32, held: seq<Frame>)
    requires Refilling(s, expected)
    ensures var a := Tick(s.(pending := held)).1;
            if |held| >= 3 then a == Play(held[0]) else a.Conceal?
  {
  }

  /** Exactly when frame k + 1 still plays in its own slot after an unbridged frame k:
      when it comes together with both frames after it, and k does not come with them. */
  lemma NextFrameInItsSlot(frames: seq<Frame>, batches: seq<seq<nat>>, t: nat)
    requires Numbered(frames, |frames|) && WellTimed(batches, |frames|)
    requires 3 < t && t + 1 < |batches| && Cursor(t) + 1 < |frames|
    requires Steady(batches, t) && !Bridged(batches, Cursor(t))
    ensures var k, batch := Cursor(t), batches[t + 1];
            SlotAction(frames, batches, t + 1) == Play(frames[k + 1]) <==>
            k !in batch && k + 1 in batch && k + 2 in batch && k + 3 in batch
  {
    hide Bridged, Steady, SlotAction;
    AfterRebuild(frames, batches, t);
    var k := Cursor(t);
    assert frames[k].number != frames[k + 1].number;
    FourHead(frames, batches[t + 1], k);
  }

  lemma FourHead(frames: seq<Frame>, batch: seq<nat>, k: nat)
    requires Numbered(frames, |frames|) && k + 1 < |frames| && forall j | j in batch :: j < |frames|
    ensures var held := FourFrom(frames, batch, k);
            |held| >= 3 && held[0] == frames[k + 1] <==>
            k !in batch && k + 1 in batch && k + 2 in batch && k + 3 in batch
  {
    assert frames[k].number < frames[k + 1].number;
    assert k + 2 < |frames| ==> frames[k + 1].number < frames[k + 2].number;
  }

  /** One loss is enough: frame 1 is lost and every other frame comes just in time; slot
      4 has nothing to show that frame 1 is lost, and slot 5 conceals although frame 2
      is there. */
  lemma OneLossRebuilds(frames: seq<Frame>)
    requires |frames| == 5 && Numbered(frames, 5)
    ensures var batches := [[], [], [], [0], [], [2], [3], [4]];
            && WellTimed(batches, 5)
            && (forall k: nat | k < 5 && k != 1 :: InTime(batches, k))
            && SlotAction(frames, batches, 5).Conceal?
  {
    var batches: seq<seq<nat>> := [[], [], [], [0], [], [2], [3], [4]];
    assert 0 in batches[3] && 2 in batches[5] && 3 in batches[6] && 4 in batches[7];
    NotThereYet(batches);
    assert FourFrom(frames, batches[5], 1) == [frames[2]];
    hide Numbered, WellTimed, InTime, Bridged, SlotAction, FourFrom;
    AfterRebuild(frames, batches, 4);
  }

  lemma NotThereYet(batches: seq<seq<nat>>)
    requires batches == [[], [], [], [0], [], [2], [3], [4]]
    ensures !Bridged(batches, 1) && Steady(batches, 4)
  {
    assert 0 in batches[3];
  }
}
