/**
 Bounded-jitter delivery.  A sender emits frame k after slot k; each frame reaches
 a fresh buffer in time for slot k + 3, in any order, possibly more than once, or
 is lost.  As long as each frame not in time finds one of the two after it already
 there, slot k + 3 plays frame k, for every k and any stream length, and conceals
 exactly the slots whose frame was lost.  What happens at the first frame for which
 neither is there is in JitterRebuild.dfy.
 */
module JitterDelivery {
  import opened Machine
  import opened JitterModel
  import opened JitterOrder

  /** The first `n` frames carry consecutive numbers, so none of them has wrapped. */
  ghost predicate Numbered(frames: seq<Frame>, n: nat) {
    n <= |frames| && forall k | 0 <= k < n :: frames[k].number == frames[0].number + k
  }

  /** `batches[t]` lists the frames that arrive between slots t - 1 and t.  A frame
      never arrives before it is sent, nor so late that it reads as a restart. */
  predicate WellTimed(batches: seq<seq<nat>>, n: nat) {
    forall t, k | 0 <= t < |batches| && k in batches[t] ::
      k < n && k < t < k + 53
  }

  predicate ArrivedBy(batches: seq<seq<nat>>, k: nat, t: nat) {
    exists u | 0 <= u < |batches| && u <= t :: k in batches[u]
  }

  /** Frame k is there when its own slot comes. */
  predicate InTime(batches: seq<seq<nat>>, k: nat) {
    ArrivedBy(batches, k, k + 3)
  }

  /** Frame k is in time, or one of the two after it is already there to show it is lost. */
  predicate Bridged(batches: seq<seq<nat>>, k: nat) {
    || InTime(batches, k)
    || ArrivedBy(batches, k + 1, k + 3)
    || ArrivedBy(batches, k + 2, k + 3)
  }

  /** Up to slot t the stream has started on its first frame, and every frame not in time
      was bridged.  A single loss is not, when neither frame after it comes early. */
  predicate Steady(batches: seq<seq<nat>>, t: nat) {
    && (t > 3 ==> InTime(batches, 0))
    && (forall k: nat | k + 3 < t :: Bridged(batches, k))
  }

  function Pick(frames: seq<Frame>, batch: seq<nat>): seq<Frame>
    requires forall k | k in batch :: k < |frames|
  {
    if batch == [] then []
    else
      assert batch[0] in batch && forall k | k in batch[1..] :: k in batch;
      [frames[batch[0]]] + Pick(frames, batch[1..])
  }

  function Before(frames: seq<Frame>, batches: seq<seq<nat>>, t: nat): State
    requires t <= |batches| && WellTimed(batches, |frames|)
    decreases t, 0
  {
    if t == 0 then FRESH else Tick(AtSlot(frames, batches, t - 1)).0
  }

  /** The buffer as slot t finds it. */
  function AtSlot(frames: seq<Frame>, batches: seq<seq<nat>>, t: nat): State
    requires t < |batches| && WellTimed(batches, |frames|)
    decreases t, 1
  {
    PushAll(Before(frames, batches, t), Pick(frames, batches[t]))
  }

  function SlotAction(frames: seq<Frame>, batches: seq<seq<nat>>, t: nat): Action
    requires t < |batches| && WellTimed(batches, |frames|)
  {
    Tick(AtSlot(frames, batches, t)).1
  }

  /** The frame whose turn slot t is. */
  function Cursor(t: nat): nat {
    if t <= 3 then 0 else t - 3
  }

  /** The last frame before k that was played. */
  function LastPlayed(batches: seq<seq<nat>>, k: nat): (l: nat)
    ensures k > 0 ==> l < k
  {
    if k <= 1 then 0 else if InTime(batches, k - 1) then k - 1 else LastPlayed(batches, k - 1)
  }

  // ----- What the buffer holds

  /** Exactly the frames from `lo` on that have arrived by slot t. */
  ghost predicate Holds(p: seq<Frame>, frames: seq<Frame>, batches: seq<seq<nat>>, lo: nat, t: int) {
    forall f :: f in p <==>
      exists j: nat | j < |frames| :: lo <= j && t >= 0 && ArrivedBy(batches, j, t) && f == frames[j]
  }

  lemma {:induction false} PickMembers(frames: seq<Frame>, batch: seq<nat>, f: Frame)
    requires forall k | k in batch :: k < |frames|
    ensures f in Pick(frames, batch) <==> exists k | k in batch :: f == frames[k]
  {
    if batch != [] {
      assert batch == [batch[0]] + batch[1..];
      assert forall k | k in batch[1..] :: k in batch;
      PickMembers(frames, batch[1..], f);
    }
  }

  lemma {:induction false} SortedSpan(p: seq<Frame>, lo: int, n: nat)
    requires Sorted(p) && forall i | 0 <= i < |p| :: lo <= p[i].number < lo + n
    ensures |p| <= n
    decreases n
  {
    if p != [] {
      var q := p[..|p| - 1];
      assert forall i | 0 <= i < |q| :: q[i] == p[i] && p[i].number < p[|p| - 1].number;
      assert lo <= p[0].number < lo + n;
      SortedSpan(q, lo, n - 1);
    }
  }

  /** Everything the buffer can hold at slot t was sent in the last three slots. */
  lemma HeldSpan(p: seq<Frame>, frames: seq<Frame>, n: nat, batches: seq<seq<nat>>, t: nat)
    requires Numbered(frames, n) && WellTimed(batches, n) && n > 0
    requires Holds(p, frames, batches, Cursor(t), t) && Sorted(p)
    ensures forall i | 0 <= i < |p| ::
      frames[0].number + Cursor(t) <= p[i].number < frames[0].number + Cursor(t) + 3
    ensures |p| <= 3
    ensures |p| <= t
  {
    var lo := frames[0].number + Cursor(t);
    forall i | 0 <= i < |p| ensures lo <= p[i].number < lo + 3 && p[i].number < frames[0].number + t {
      var j := HeldIndex(p, p[i], frames, n, batches, t);
    }
    SortedSpan(p, lo, 3);
    if t <= 3 { SortedSpan(p, lo, t); }
  }

  lemma HeldIndex(p: seq<Frame>, f: Frame, frames: seq<Frame>, n: nat, batches: seq<seq<nat>>, t: nat)
      returns (j: nat)
    requires Numbered(frames, n) && WellTimed(batches, n)
    requires Holds(p, frames, batches, Cursor(t), t) && f in p
    ensures j < n && Cursor(t) <= j < t && ArrivedBy(batches, j, t) && f == frames[j]
    ensures f.number == frames[0].number + j
  {
    j :| j < |frames| && Cursor(t) <= j && ArrivedBy(batches, j, t) && f == frames[j];
    var u :| 0 <= u < |batches| && u <= t && j in batches[u];
  }

  /** The frame whose turn it is sits at the head, if it has arrived. */
  lemma HeadIsCursor(p: seq<Frame>, frames: seq<Frame>, n: nat, batches: seq<seq<nat>>, t: nat)
    requires Numbered(frames, n) && WellTimed(batches, n) && Cursor(t) < n
    requires Holds(p, frames, batches, Cursor(t), t) && Sorted(p)
    ensures ArrivedBy(batches, Cursor(t), t) ==> p != [] && p[0] == frames[Cursor(t)]
    ensures !ArrivedBy(batches, Cursor(t), t) && p != [] ==> p[0].number > frames[Cursor(t)].number
  {
    HeldSpan(p, frames, n, batches, t);
    if ArrivedBy(batches, Cursor(t), t) {
      var f := frames[Cursor(t)];
      assert f in p;
      var i :| 0 <= i < |p| && p[i] == f;
      assert p[0].number <= p[i].number;
    } else if p != [] {
      var j := HeldIndex(p, p[0], frames, n, batches, t);
    }
  }

  // ----- The state each slot finds

  /** Bookkeeping between slots t - 1 and t; the frames held are stated apart. */
  ghost predicate OnTrack(s: State, frames: seq<Frame>, batches: seq<seq<nat>>, t: nat)
    requires Cursor(t) < |frames|
  {
    if t <= 3 then
      s.nextSeq.None? && s.buffering && s.fillTicks == t && s.streak == 0
    else
      var k := Cursor(t);
      var l := LastPlayed(batches, k);
      && !s.buffering && s.fillTicks == 0
      && s.nextSeq == Some(frames[k].number)
      && s.nextPtsUs == SaturatingAdd(frames[l].ptsUs, (k - l) * 20_000)
      // Two slots concealed in a row are followed by a frame already held.
      && s.streak <= 2
      && (s.streak == 1 ==> ArrivedBy(batches, k, t - 1) || ArrivedBy(batches, k + 1, t - 1))
      && (s.streak == 2 ==> ArrivedBy(batches, k, t - 1))
  }

  lemma ArrivedLater(batches: seq<seq<nat>>, j: nat, t: nat, t': nat)
    requires t <= t' && ArrivedBy(batches, j, t)
    ensures ArrivedBy(batches, j, t')
  {
  }

  /** A batch adds the frames it brings that are not behind the cursor. */
  lemma BatchArrives(s: State, frames: seq<Frame>, n: nat, batches: seq<seq<nat>>, t: nat)
    requires Numbered(frames, n) && WellTimed(batches, n) && t < |batches| && Cursor(t) < n
    requires OnTrack(s, frames, batches, t)
    requires Sorted(s.pending) && Holds(s.pending, frames, batches, Cursor(t), t - 1)
    ensures var s' := PushAll(s, Pick(frames, batches[t]));
            && s' == s.(pending := s'.pending)
            && Sorted(s'.pending) && Holds(s'.pending, frames, batches, Cursor(t), t)
  {
    var fs := Pick(frames, batches[t]);
    PickConsistent(frames, n, batches[t]);
    HeldBefore(s.pending, frames, n, batches, t);
    var all := BatchKeepsTheNewest(s, fs);
    forall f ensures f in all <==>
      exists j: nat | j < |frames| :: Cursor(t) <= j && ArrivedBy(batches, j, t) && f == frames[j]
    {
      BatchMember(s, frames, n, batches, t, f);
    }
    HeldSpan(all, frames, n, batches, t);
    assert Newest(all) == all;
  }

  lemma PickConsistent(frames: seq<Frame>, n: nat, batch: seq<nat>)
    requires Numbered(frames, n) && forall k | k in batch :: k < n
    ensures Consistent(Pick(frames, batch))
  {
    var fs := Pick(frames, batch);
    forall f, g | f in fs && g in fs && f.number == g.number ensures f == g {
      PickMembers(frames, batch, f);
      PickMembers(frames, batch, g);
    }
  }

  lemma HeldBefore(p: seq<Frame>, frames: seq<Frame>, n: nat, batches: seq<seq<nat>>, t: nat)
    requires Numbered(frames, n) && WellTimed(batches, n) && n > 0
    requires Sorted(p) && Holds(p, frames, batches, Cursor(t), t - 1)
    ensures |p| <= 3
  {
    var lo := frames[0].number + Cursor(t);
    forall i | 0 <= i < |p| ensures lo <= p[i].number < lo + 3 {
      assert p[i] in p;
      var j: nat :| j < |frames| && Cursor(t) <= j && t - 1 >= 0 && ArrivedBy(batches, j, t - 1) && p[i] == frames[j];
      var u :| 0 <= u < |batches| && u <= t - 1 && j in batches[u];
    }
    SortedSpan(p, lo, 3);
  }

  lemma BatchMember(s: State, frames: seq<Frame>, n: nat, batches: seq<seq<nat>>, t: nat, f: Frame)
    requires Numbered(frames, n) && WellTimed(batches, n) && t < |batches| && Cursor(t) < n
    requires OnTrack(s, frames, batches, t)
    requires Holds(s.pending, frames, batches, Cursor(t), t - 1)
    ensures HeldOrTaken(s, Pick(frames, batches[t]), f) <==>
            exists j: nat | j < |frames| :: Cursor(t) <= j && ArrivedBy(batches, j, t) && f == frames[j]
  {
    hide HeldOrTaken, Holds, OnTrack;
    if HeldOrTaken(s, Pick(frames, batches[t]), f) {
      var j := BatchIndex(s, frames, n, batches, t, f);
    }
    if j: nat :| j < |frames| && Cursor(t) <= j && ArrivedBy(batches, j, t) && f == frames[j] {
      BatchHolds(s, frames, n, batches, t, j);
    }
  }

  /** Held before the batch, or in the batch and taken from it. */
  ghost predicate HeldOrTaken(s: State, fs: seq<Frame>, f: Frame) {
    f in s.pending || (f in fs && !Stale(s, f.number) && !Buffered(s.pending, f.number))
  }

  lemma BatchIndex(s: State, frames: seq<Frame>, n: nat, batches: seq<seq<nat>>, t: nat, f: Frame) returns (j: nat)
    requires Numbered(frames, n) && WellTimed(batches, n) && t < |batches| && Cursor(t) < n
    requires OnTrack(s, frames, batches, t) && Holds(s.pending, frames, batches, Cursor(t), t - 1)
    requires HeldOrTaken(s, Pick(frames, batches[t]), f)
    ensures j < |frames| && Cursor(t) <= j && ArrivedBy(batches, j, t) && f == frames[j]
  {
    if f in s.pending {
      j :| j < |frames| && Cursor(t) <= j && t - 1 >= 0 && ArrivedBy(batches, j, t - 1) && f == frames[j];
      ArrivedLater(batches, j, t - 1, t);
    } else {
      PickMembers(frames, batches[t], f);
      j :| j in batches[t] && f == frames[j];
      assert ArrivedBy(batches, j, t);
      assert !Stale(s, f.number) ==> Cursor(t) <= j;
    }
  }

  lemma BatchHolds(s: State, frames: seq<Frame>, n: nat, batches: seq<seq<nat>>, t: nat, j: nat)
    requires Numbered(frames, n) && WellTimed(batches, n) && t < |batches| && Cursor(t) < n
    requires OnTrack(s, frames, batches, t) && Holds(s.pending, frames, batches, Cursor(t), t - 1)
    requires j < |frames| && Cursor(t) <= j && ArrivedBy(batches, j, t)
    ensures HeldOrTaken(s, Pick(frames, batches[t]), frames[j])
  {
    hide OnTrack, Stale, Numbered, WellTimed;
    var u :| 0 <= u < |batches| && u <= t && j in batches[u];
    if u < t {
      ArrivedSince(batches, j, u, t - 1);
      assert t - 1 >= 0;
      assert frames[j] in s.pending;
    } else {
      NowTaken(s, frames, n, batches, t, j);
    }
  }

  lemma NowTaken(s: State, frames: seq<Frame>, n: nat, batches: seq<seq<nat>>, t: nat, j: nat)
    requires Numbered(frames, n) && WellTimed(batches, n) && t < |batches| && Cursor(t) < n
    requires OnTrack(s, frames, batches, t) && Holds(s.pending, frames, batches, Cursor(t), t - 1)
    requires j < |frames| && Cursor(t) <= j && j in batches[t]
    ensures HeldOrTaken(s, Pick(frames, batches[t]), frames[j])
  {
    NotStale(s, frames, n, batches, t, j);
    hide OnTrack, Stale;
    PickMembers(frames, batches[t], frames[j]);
    if Buffered(s.pending, frames[j].number) { HeldIsSame(s.pending, frames, n, batches, t, frames[j]); }
  }

  lemma NotStale(s: State, frames: seq<Frame>, n: nat, batches: seq<seq<nat>>, t: nat, j: nat)
    requires Numbered(frames, n) && WellTimed(batches, n) && t < |batches| && Cursor(t) < n
    requires OnTrack(s, frames, batches, t)
    requires j < |frames| && Cursor(t) <= j && j in batches[t]
    ensures !Stale(s, frames[j].number)
  {
  }

  lemma ArrivedSince(batches: seq<seq<nat>>, j: nat, u: nat, t: nat)
    requires u < |batches| && u <= t && j in batches[u]
    ensures ArrivedBy(batches, j, t)
  {
  }

  /** A number that is held is held as the stream's own frame. */
  lemma HeldIsSame(p: seq<Frame>, frames: seq<Frame>, n: nat, batches: seq<seq<nat>>, t: nat, f: Frame)
    requires Numbered(frames, n) && WellTimed(batches, n)
    requires Holds(p, frames, batches, Cursor(t), t - 1)
    requires Buffered(p, f.number) && exists k: nat | k < n :: f == frames[k]
    ensures f in p
  {
    var g :| g in p && g.number == f.number;
    var j: nat :| j < |frames| && Cursor(t) <= j && t - 1 >= 0 && ArrivedBy(batches, j, t - 1) && g == frames[j];
    var u :| 0 <= u < |batches| && u <= t - 1 && j in batches[u];
  }

  /** Playing or giving up on frame k leaves exactly the frames after it. */
  lemma CursorMoves(p: seq<Frame>, frames: seq<Frame>, n: nat, batches: seq<seq<nat>>, t: nat)
    requires Numbered(frames, n) && WellTimed(batches, n) && t >= 3 && Cursor(t) < n
    requires Sorted(p) && Holds(p, frames, batches, Cursor(t), t)
    ensures ArrivedBy(batches, Cursor(t), t) ==>
              p != [] && Holds(p[1..], frames, batches, Cursor(t) + 1, t)
    ensures !ArrivedBy(batches, Cursor(t), t) ==> Holds(p, frames, batches, Cursor(t) + 1, t)
  {
    HeadIsCursor(p, frames, n, batches, t);
    var k := Cursor(t);
    if ArrivedBy(batches, k, t) {
      forall f ensures f in p[1..] <==>
        exists j: nat | j < |frames| :: k + 1 <= j && t >= 0 && ArrivedBy(batches, j, t) && f == frames[j]
      {
        assert p == [p[0]] + p[1..];
        if f in p[1..] {
          var i :| 0 <= i < |p[1..]| && p[1..][i] == f;
          assert f == p[i + 1] && f.number > p[0].number;
          var j := HeldIndex(p, f, frames, n, batches, t);
        }
        if exists j: nat | j < |frames| :: k + 1 <= j && t >= 0 && ArrivedBy(batches, j, t) && f == frames[j] {
          var j: nat :| j < |frames| && k + 1 <= j && t >= 0 && ArrivedBy(batches, j, t) && f == frames[j];
          assert f in p;
          var u :| 0 <= u < |batches| && u <= t && j in batches[u];
          assert f.number > p[0].number;
        }
      }
    }
  }

  /** The state slot t finds, for every slot of the run. */
  lemma {:induction false} EverySlot(frames: seq<Frame>, n: nat, batches: seq<seq<nat>>, t: nat)
    requires Numbered(frames, n) && WellTimed(batches, n)
    requires t < |batches| && Cursor(t) < n && Steady(batches, t)
    ensures var s := AtSlot(frames, batches, t);
            && OnTrack(s, frames, batches, t)
            && Sorted(s.pending) && Holds(s.pending, frames, batches, Cursor(t), t)
    decreases t
  {
    if t > 0 {
      EverySlot(frames, n, batches, t - 1);
      NextSlot(AtSlot(frames, batches, t - 1), frames, n, batches, t - 1);
    }
    BatchArrives(Before(frames, batches, t), frames, n, batches, t);
  }

  lemma NextSlot(s: State, frames: seq<Frame>, n: nat, batches: seq<seq<nat>>, t: nat)
    requires Numbered(frames, n) && WellTimed(batches, n)
    requires Cursor(t) < n && Cursor(t + 1) < n && Steady(batches, t + 1)
    requires OnTrack(s, frames, batches, t)
    requires Sorted(s.pending) && Holds(s.pending, frames, batches, Cursor(t), t)
    ensures var s' := Tick(s).0;
            && OnTrack(s', frames, batches, t + 1)
            && Sorted(s'.pending) && Holds(s'.pending, frames, batches, Cursor(t + 1), t)
  {
    SlotOutcome(s, frames, n, batches, t);
    if t >= 3 { CursorMoves(s.pending, frames, n, batches, t); }
  }

  /** What the slot does, and the bookkeeping it leaves. */
  lemma SlotOutcome(s: State, frames: seq<Frame>, n: nat, batches: seq<seq<nat>>, t: nat)
    requires Numbered(frames, n) && WellTimed(batches, n) && Cursor(t) < n
    requires t >= 3 ==> Bridged(batches, Cursor(t))
    requires t == 3 ==> InTime(batches, 0)
    requires OnTrack(s, frames, batches, t)
    requires Sorted(s.pending) && Holds(s.pending, frames, batches, Cursor(t), t)
    ensures t < 3 ==> Tick(s) == (s.(fillTicks := t + 1), Idle)
    ensures t >= 3 && InTime(batches, Cursor(t)) ==>
              && s.pending != [] && Tick(s) == PlayFirst(s.(buffering := false, fillTicks := 0))
              && Tick(s).1 == Play(frames[Cursor(t)])
    ensures t >= 3 && !InTime(batches, Cursor(t)) ==>
              Tick(s) == ConcealSlot(s, true) && Tick(s).1 == Conceal(s.nextPtsUs)
    ensures Cursor(t + 1) < n ==> OnTrack(Tick(s).0, frames, batches, t + 1)
  {
    HeldSpan(s.pending, frames, n, batches, t);
    HeadIsCursor(s.pending, frames, n, batches, t);
    var k := Cursor(t);
    if t >= 3 && !InTime(batches, k) {
      LostIsBridged(s.pending, frames, n, batches, t);
      assert t > 3;
      assert LastPlayed(batches, k + 1) == LastPlayed(batches, k);
      var l := LastPlayed(batches, k);
      assert (k + 1 - l) * 20_000 == (k - l) * 20_000 + 20_000;
    } else if t >= 3 {
      assert LastPlayed(batches, k + 1) == k;
    }
  }

  lemma LostIsBridged(p: seq<Frame>, frames: seq<Frame>, n: nat, batches: seq<seq<nat>>, t: nat)
    requires Numbered(frames, n) && WellTimed(batches, n) && t >= 3 && Cursor(t) < n
    requires Bridged(batches, Cursor(t)) && !InTime(batches, Cursor(t))
    requires Sorted(p) && Holds(p, frames, batches, Cursor(t), t)
    ensures p != []
    ensures ArrivedBy(batches, Cursor(t) + 1, t) || ArrivedBy(batches, Cursor(t) + 2, t)
  {
    var k := Cursor(t);
    var j := if ArrivedBy(batches, k + 1, t) then k + 1 else k + 2;
    assert ArrivedBy(batches, j, t);
    var u :| 0 <= u < |batches| && u <= t && j in batches[u];
    assert frames[j] in p;
  }

  /** What slot t should do: wait for the cushion, then play frame t - 3, or, when
      that frame did not come, conceal with the time it would have had, counted
      from the last frame that did. */
  function Expected(frames: seq<Frame>, batches: seq<seq<nat>>, t: nat): Action
    requires Cursor(t) < |frames|
  {
    if t < 3 then Idle
    else
      var k := Cursor(t);
      if InTime(batches, k) then Play(frames[k])
      else
        var l := LastPlayed(batches, k);
        Conceal(SaturatingAdd(frames[l].ptsUs, (if l < k then k - l else 0) * 20_000))
  }

  /** Whatever is held at slot t is frame k or one of the two after it. */
  lemma HeldBridges(p: seq<Frame>, frames: seq<Frame>, n: nat, batches: seq<seq<nat>>, t: nat)
    requires Numbered(frames, n) && WellTimed(batches, n) && t > 3 && Cursor(t) < n
    requires Holds(p, frames, batches, Cursor(t), t) && p != []
    ensures Bridged(batches, Cursor(t))
  {
    var j := HeldIndex(p, p[0], frames, n, batches, t);
    assert j == Cursor(t) || j == Cursor(t) + 1 || j == Cursor(t) + 2;
  }

  /** A frame neither in time nor bridged leaves nothing to play: the slot conceals
      with the time it would have had, and the buffer goes back to filling. */
  lemma UnbridgedSlot(s: State, frames: seq<Frame>, n: nat, batches: seq<seq<nat>>, t: nat)
    requires Numbered(frames, n) && WellTimed(batches, n) && t > 3 && Cursor(t) < n
    requires !Bridged(batches, Cursor(t)) && OnTrack(s, frames, batches, t)
    requires Sorted(s.pending) && Holds(s.pending, frames, batches, Cursor(t), t)
    ensures s.pending == [] && Tick(s) == ConcealSlot(s.(buffering := true), false)
    ensures Tick(s).1 == Conceal(s.nextPtsUs) && Tick(s).0.buffering
  {
    if s.pending != [] {
      HeldBridges(s.pending, frames, n, batches, t);
    }
  }

  /** The delivery theorem: as long as every frame before k was in time or bridged,
      slot k + 3 plays frame k when it came in time, and otherwise conceals with the
      time frame k would have had.  The three slots before the first frame are silent. */
  lemma Delivery(frames: seq<Frame>, batches: seq<seq<nat>>, t: nat)
    requires Numbered(frames, |frames|) && WellTimed(batches, |frames|)
    requires |frames| > 0 && t < |batches| <= |frames| + 3
    requires Steady(batches, t) && (t >= 3 ==> InTime(batches, 0))
    ensures SlotAction(frames, batches, t) == Expected(frames, batches, t)
    ensures t > 3 ==> InTime(batches, LastPlayed(batches, t - 3))
  {
    EverySlot(frames, |frames|, batches, t);
    SlotReport(AtSlot(frames, batches, t), frames, batches, t);
  }

  lemma SlotReport(s: State, frames: seq<Frame>, batches: seq<seq<nat>>, t: nat)
    requires Numbered(frames, |frames|) && WellTimed(batches, |frames|) && Cursor(t) < |frames|
    requires t >= 3 ==> InTime(batches, 0)
    requires OnTrack(s, frames, batches, t)
    requires Sorted(s.pending) && Holds(s.pending, frames, batches, Cursor(t), t)
    ensures Tick(s).1 == Expected(frames, batches, t)
    ensures t > 3 ==>
      InTime(batches, LastPlayed(batches, t - 3))
  {
    if t >= 3 && !Bridged(batches, Cursor(t)) {
      UnbridgedSlot(s, frames, |frames|, batches, t);
    } else {
      SlotOutcome(s, frames, |frames|, batches, t);
    }
    if t > 3 {
      LastPlayedWasInTime(batches, t - 3);
    }
  }

  lemma {:induction false} LastPlayedWasInTime(batches: seq<seq<nat>>, k: nat)
    requires InTime(batches, 0)
    ensures InTime(batches, LastPlayed(batches, k))
  {
    if k > 1 && !InTime(batches, k - 1) { LastPlayedWasInTime(batches, k - 1); }
  }

  // ----- With no loss at all

  /** A stream's numbers, wrapping at the end of the number space. */
  predicate Consecutive(frames: seq<Frame>) {
    frames != [] && forall k | 0 <= k < |frames| :: frames[k].number == (frames[0].number + k) % U32_LIMIT
  }

  /** Every frame comes in time for its slot, in a schedule as long as the stream. */
  predicate LossFree(batches: seq<seq<nat>>, n: nat) {
    && WellTimed(batches, n) && |batches| == n + 3
    && forall k: nat | k < n :: InTime(batches, k)
  }

  /** Slot k + 3 plays frame k for every k, and nothing is ever concealed. */
  predicate PlaysThrough(frames: seq<Frame>, batches: seq<seq<nat>>)
    requires LossFree(batches, |frames|)
  {
    forall t: nat | t < |batches| ::
      SlotAction(frames, batches, t) == if t < 3 then Idle else Play(frames[t - 3])
  }

  lemma LossFreeDelivery(frames: seq<Frame>, batches: seq<seq<nat>>)
    requires frames != [] && Numbered(frames, |frames|) && LossFree(batches, |frames|)
    ensures PlaysThrough(frames, batches)
  {
    forall t: nat | t < |batches| ensures
      SlotAction(frames, batches, t) == if t < 3 then Idle else Play(frames[t - 3])
    {
      Delivery(frames, batches, t);
    }
  }

  /** Each frame just in time, except that frame w + 1 comes one slot early, with frame w. */
  function OneEarly(n: nat, w: nat): (batches: seq<seq<nat>>)
    ensures |batches| == n + 3
  {
    seq(n + 3, t => if t < 3 then [] else if t == w + 3 then [w, w + 1] else [t - 3])
  }

  lemma OneEarlyBatch(n: nat, w: nat, t: nat)
    requires t < n + 3
    ensures OneEarly(n, w)[t] ==
            if t < 3 then [] else if t == w + 3 then [w, w + 1] else [t - 3]
  {
  }

  lemma OneEarlyIsLossFree(n: nat, w: nat)
    requires w + 1 < n
    ensures LossFree(OneEarly(n, w), n)
  {
    var batches := OneEarly(n, w);
    forall k: nat | k < n ensures InTime(batches, k) {
      assert k in batches[k + 3];
    }
  }

  /** Slot t finds an otherwise empty buffer: still filling, or expecting frame t - 3. */
  predicate InStep(s: State, frames: seq<Frame>, t: nat) {
    && s.pending == [] && s.streak == 0
    && if t <= 3 then s.nextSeq.None? && s.buffering && s.fillTicks == t
       else t - 3 < |frames| && s.nextSeq == Some(frames[t - 3].number) && !s.buffering
  }

  /** Up to slot w + 3 each frame is played from an otherwise empty buffer. */
  lemma {:induction false} OneEarlyBefore(frames: seq<Frame>, w: nat, t: nat)
    requires w + 1 < |frames| && Numbered(frames, w + 1) && t <= w + 3
    requires WellTimed(OneEarly(|frames|, w), |frames|)
    ensures InStep(Before(frames, OneEarly(|frames|, w), t), frames, t)
    decreases t
  {
    if t == 0 {
      assert Before(frames, OneEarly(|frames|, w), 0) == FRESH;
    } else {
      hide Numbered, Tick, InStep, OneEarly, WellTimed, Push;
      OneEarlyBefore(frames, w, t - 1);
      OneEarlySlot(frames, w, t - 1);
      InStepSlot(Before(frames, OneEarly(|frames|, w), t - 1), frames, w, t - 1);
    }
  }

  lemma InStepSlot(s: State, frames: seq<Frame>, w: nat, t: nat)
    requires w + 1 < |frames| && Numbered(frames, w + 1) && t < w + 3 && InStep(s, frames, t)
    ensures InStep(Tick(if t < 3 then s else Push(s, frames[t - 3])).0, frames, t + 1)
  {
    hide Push, Tick, Numbered;
    if t < 3 {
      FillingSlot(s);
    } else {
      FirstIs(frames, w, t - 3);
      LoneSlot(s, frames[t - 3]);
    }
  }

  lemma FirstIs(frames: seq<Frame>, w: nat, k: nat)
    requires w + 1 < |frames| && Numbered(frames, w + 1) && k < w
    ensures frames[k].number + 1 == frames[k + 1].number
    ensures frames[k].number + 1 < U32_LIMIT
  {
  }

  /** What slot t of that schedule finds: the buffer before it, with at most one frame more. */
  lemma OneEarlySlot(frames: seq<Frame>, w: nat, t: nat)
    requires w + 1 < |frames| && t < w + 3
    requires WellTimed(OneEarly(|frames|, w), |frames|)
    ensures var batches := OneEarly(|frames|, w);
            var s := Before(frames, batches, t);
            AtSlot(frames, batches, t) == if t < 3 then s else Push(s, frames[t - 3])
  {
    OneEarlyBatch(|frames|, w, t);
    hide Push, Tick, Before, WellTimed, OneEarly;
    var batches := OneEarly(|frames|, w);
    if t < 3 {
      assert Pick(frames, []) == [];
    } else {
      var k := t - 3;
      assert [k][1..] == [] && Pick(frames, [k]) == [frames[k]] + Pick(frames, []);
      assert Pick(frames, [k]) == [frames[k]];
      PushOne(Before(frames, batches, t), frames[k]);
    }
  }

  lemma FillingSlot(s: State)
    requires s.pending == [] && s.nextSeq.None? && s.buffering && s.fillTicks < 3
    ensures Tick(s).0 == s.(fillTicks := s.fillTicks + 1)
  {
  }

  /** A frame whose turn it is, alone in the buffer, plays and leaves it empty. */
  lemma LoneSlot(s: State, f: Frame)
    requires s.pending == [] && s.streak == 0 && f.number + 1 < U32_LIMIT
    requires if s.nextSeq.None? then s.buffering && s.fillTicks == 3
             else s.nextSeq.value == f.number && !s.buffering
    ensures var s' := Tick(Push(s, f)).0;
            s'.pending == [] && s'.streak == 0 && !s'.buffering && s'.nextSeq == Some(f.number + 1)
  {
    assert Push(s, f) == s.(pending := [f]);
  }

  lemma PushOne(s: State, f: Frame)
    ensures PushAll(s, [f]) == Push(s, f)
  {
    assert [f][1..] == [];
  }

  lemma PickTwo(frames: seq<Frame>, a: nat, b: nat)
    requires a < |frames| && b < |frames|
    ensures Pick(frames, [a, b]) == [frames[a], frames[b]]
  {
    assert [b][1..] == [];
    assert Pick(frames, [b]) == [frames[b]];
    assert [a, b][1..] == [b];
  }

  /** The frame before the wrap is buffered, but the frame after it sorts first. */
  lemma WrapMisplays(frames: seq<Frame>, w: nat)
    requires w + 1 < |frames| && Numbered(frames, w + 1)
    requires frames[w].number == U32_LIMIT - 1 && frames[w + 1].number == 0
    ensures LossFree(OneEarly(|frames|, w), |frames|)
    ensures SlotAction(frames, OneEarly(|frames|, w), w + 3) != Play(frames[w])
  {
    OneEarlyIsLossFree(|frames|, w);
    hide Numbered, OneEarly, WellTimed, LossFree, Push, Tick, AtSlot, Before;
    OneEarlyBefore(frames, w, w + 3);
    var s := Before(frames, OneEarly(|frames|, w), w + 3);
    TwoAtOnce(frames, w);
    WrapSlot(s, frames[w], frames[w + 1]);
  }

  /** Slot w + 3 finds both frames pushed. */
  lemma TwoAtOnce(frames: seq<Frame>, w: nat)
    requires w + 1 < |frames| && WellTimed(OneEarly(|frames|, w), |frames|)
    ensures var batches, t := OneEarly(|frames|, w), w + 3;
            AtSlot(frames, batches, t) == Push(Push(Before(frames, batches, t), frames[w]), frames[w + 1])
  {
    hide Push, Tick, WellTimed, Before, OneEarly, Pick, PushAll;
    OneEarlyBatch(|frames|, w, w + 3);
    PickTwo(frames, w, w + 1);
    PushTwo(Before(frames, OneEarly(|frames|, w), w + 3), frames[w], frames[w + 1]);
  }

  lemma PushTwo(s: State, f: Frame, g: Frame)
    ensures PushAll(s, [f, g]) == Push(Push(s, f), g)
  {
    hide Push;
    assert [f, g][1..] == [g];
    PushOne(Push(s, f), g);
  }

  lemma WrapSlot(s: State, f: Frame, g: Frame)
    requires s.pending == [] && s.streak == 0 && f.number == U32_LIMIT - 1 && g.number == 0
    requires if s.nextSeq.None? then s.buffering && s.fillTicks == 3
             else s.nextSeq.value == f.number && !s.buffering
    ensures Tick(Push(Push(s, f), g)).1 != Play(f)
  {
    var s1 := Push(s, f);
    assert s1 == s.(pending := [f]);
    assert [f][..0] == [] && Insert([], g) == [g];
    assert Insert([f], g) == [g] + [f];
    assert !Stale(s1, g.number);
    assert Push(s1, g) == s.(pending := [g, f]);
  }

  /** A stream is delivered whole on every loss-free schedule exactly when its
      numbers do not wrap. */
  lemma DeliveredExactlyWithoutWrap(frames: seq<Frame>)
    requires Consecutive(frames)
    ensures (forall batches | LossFree(batches, |frames|) :: PlaysThrough(frames, batches)) <==>
            frames[0].number + |frames| <= U32_LIMIT
  {
    if frames[0].number + |frames| <= U32_LIMIT {
      forall batches | LossFree(batches, |frames|) ensures PlaysThrough(frames, batches) {
        LossFreeDelivery(frames, batches);
      }
    } else {
      var w := U32_LIMIT - 1 - frames[0].number;
      WrapMisplays(frames, w);
      var batches := OneEarly(|frames|, w);
      assert LossFree(batches, |frames|);
      assert !PlaysThrough(frames, batches);
    }
  }
}
