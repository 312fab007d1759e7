/**
 The order in which frames arrive between two slots does not matter, and neither
 does how often each one arrives, even when the buffer overflows and sheds.
 */
module JitterOrder {
  import opened Machine
  import opened JitterModel

  /** Insertion adds the frame exactly when its number is new. */
  lemma {:induction false} InsertMember(p: seq<Frame>, f: Frame, g: Frame)
    requires Sorted(p)
    ensures g in Insert(p, f) <==> g in p || (g == f && !Buffered(p, f.number))
  {
    if p != [] && p[|p| - 1].number > f.number {
      var init, last := p[..|p| - 1], p[|p| - 1];
      assert p == init + [last];
      InsertMember(init, f, g);
    } else if p != [] && p[|p| - 1].number < f.number {
      assert !Buffered(p, f.number);
    }
  }

  /** Insertion keeps the order. */
  lemma {:induction false} InsertSorted(p: seq<Frame>, f: Frame)
    requires Sorted(p)
    ensures Sorted(Insert(p, f))
  {
    if p != [] && p[|p| - 1].number > f.number {
      var init, last := p[..|p| - 1], p[|p| - 1];
      InsertSorted(init, f);
      var q := Insert(init, f);
      forall i | 0 <= i < |q| ensures q[i].number < last.number {
        InsertMember(init, f, q[i]);
        assert q[i] in q;
      }
    }
  }

  /** A sorted buffer is determined by the frames in it. */
  lemma {:induction false} SortedUnique(p: seq<Frame>, q: seq<Frame>)
    requires Sorted(p) && Sorted(q)
    requires forall f :: f in p <==> f in q
    ensures p == q
  {
    assert (p != [] ==> p[0] in p) && (q != [] ==> q[0] in q);
    if p != [] && q != [] {
      var a, b := p[|p| - 1], q[|q| - 1];
      assert a in q && b in p;
      assert a == b;
      var p', q' := p[..|p| - 1], q[..|q| - 1];
      assert p == p' + [a] && q == q' + [b];
      forall f ensures f in p' <==> f in q' {
        assert f in p' <==> f in p && f != a;
        assert f in q' <==> f in q && f != b;
      }
      SortedUnique(p', q');
    }
  }

  /** A number already held keeps the frame it has. */
  lemma InsertDuplicate(p: seq<Frame>, f: Frame)
    requires Sorted(p) && Buffered(p, f.number)
    ensures Insert(p, f) == p
  {
    InsertSorted(p, f);
    forall g ensures g in Insert(p, f) <==> g in p { InsertMember(p, f, g); }
    SortedUnique(Insert(p, f), p);
  }

  /** Inserting at or above `b`'s head touches only `b`. */
  lemma {:induction false} InsertHigh(a: seq<Frame>, b: seq<Frame>, f: Frame)
    requires b != [] && b[0].number <= f.number
    ensures Insert(a + b, f) == a + Insert(b, f)
    ensures |Insert(b, f)| >= |b|
  {
    var p, last := a + b, b[|b| - 1];
    assert p[|p| - 1] == last;
    if last.number > f.number {
      var b' := b[..|b| - 1];
      assert p[..|p| - 1] == a + b';
      InsertHigh(a, b', f);
    }
  }

  /** Inserting below `b`'s head touches only what comes before `b`. */
  lemma {:induction false} InsertLow(a: seq<Frame>, b: seq<Frame>, f: Frame)
    requires forall i | 0 <= i < |b| :: f.number < b[i].number
    ensures Insert(a + b, f) == Insert(a, f) + b
  {
    if b == [] {
      assert a + b == a;
    } else {
      var p, b' := a + b, b[..|b| - 1];
      assert p[..|p| - 1] == a + b';
      assert b == b' + [b[|b| - 1]];
      InsertLow(a, b', f);
    }
  }

  /** Shedding before an insertion loses nothing that shedding after it would keep. */
  lemma ShedThenInsert(p: seq<Frame>, f: Frame)
    requires Sorted(p)
    ensures Newest(Insert(Newest(p), f)) == Newest(Insert(p, f))
  {
    if |p| > 12 {
      var n := |p| - 12;
      ShedSplit(p[..n], p[n..], f);
      assert p == p[..n] + p[n..];
    }
  }

  lemma ShedSplit(a: seq<Frame>, b: seq<Frame>, f: Frame)
    requires Sorted(b) && |b| == 12
    ensures Newest(Insert(b, f)) == Newest(Insert(a + b, f))
  {
    if b[0].number <= f.number {
      InsertHigh(a, b, f);
      NewestOfSuffix(a, Insert(b, f));
    } else {
      InsertLow(a, b, f);
      InsertLow([], b, f);
      assert [] + b == b;
      NewestOfSuffix(Insert(a, f), b);
      NewestOfSuffix(Insert([], f), b);
    }
  }

  lemma NewestOfSuffix(a: seq<Frame>, b: seq<Frame>)
    requires |b| >= 12
    ensures Newest(a + b) == Newest(b)
  {
    var n := 12;
    assert (a + b)[|a + b| - n..] == b[|b| - n..];
    assert Newest(b) == b[|b| - n..];
  }

  function InsertAll(p: seq<Frame>, fs: seq<Frame>): seq<Frame>
    decreases |fs|
  {
    if fs == [] then p else InsertAll(Insert(p, fs[0]), fs[1..])
  }

  /** The arrivals that are not too late to be played. */
  function Playable(s: State, fs: seq<Frame>): seq<Frame> {
    if fs == [] then []
    else (if Stale(s, fs[0].number) then [] else [fs[0]]) + Playable(s, fs[1..])
  }

  /** Within a batch, one number never names two different frames. */
  predicate Consistent(fs: seq<Frame>) {
    forall f, g | f in fs && g in fs && f.number == g.number :: f == g
  }

  lemma {:induction false} PushAllIsInsertAll(s: State, p: seq<Frame>, fs: seq<Frame>)
    requires Sorted(p) && s.pending == Newest(p)
    ensures PushAll(s, fs) == s.(pending := Newest(InsertAll(p, Playable(s, fs))))
    decreases |fs|
  {
    if fs != [] {
      var f := fs[0];
      var s' := Push(s, f);
      forall n: U32 ensures Stale(s', n) == Stale(s, n) {}
      SamePlayable(s', s, fs[1..]);
      var rest := Playable(s, fs[1..]);
      if Stale(s, f.number) {
        assert Playable(s, fs) == rest;
        PushAllIsInsertAll(s, p, fs[1..]);
      } else {
        ShedThenInsert(p, f);
        InsertSorted(p, f);
        PushAllIsInsertAll(s', Insert(p, f), fs[1..]);
        assert Playable(s, fs) == [f] + rest;
        assert ([f] + rest)[1..] == rest;
      }
    }
  }

  lemma {:induction false} SamePlayable(s: State, t: State, fs: seq<Frame>)
    requires s.nextSeq == t.nextSeq
    ensures Playable(s, fs) == Playable(t, fs)
  {
    if fs != [] { SamePlayable(s, t, fs[1..]); }
  }

  lemma {:induction false} PlayableMembers(s: State, fs: seq<Frame>)
    ensures forall f :: f in Playable(s, fs) <==> f in fs && !Stale(s, f.number)
  {
    if fs != [] { PlayableMembers(s, fs[1..]); }
  }

  lemma {:induction false} InsertAllSorted(p: seq<Frame>, fs: seq<Frame>)
    requires Sorted(p)
    ensures Sorted(InsertAll(p, fs))
    decreases |fs|
  {
    if fs != [] {
      InsertSorted(p, fs[0]);
      InsertAllSorted(Insert(p, fs[0]), fs[1..]);
    }
  }

  /** What a batch adds: the frames whose number the buffer did not already hold. */
  lemma {:induction false} InsertAllMember(p: seq<Frame>, fs: seq<Frame>, g: Frame)
    requires Sorted(p)
    requires forall f | f in fs && f.number == g.number :: f == g
    ensures g in InsertAll(p, fs) <==> g in p || (g in fs && !Buffered(p, g.number))
    decreases |fs|
  {
    if fs != [] {
      var f, rest := fs[0], fs[1..];
      var p' := Insert(p, f);
      InsertSorted(p, f);
      InsertMember(p, f, g);
      assert fs == [f] + rest;
      InsertAllMember(p', rest, g);
      BufferedAfterInsert(p, f, g.number);
    }
  }

  lemma {:induction false} InsertAllFrom(p: seq<Frame>, fs: seq<Frame>, g: Frame)
    requires Sorted(p) && g in InsertAll(p, fs)
    ensures g in p || g in fs
    decreases |fs|
  {
    if fs != [] {
      InsertSorted(p, fs[0]);
      InsertMember(p, fs[0], g);
      InsertAllFrom(Insert(p, fs[0]), fs[1..], g);
    }
  }

  lemma {:induction false} InsertAllKeeps(p: seq<Frame>, fs: seq<Frame>, g: Frame)
    requires Sorted(p) && g in p
    ensures g in InsertAll(p, fs)
    decreases |fs|
  {
    if fs != [] {
      InsertSorted(p, fs[0]);
      InsertMember(p, fs[0], g);
      InsertAllKeeps(Insert(p, fs[0]), fs[1..], g);
    }
  }

  lemma BufferedAfterInsert(p: seq<Frame>, f: Frame, n: U32)
    requires Sorted(p)
    ensures Buffered(Insert(p, f), n) <==> Buffered(p, n) || f.number == n
  {
    if Buffered(p, n) {
      var h :| h in p && h.number == n;
      InsertMember(p, f, h);
    } else if f.number == n {
      InsertMember(p, f, f);
    } else {
      forall h | h in Insert(p, f) ensures h.number != n { InsertMember(p, f, h); }
    }
  }

  /** The whole state after a batch: the twelve highest-numbered frames of those
      held and those newly accepted, in order; nothing else moves. */
  lemma BatchKeepsTheNewest(s: State, fs: seq<Frame>) returns (all: seq<Frame>)
    requires Sorted(s.pending) && |s.pending| <= 12 && Consistent(fs)
    ensures Sorted(all)
    ensures forall f :: f in all <==>
      f in s.pending || (f in fs && !Stale(s, f.number) && !Buffered(s.pending, f.number))
    ensures PushAll(s, fs) == s.(pending := Newest(all))
  {
    var ok := Playable(s, fs);
    PlayableMembers(s, fs);
    PushAllIsInsertAll(s, s.pending, fs);
    InsertAllSorted(s.pending, ok);
    all := InsertAll(s.pending, ok);
    forall f ensures f in all <==>
      f in s.pending || (f in fs && !Stale(s, f.number) && !Buffered(s.pending, f.number))
    {
      if f in fs {
        InsertAllMember(s.pending, ok, f);
      } else if f in all {
        InsertAllFrom(s.pending, ok, f);
      } else if f in s.pending {
        InsertAllKeeps(s.pending, ok, f);
      }
    }
  }

  /** Two batches with the same frames leave the same state, whatever the order
      and however often each frame was repeated. */
  lemma ArrivalOrderIrrelevant(s: State, fs: seq<Frame>, gs: seq<Frame>)
    requires Sorted(s.pending) && |s.pending| <= 12
    requires Consistent(fs) && Consistent(gs)
    requires forall f :: f in fs <==> f in gs
    ensures PushAll(s, fs) == PushAll(s, gs)
  {
    var a := BatchKeepsTheNewest(s, fs);
    var b := BatchKeepsTheNewest(s, gs);
    SortedUnique(a, b);
  }
}
