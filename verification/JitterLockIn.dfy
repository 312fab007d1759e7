/**
 No lock-in to concealment.  Whatever state the buffer is in, a stream that arrives
 one frame per slot, in order, is played without a gap after a bounded number of
 slots, one frame per slot and always the same number of frames behind.
 */
module JitterLockIn {
  import opened Machine
  import opened JitterModel
  import opened JitterOrder
  import opened JitterRuns
  import opened JitterFates

  // ----- The stream and what it is to be locked on

  function OnePerSlot(fs: seq<Frame>): seq<Event> {
    if fs == [] then [] else [Arrive(fs[0]), Slot] + OnePerSlot(fs[1..])
  }

  /** Frames m, m + 1, ..., clear of the wrap. */
  predicate Streaming(fs: seq<Frame>, m: nat) {
    && m + |fs| + 50 < U32_LIMIT
    && forall i | 0 <= i < |fs| :: fs[i].number == m + i
  }

  /** From slot b on every slot plays, `lag` numbers behind the frame that just came. */
  ghost predicate Locked(acts: seq<Action>, b: nat, m: nat, lag: nat) {
    forall k | b <= k < |acts| :: acts[k].Play? && acts[k].frame.number + lag == m + k
  }

  function Next(s: State, f: Frame): (State, Action) {
    Tick(Push(s, f))
  }

  lemma OneSlot(s: State, fs: seq<Frame>, m: nat)
    requires fs != [] && Streaming(fs, m)
    ensures fs[0].number == m && Streaming(fs[1..], m + 1)
    ensures Actions(s, OnePerSlot(fs)) ==
            [Next(s, fs[0]).1] + Actions(Next(s, fs[0]).0, OnePerSlot(fs[1..]))
  {
    hide Tick, Push;
    var rest := OnePerSlot(fs[1..]);
    var events := [Arrive(fs[0]), Slot] + rest;
    assert events[1..] == [Slot] + rest && events[1..][1..] == rest;
    assert Actions(Push(s, fs[0]), events[1..]) == [Next(s, fs[0]).1] + Actions(Next(s, fs[0]).0, rest);
  }

  lemma LockedLater(a: Action, acts: seq<Action>, b: nat, m: nat, lag: nat)
    requires Locked(acts, b, m + 1, lag)
    ensures Locked([a] + acts, b + 1, m, lag)
    ensures a.Play? && a.frame.number + lag == m && b == 0 ==> Locked([a] + acts, 0, m, lag)
  {
    var all := [a] + acts;
    forall k | (if a.Play? && a.frame.number + lag == m && b == 0 then 0 else b + 1) <= k < |all|
      ensures all[k].Play? && all[k].frame.number + lag == m + k
    {
      if k > 0 { assert all[k] == acts[k - 1]; }
    }
  }

  lemma LockedSooner(acts: seq<Action>, b: nat, c: nat, m: nat, lag: nat)
    requires Locked(acts, b, m, lag) && b <= c
    ensures Locked(acts, c, m, lag)
  {
  }

  // ----- Counting what is held below a number

  function Below(p: seq<Frame>, x: nat): nat {
    if p == [] then 0 else Below(p[..|p| - 1], x) + if p[|p| - 1].number < x then 1 else 0
  }

  lemma {:induction false} BelowBounds(p: seq<Frame>, x: nat, y: nat)
    requires x <= y
    ensures Below(p, x) <= Below(p, y) <= |p|
  {
    if p != [] { BelowBounds(p[..|p| - 1], x, y); }
  }

  lemma {:induction false} BelowTail(p: seq<Frame>, x: nat)
    requires p != []
    ensures Below(p, x) == Below(p[1..], x) + if p[0].number < x then 1 else 0
  {
    if |p| > 1 {
      BelowTail(p[..|p| - 1], x);
      assert p[..|p| - 1][1..] == p[1..][..|p| - 2];
    }
  }

  lemma {:induction false} BelowInsert(p: seq<Frame>, f: Frame, x: nat)
    requires Sorted(p)
    ensures Below(Insert(p, f), x) == Below(p, x) + if f.number < x && !Buffered(p, f.number) then 1 else 0
  {
    if p != [] && p[|p| - 1].number > f.number {
      var init, last := p[..|p| - 1], p[|p| - 1];
      BelowInsert(init, f, x);
      assert Buffered(p, f.number) <==> Buffered(init, f.number) by { assert p == init + [last]; }
      var all := Insert(init, f) + [last];
      assert all[..|all| - 1] == Insert(init, f);
    } else if p != [] && p[|p| - 1].number == f.number {
      assert p[|p| - 1] in p;
    } else {
      assert (p + [f])[..|p|] == p;
      assert !Buffered(p, f.number) by { LastIsGreatest(p); }
    }
  }

  lemma LastIsGreatest(p: seq<Frame>)
    requires Sorted(p)
    ensures forall g | g in p :: g.number <= p[|p| - 1].number
  {
  }

  /** Only one frame can carry the number itself. */
  lemma {:induction false} BelowNext(p: seq<Frame>, x: nat)
    requires Sorted(p) && x < U32_LIMIT
    ensures Below(p, x + 1) == Below(p, x) + if Buffered(p, x) then 1 else 0
  {
    if p != [] {
      var init, last := p[..|p| - 1], p[|p| - 1];
      BelowNext(init, x);
      assert p == init + [last];
      if last.number == x { assert !Buffered(init, x); }
    }
  }

  /** Numbers held without a hole are at most as many as the frames held. */
  lemma {:induction false} SpanIsHeld(p: seq<Frame>, e: nat, m: nat)
    requires Sorted(p) && e <= m < U32_LIMIT && forall j: nat | e <= j < m :: Buffered(p, j)
    ensures m - e <= Below(p, m)
    decreases m
  {
    if e < m {
      SpanIsHeld(p, e, m - 1);
      BelowNext(p, m - 1);
      assert Buffered(p, m - 1);
    }
  }

  // ----- One slot of the stream

  const ROOM: nat := 11

  lemma Accepted(s: State, f: Frame)
    requires Sound(s) && |s.pending| <= ROOM && !Stale(s, f.number) && f.number + 50 < U32_LIMIT
    ensures Push(s, f) == s.(pending := Insert(s.pending, f)) && Sound(Push(s, f))
    ensures Buffered(Insert(s.pending, f), f.number)
    ensures forall g | g in Insert(s.pending, f) :: g in s.pending || g == f
  {
    PushKeepsSound(s, f);
    if Buffered(s.pending, f.number) { InsertDuplicate(s.pending, f); } else { InsertLonger(s.pending, f); }
    BufferedAfterInsert(s.pending, f, f.number);
    forall g | g in Insert(s.pending, f) ensures g in s.pending || g == f { InsertMember(s.pending, f, g); }
  }

  lemma HeadIsLeast(p: seq<Frame>)
    requires Sorted(p) && p != []
    ensures forall n | Buffered(p, n) :: p[0].number <= n
    ensures forall n :: Buffered(p[1..], n) <==> Buffered(p, n) && n != p[0].number
    ensures forall g | g in p[1..] :: p[0].number < g.number
  {
    forall g | g in p[1..] ensures g in p && p[0].number < g.number { TailMembers(p, g); }
    forall n ensures Buffered(p[1..], n) <==> Buffered(p, n) && n != p[0].number {
      if Buffered(p, n) && n != p[0].number {
        var g :| g in p && g.number == n;
        TailMembers(p, g);
      }
    }
    assert p[0] in p && (forall g | g in p :: g == p[0] || g in p[1..]) by { assert p == [p[0]] + p[1..]; }
  }

  predicate Played(s: State, s': State, a: Action) {
    && s.pending != [] && a == Play(s.pending[0]) && s'.pending == s.pending[1..]
    && s'.nextSeq == Some(s.pending[0].number + 1) && !s'.buffering && s'.streak == 0
  }

  /** One more slot of a cushion: the expected number stays. */
  predicate Refills(s: State, s': State) {
    && s.nextSeq.Some? && s'.nextSeq == s.nextSeq && s'.pending == s.pending && |s.pending| < 3
    && s.streak < 20 && s'.streak == s.streak + 1
    && (s.pending != [] ==> s.buffering && s.fillTicks < 3 && s'.fillTicks == s.fillTicks + 1)
  }

  /** The expected number is missing and is waited for no longer. */
  predicate GivesUp(s: State, s': State) {
    && s.nextSeq.Some? && !s.buffering && 0 < |s.pending| <= 3
    && s.pending[0].number > s.nextSeq.value && s'.nextSeq == Some(s.nextSeq.value + 1)
    && s.streak < 20 && s'.streak == s.streak + 1 && s'.pending == s.pending
  }

  predicate Spent(s: State) {
    s.streak == 20 && (!s.buffering ==> |s.pending| <= 3)
  }

  /** One more slot of the very first cushion. */
  predicate Fills(s: State, s': State) {
    && s'.nextSeq.None? && s'.pending == s.pending && |s.pending| < 3
    && (s.pending != [] ==> s.fillTicks < 3 && s'.fillTicks == s.fillTicks + 1)
  }

  /** What a slot can do to a sound state, by what it reports. */
  lemma SlotCases(s: State)
    requires Sound(s)
    ensures Sound(Tick(s).0)
    ensures Tick(s).1.Play? ==> Played(s, Tick(s).0, Tick(s).1)
    ensures Tick(s).1.Conceal? && Tick(s).0.buffering ==> Refills(s, Tick(s).0)
    ensures Tick(s).1.Conceal? && !Tick(s).0.buffering ==> GivesUp(s, Tick(s).0)
    ensures Tick(s).1.Idle? && s.nextSeq.Some? ==> Tick(s).0 == FRESH && Spent(s)
    ensures Tick(s).1.Idle? && s.nextSeq.None? ==> Fills(s, Tick(s).0)
  {
    TickKeepsSound(s);
    if s.pending != [] { assert s.pending[0] in s.pending; }
    if !s.buffering && s.nextSeq.Some? && s.pending != [] && !Releases(s, s.nextSeq.value) { LowConceals(s); }
  }

  // ----- Joined: the expected number is at or behind the next arrival

  /** The next arrival is m; everything from `from` up to it that is not yet played is held. */
  ghost predicate Joined(s: State, m: nat, from: nat) {
    && Sound(s) && |s.pending| <= ROOM && !s.buffering
    && s.nextSeq.Some? && s.nextSeq.value <= m < U32_LIMIT && from <= m
    && (forall g | g in s.pending :: g.number >= s.nextSeq.value)
    && (forall j: nat | from <= j < m && s.nextSeq.value <= j :: Buffered(s.pending, j))
  }

  function Expecting(s: State): nat {
    if s.nextSeq.Some? then s.nextSeq.value else 0
  }

  lemma JoinedFacts(s: State, m: nat, from: nat)
    requires Joined(s, m, from)
    ensures Sound(s) && Sorted(s.pending) && |s.pending| <= ROOM && s.nextSeq.Some? && !s.buffering
    ensures Expecting(s) <= m && from <= m
  {
  }

  lemma JoinedPush(s: State, f: Frame, from: nat)
    requires Joined(s, f.number, from) && f.number + 50 < U32_LIMIT
    ensures var s1 := Push(s, f);
            && s1 == s.(pending := Insert(s.pending, f)) && Sound(s1) && Sorted(s1.pending) && s1.pending != []
            && (forall g | g in s1.pending :: g.number >= Expecting(s))
            && (forall j: nat | from <= j <= f.number && Expecting(s) <= j :: Buffered(s1.pending, j))
            && s1.pending[0].number <= f.number
  {
    var p := Insert(s.pending, f);
    Accepted(s, f);
    NotEmpty(p, f.number);
    hide Insert, Push, Sound;
    HeadIsLeast(p);
    forall j: nat | from <= j <= f.number && Expecting(s) <= j ensures Buffered(p, j) {
      BufferedAfterInsert(s.pending, f, j);
    }
  }

  lemma NotEmpty(p: seq<Frame>, n: U32)
    requires Buffered(p, n)
    ensures p != []
  {
  }

  lemma JoinedCounts(p: seq<Frame>, f: Frame, from: nat)
    requires Sorted(p) && from <= f.number && f.number + 1 < U32_LIMIT
    ensures Below(Insert(p, f), f.number + 1) == Below(p, f.number) + 1
    ensures Below(Insert(p, f), from) == Below(p, from)
  {
    hide Insert, Below, Sorted;
    BelowInsert(p, f, f.number + 1);
    BelowNext(p, f.number);
    BelowInsert(p, f, from);
  }

  ghost predicate JoinedPlays(s: State, f: Frame, from: nat) {
    var (s', a) := Next(s, f);
    && a.Play? && Joined(s', f.number + 1, from) && s'.streak == 0
    && a.frame.number >= Expecting(s) && Expecting(s') == a.frame.number + 1
    && Below(s'.pending, f.number + 1) == Below(s.pending, f.number)
    && (a.frame.number < from ==> Below(s'.pending, from) == Below(s.pending, from) - 1)
  }

  ghost predicate JoinedGivesUp(s: State, f: Frame, from: nat) {
    var s' := Next(s, f).0;
    && Joined(s', f.number + 1, from) && s.streak < 20 && s'.streak == s.streak + 1
    && Below(s.pending, f.number) < 3
    && Below(s'.pending, f.number + 1) == Below(s.pending, f.number) + 1
    && Below(s'.pending, from) == Below(s.pending, from)
  }

  /** One slot once joined.  It plays or gives up one more of at most three numbers, or
      spends the budget; and with nothing missing it plays the expected number. */
  lemma JoinedSlot(s: State, f: Frame, from: nat)
    requires Joined(s, f.number, from) && f.number + 50 < U32_LIMIT
    ensures Next(s, f).1.Play? ==> JoinedPlays(s, f, from)
    ensures Next(s, f).1.Conceal? ==> JoinedGivesUp(s, f, from)
    ensures Next(s, f).1.Idle? ==> Next(s, f).0 == FRESH && s.streak == 20 && Below(s.pending, f.number) < 3
    ensures from <= Expecting(s) ==> Next(s, f).1.Play? && Next(s, f).1.frame.number == Expecting(s)
  {
    hide Push, Tick, Insert, Below, Sound, Joined, JoinedPlays, JoinedGivesUp;
    JoinedFacts(s, f.number, from);
    JoinedPush(s, f, from);
    JoinedCounts(s.pending, f, from);
    var s1 := Push(s, f);
    SlotCases(s1);
    RoomLeft(s, f);
    BelowBounds(s1.pending, from, f.number + 1);
    if Tick(s1).1.Play? { JoinedPlay(s, f, from, s1); }
    if Tick(s1).1.Conceal? { JoinedConceal(s, f, from, s1); }
    if from <= Expecting(s) { JoinedHead(s1); }
  }

  /** What a push onto a joined state leaves for the slot. */
  ghost predicate Pushed(s: State, f: Frame, from: nat, s1: State) {
    && Joined(s, f.number, from) && f.number + 50 < U32_LIMIT
    && s1 == Push(s, f) && s1 == s.(pending := s1.pending) && Sorted(s1.pending) && s1.pending != []
    && (forall g | g in s1.pending :: g.number >= Expecting(s))
    && (forall j: nat | from <= j <= f.number && Expecting(s) <= j :: Buffered(s1.pending, j))
    && s1.pending[0].number <= f.number
    && Below(s1.pending, f.number + 1) == Below(s.pending, f.number) + 1
    && Below(s1.pending, from) == Below(s.pending, from)
    && Sound(Tick(s1).0) && |Tick(s1).0.pending| <= ROOM
  }

  lemma JoinedPlay(s: State, f: Frame, from: nat, s1: State)
    requires Pushed(s, f, from, s1) && Played(s1, Tick(s1).0, Tick(s1).1)
    ensures JoinedPlays(s, f, from)
  {
    hide Push, Tick, Insert, Below, Sound, Sorted;
    HeadIsLeast(s1.pending);
    BelowTail(s1.pending, from);
    BelowTail(s1.pending, f.number + 1);
    assert s1.pending[0] in s1.pending;
  }

  lemma JoinedConceal(s: State, f: Frame, from: nat, s1: State)
    requires Pushed(s, f, from, s1) && Tick(s1).1.Conceal?
    requires Tick(s1).0.buffering ==> Refills(s1, Tick(s1).0)
    requires !Tick(s1).0.buffering ==> GivesUp(s1, Tick(s1).0)
    ensures JoinedGivesUp(s, f, from)
  {
    hide Push, Tick, Insert, Below, Sound, Sorted;
    BelowBounds(s1.pending, f.number + 1, f.number + 1);
    HeadOrMore(s1.pending);
  }

  lemma JoinedHead(s: State)
    requires Sound(s) && !s.buffering && s.nextSeq.Some? && s.pending != []
    requires forall g | g in s.pending :: g.number >= s.nextSeq.value
    ensures Buffered(s.pending, s.nextSeq.value) ==> Tick(s).1.Play? && s.pending[0].number == s.nextSeq.value
  {
    if Buffered(s.pending, s.nextSeq.value) {
      HeadIsLeast(s.pending);
      assert s.pending[0] in s.pending;
    }
  }

  /** After any slot there is room for one more frame. */
  lemma RoomLeft(s: State, f: Frame)
    requires Sound(s) && f.number + 50 < U32_LIMIT
    ensures |Next(s, f).0.pending| <= ROOM
  {
    PushKeepsSound(s, f);
    SlotCases(Push(s, f));
    PlaysExactly(Push(s, f));
  }

  // ----- Locked on

  /** With nothing missing up to the next arrival, every slot plays the next number. */
  lemma {:induction false} Rolls(s: State, fs: seq<Frame>, m: nat, from: nat)
    requires Streaming(fs, m) && Joined(s, m, from) && from <= Expecting(s)
    ensures Locked(Actions(s, OnePerSlot(fs)), 0, m, m - Expecting(s))
    ensures m - Expecting(s) <= ROOM
    decreases |fs|
  {
    hide Below, Tick, Push, Sound;
    SpanIsJoined(s, m, from);
    if fs != [] {
      OneSlot(s, fs, m);
      JoinedSlot(s, fs[0], from);
      var (s', a) := Next(s, fs[0]);
      Rolls(s', fs[1..], m + 1, from);
      LockedLater(a, Actions(s', OnePerSlot(fs[1..])), 0, m, m - Expecting(s));
    }
  }

  lemma SpanIsJoined(s: State, m: nat, from: nat)
    requires Joined(s, m, from) && from <= Expecting(s) && m < U32_LIMIT
    ensures m - Expecting(s) <= ROOM
  {
    SpanIsHeld(s.pending, Expecting(s), m);
    BelowBounds(s.pending, m, m);
  }

  /** Slots until nothing is missing: numbers still to be given up, and frames to be
      played, before the stream's own. */
  function Ahead(s: State, m: nat, from: nat): nat {
    Below(s.pending, from) + if Below(s.pending, m) < 3 then 3 - Below(s.pending, m) else 0
  }

  lemma AheadBound(s: State, m: nat, from: nat)
    requires |s.pending| <= ROOM && from <= m
    ensures Ahead(s, m, from) <= ROOM
  {
    BelowBounds(s.pending, from, m);
  }

  lemma {:induction false} LocksOnCalmly(s: State, fs: seq<Frame>, m: nat, from: nat, b: nat) returns (lag: nat)
    requires Streaming(fs, m) && Joined(s, m, from) && b >= Ahead(s, m, from)
    requires s.streak + 3 <= 20 + (if Below(s.pending, m) < 3 then Below(s.pending, m) else 3)
    ensures lag <= ROOM && Locked(Actions(s, OnePerSlot(fs)), b, m, lag)
    decreases |fs|
  {
    hide Below, Tick, Push, Sound, Joined;
    JoinedFacts(s, m, from);
    if from <= Expecting(s) {
      lag := m - Expecting(s);
      Rolls(s, fs, m, from);
      LockedSooner(Actions(s, OnePerSlot(fs)), 0, b, m, lag);
    } else if fs != [] {
      OneSlot(s, fs, m);
      JoinedSlot(s, fs[0], from);
      var (s', a) := Next(s, fs[0]);
      if a.Play? && a.frame.number >= from {
        JoinedFacts(s', m + 1, from);
        lag := m + 1 - Expecting(s');
        Rolls(s', fs[1..], m + 1, from);
        LockedLater(a, Actions(s', OnePerSlot(fs[1..])), 0, m, lag);
        LockedSooner(Actions(s, OnePerSlot(fs)), 0, b, m, lag);
      } else {
        lag := LocksOnCalmly(s', fs[1..], m + 1, from, b - 1);
        LockedLater(a, Actions(s', OnePerSlot(fs[1..])), b - 1, m, lag);
      }
    } else {
      lag := 0;
    }
  }

  // ----- Everything before

  const CALM: nat := ROOM           // joined, with the budget whole
  const FILLING: nat := CALM + 4    // no timeline yet
  const JOINED: nat := CALM + FILLING + 1
  const STALE: nat := JOINED        // on top of the slots the old timeline has left

  lemma FreshIsSound()
    ensures Sound(FRESH) && FRESH.nextSeq.None? && FRESH.pending == [] && StillToFill(FRESH) == 3
  {
  }

  lemma LocksOnAfterPlay(s: State, fs: seq<Frame>, m: nat, b: nat) returns (lag: nat)
    requires Streaming(fs, m) && Joined(s, m, m) && s.streak == 0 && b >= CALM
    ensures lag <= ROOM && Locked(Actions(s, OnePerSlot(fs)), b, m, lag)
  {
    AheadBound(s, m, m);
    lag := LocksOnCalmly(s, fs, m, m, b);
  }

  function StillToFill(s: State): nat {
    if s.fillTicks < 3 then 3 - s.fillTicks else 0
  }

  /** No timeline: at most four slots to the first play. */
  lemma {:induction false} LocksOnFresh(s: State, fs: seq<Frame>, m: nat, b: nat) returns (lag: nat)
    requires Streaming(fs, m) && Sound(s) && s.nextSeq.None? && |s.pending| <= ROOM
    requires b >= CALM + 1 + StillToFill(s)
    ensures lag <= ROOM && Locked(Actions(s, OnePerSlot(fs)), b, m, lag)
    decreases |fs|
  {
    hide Below, Tick, Push, Sound, Insert;
    lag := 0;
    if fs != [] {
      OneSlot(s, fs, m);
      FreshSlot(s, fs[0]);
      var (s', a) := Next(s, fs[0]);
      if a.Play? {
        lag := LocksOnAfterPlay(s', fs[1..], m + 1, b - 1);
      } else {
        lag := LocksOnFresh(s', fs[1..], m + 1, b - 1);
      }
      LockedLater(a, Actions(s', OnePerSlot(fs[1..])), b - 1, m, lag);
    }
  }

  lemma FreshSlot(s: State, f: Frame)
    requires Sound(s) && s.nextSeq.None? && |s.pending| <= ROOM && f.number + 50 < U32_LIMIT
    ensures var (s', a) := Next(s, f);
            if a.Play? then Joined(s', f.number + 1, f.number + 1) && s'.streak == 0
            else Sound(s') && s'.nextSeq.None? && |s'.pending| <= ROOM && StillToFill(s) > 0
                 && StillToFill(s') == StillToFill(s) - 1
  {
    Accepted(s, f);
    var s1 := Push(s, f);
    SlotCases(s1);
    RoomLeft(s, f);
    if Next(s, f).1.Play? { PlayJoins(s1, f.number); }
  }

  /** Playing the head joins the stream, if anything held is not past the next arrival. */
  lemma PlayJoins(s: State, n: nat)
    requires Sound(s) && s.pending != [] && Played(s, Tick(s).0, Tick(s).1) && Sound(Tick(s).0)
    requires s.pending[0].number <= n && n + 1 < U32_LIMIT
    requires |Tick(s).0.pending| <= ROOM
    ensures Joined(Tick(s).0, n + 1, n + 1)
  {
    HeadIsLeast(s.pending);
  }

  /** A cushion that already holds a frame of the stream: at most three slots more. */
  lemma {:induction false} LocksOnFilling(s: State, fs: seq<Frame>, m: nat, b: nat) returns (lag: nat)
    requires Streaming(fs, m) && Sound(s) && s.nextSeq.Some? && s.buffering && |s.pending| <= ROOM
    requires s.pending != [] && s.pending[0].number < m
    requires b >= FILLING + 1 + StillToFill(s)
    ensures lag <= ROOM && Locked(Actions(s, OnePerSlot(fs)), b, m, lag)
    decreases |fs|
  {
    hide Below, Tick, Push, Sound, Insert;
    lag := 0;
    if fs != [] {
      OneSlot(s, fs, m);
      FillingSlot(s, fs[0]);
      var (s', a) := Next(s, fs[0]);
      if a.Play? {
        lag := LocksOnAfterPlay(s', fs[1..], m + 1, b - 1);
      } else if a.Idle? {
        FreshIsSound();
        lag := LocksOnFresh(s', fs[1..], m + 1, b - 1);
      } else {
        lag := LocksOnFilling(s', fs[1..], m + 1, b - 1);
      }
      LockedLater(a, Actions(s', OnePerSlot(fs[1..])), b - 1, m, lag);
    }
  }

  lemma FillingSlot(s: State, f: Frame)
    requires Sound(s) && s.nextSeq.Some? && s.buffering && |s.pending| <= ROOM && f.number + 50 < U32_LIMIT
    requires s.pending != [] && s.pending[0].number < f.number
    ensures var (s', a) := Next(s, f);
            if a.Play? then Joined(s', f.number + 1, f.number + 1) && s'.streak == 0
            else if a.Idle? then s' == FRESH
            else Sound(s') && s'.nextSeq.Some? && s'.buffering && |s'.pending| <= ROOM
                 && s'.pending != [] && s'.pending[0].number < f.number + 1
                 && StillToFill(s) > 0 && StillToFill(s') == StillToFill(s) - 1
  {
    hide Tick, Insert;
    var s1 := Push(s, f);
    PushKeepsSound(s, f);
    if !Stale(s, f.number) {
      Accepted(s, f);
      HeadStays(s.pending, f);
    }
    SlotCases(s1);
    RoomLeft(s, f);
    if Next(s, f).1.Play? { PlayJoins(s1, f.number); }
  }

  /** An insertion never raises the head. */
  lemma HeadStays(p: seq<Frame>, f: Frame)
    requires Sorted(p) && p != []
    ensures Insert(p, f) != [] && Insert(p, f)[0].number <= p[0].number
  {
    InsertSorted(p, f);
    InsertMember(p, f, p[0]);
    HeadOrMore(Insert(p, f));
  }

  /** Joined, with any part of the budget already spent. */
  lemma {:induction false} LocksOnJoined(s: State, fs: seq<Frame>, m: nat, from: nat, b: nat) returns (lag: nat)
    requires Streaming(fs, m) && Joined(s, m, from) && b >= Ahead(s, m, from) + FILLING + 1
    ensures lag <= ROOM && Locked(Actions(s, OnePerSlot(fs)), b, m, lag)
    decreases |fs|
  {
    hide Below, Tick, Push, Sound, Joined;
    JoinedFacts(s, m, from);
    if from <= Expecting(s) {
      lag := m - Expecting(s);
      Rolls(s, fs, m, from);
      LockedSooner(Actions(s, OnePerSlot(fs)), 0, b, m, lag);
    } else if fs != [] {
      OneSlot(s, fs, m);
      JoinedSlot(s, fs[0], from);
      var (s', a) := Next(s, fs[0]);
      if a.Play? {
        AheadAfterPlay(s', m + 1, from);
        lag := LocksOnCalmly(s', fs[1..], m + 1, from, b - 1);
      } else if a.Conceal? {
        lag := LocksOnJoined(s', fs[1..], m + 1, from, b - 1);
      } else {
        FreshIsSound();
        lag := LocksOnFresh(s', fs[1..], m + 1, b - 1);
      }
      LockedLater(a, Actions(s', OnePerSlot(fs[1..])), b - 1, m, lag);
    } else {
      lag := 0;
    }
  }

  lemma AheadAfterPlay(s: State, m: nat, from: nat)
    requires Joined(s, m, from)
    ensures Ahead(s, m, from) <= ROOM
  {
    AheadBound(s, m, from);
  }

  /** An old timeline: its own slots run out, or an arrival is no longer taken for late. */
  lemma {:induction false} LocksOnOld(s: State, fs: seq<Frame>, m: nat, b: nat) returns (lag: nat)
    requires Streaming(fs, m) && Settled(s) && s.nextSeq.Some? && b >= SlotsLeft(s) + STALE
    ensures lag <= ROOM && Locked(Actions(s, OnePerSlot(fs)), b, m, lag)
    decreases |fs|
  {
    hide Below, Tick, Push, Sound, Insert, SlotsLeft, Joined, Settled;
    lag := 0;
    if fs != [] {
      OneSlot(s, fs, m);
      OldHasSlots(s);
      Settles(s, fs[0]);
      var (s', a) := Next(s, fs[0]);
      if Stale(s, m) {
        StaleSlot(s, fs[0]);
        if s'.nextSeq.Some? {
          lag := LocksOnOld(s', fs[1..], m + 1, b - 1);
        } else {
          FreshIsSound();
          lag := LocksOnFresh(s', fs[1..], m + 1, b - 1);
        }
      } else {
        JoiningSlot(s, fs[0]);
        lag := LocksOnTaken(s', a, fs[1..], m + 1, b - 1);
      }
      LockedLater(a, Actions(s', OnePerSlot(fs[1..])), b - 1, m, lag);
    }
  }

  /** Whatever the slot of the first arrival taken did. */
  lemma LocksOnTaken(s: State, a: Action, fs: seq<Frame>, m: nat, b: nat) returns (lag: nat)
    requires Streaming(fs, m) && Taken(s, a, m) && b >= STALE
    ensures lag <= ROOM && Locked(Actions(s, OnePerSlot(fs)), b, m, lag)
  {
    hide Below, Sound, Joined;
    if a.Idle? {
      FreshIsSound();
      lag := LocksOnFresh(s, fs, m, b);
    } else if s.buffering {
      lag := LocksOnFilling(s, fs, m, b);
    } else {
      AheadAfterPlay(s, m, m);
      lag := LocksOnJoined(s, fs, m, m, b);
    }
  }

  ghost predicate Taken(s: State, a: Action, m: nat) {
    if a.Idle? then s == FRESH
    else if s.buffering then
      && Sound(s) && s.nextSeq.Some? && |s.pending| <= ROOM
      && s.pending != [] && s.pending[0].number < m && StillToFill(s) < 3
    else Joined(s, m, m)
  }

  /** After a slot: room for one more, and while playing nothing held is behind. */
  ghost predicate Settled(s: State) {
    && Sound(s) && |s.pending| <= ROOM
    && (s.nextSeq.Some? && !s.buffering ==> forall g | g in s.pending :: g.number >= s.nextSeq.value)
  }

  lemma Settles(s: State, f: Frame)
    requires Sound(s) && f.number + 50 < U32_LIMIT
    ensures Settled(Next(s, f).0)
  {
    var s1 := Push(s, f);
    PushKeepsSound(s, f);
    SlotCases(s1);
    RoomLeft(s, f);
    if s1.pending != [] { HeadIsLeast(s1.pending); }
    HeadOrMore(s1.pending);
  }

  lemma HeadOrMore(p: seq<Frame>)
    requires Sorted(p)
    ensures forall g | g in p :: g.number >= p[0].number
  {
  }

  lemma OldHasSlots(s: State)
    requires Settled(s) && s.nextSeq.Some?
    ensures SlotsLeft(s) > 0 && Sound(s) && |s.pending| <= ROOM
    ensures SlotsLeft(s) <= 92
  {
  }

  lemma StaleSlot(s: State, f: Frame)
    requires Settled(s) && s.nextSeq.Some? && Stale(s, f.number)
    ensures var s' := Next(s, f).0;
            SlotsLeft(s') < SlotsLeft(s) && (s'.nextSeq.None? ==> s' == FRESH)
  {
    SlotsLeftDecreases(s);
    SlotCases(s);
  }

  /** The first arrival that is taken: whatever the slot does, the stream is joined. */
  lemma JoiningSlot(s: State, f: Frame)
    requires Settled(s) && s.nextSeq.Some? && !Stale(s, f.number) && f.number + 50 < U32_LIMIT
    ensures Taken(Next(s, f).0, Next(s, f).1, f.number + 1)
  {
    Accepted(s, f);
    var s1 := Push(s, f);
    NotEmpty(s1.pending, f.number);
    HeadIsLeast(s1.pending);
    SlotCases(s1);
    RoomLeft(s, f);
    HeadOrMore(s1.pending);
    if Next(s, f).1.Play? { PlayJoins(s1, f.number); }
  }

  /** No lock-in.  From every sound state, hence from every state a run clear of the
      wrap can reach, a stream that arrives one frame per slot in order is locked on
      after 120 slots: from then on every slot plays, always the same number of
      frames behind the one that just came, and never more than eleven. */
  lemma NoLockIn(s: State, fs: seq<Frame>, m: nat) returns (lag: nat)
    requires Sound(s) && Streaming(fs, m)
    ensures lag <= ROOM && Locked(Actions(s, OnePerSlot(fs)), 120, m, lag)
  {
    hide Below, Tick, Push, Sound, Insert, SlotsLeft, Joined, Settled;
    lag := 0;
    if fs != [] {
      OneSlot(s, fs, m);
      Settles(s, fs[0]);
      var (s', a) := Next(s, fs[0]);
      if s'.nextSeq.Some? {
        OldHasSlots(s');
        lag := LocksOnOld(s', fs[1..], m + 1, 119);
      } else {
        SettledIsSound(s');
        lag := LocksOnFresh(s', fs[1..], m + 1, 119);
      }
      LockedLater(a, Actions(s', OnePerSlot(fs[1..])), 119, m, lag);
    }
  }

  lemma SettledIsSound(s: State)
    requires Settled(s)
    ensures Sound(s) && |s.pending| <= ROOM
  {
  }
}
