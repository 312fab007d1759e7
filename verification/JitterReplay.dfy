/**
 When a frame can be played a second time.  The buffer remembers what it played
 only through the number it expects next, so a reset forgets it; and a number far
 enough back is taken for a restart.  Those two are the only ways.
 */
module JitterReplay {
  import opened Machine
  import opened JitterModel
  import opened JitterRuns

  // ----- Runs in parts

  lemma {:induction false} RunConcat(s: State, a: seq<Event>, b: seq<Event>)
    ensures After(s, a + b) == After(After(s, a), b)
    ensures Actions(s, a + b) == Actions(s, a) + Actions(After(s, a), b)
    decreases |a|
  {
    if a == [] {
      assert a + b == b;
    } else {
      assert (a + b)[1..] == a[1..] + b;
      RunConcat(Step(s, a[0]), a[1..], b);
    }
  }

  lemma {:induction false} FindSlot(s: State, events: seq<Event>, k: nat) returns (n: nat)
    requires k < |Actions(s, events)|
    ensures n < |events| && events[n].Slot? && |Actions(s, events[..n])| == k
    decreases |events|
  {
    hide Step, Tick;
    n := 0;
    if events[0].Arrive? || k > 0 {
      n := FindSlot(Step(s, events[0]), events[1..], if events[0].Slot? then k - 1 else k);
      assert events[..n + 1][1..] == events[1..][..n];
      n := n + 1;
    }
  }

  /** The k-th slot of a run: what comes before it, and what after. */
  lemma AtSlot(s: State, events: seq<Event>, k: nat) returns (n: nat)
    requires k < |Actions(s, events)|
    ensures n < |events| && events[n].Slot?
    ensures var t := After(s, events[..n]);
            && Actions(s, events[..n]) == Actions(s, events)[..k]
            && Tick(t).1 == Actions(s, events)[k]
            && Actions(Tick(t).0, events[n + 1..]) == Actions(s, events)[k + 1..]
  {
    hide Tick, After;
    n := FindSlot(s, events, k);
    var t := After(s, events[..n]);
    assert events[..n] + events[n..] == events && events[n..][1..] == events[n + 1..];
    RunConcat(s, events[..n], events[n..]);
    assert Actions(t, events[n..]) == [Tick(t).1] + Actions(Tick(t).0, events[n + 1..]);
  }

  function Quiet(n: nat): seq<Event> {
    seq(n, _ => Slot)
  }

  lemma {:induction false} QuietIsDrain(s: State, n: nat)
    ensures After(s, Quiet(n)) == Drain(s, n)
    ensures |Actions(s, Quiet(n))| == n
    ensures forall k: nat | k < n :: Actions(s, Quiet(n))[k] == Tick(Drain(s, k)).1
    decreases n
  {
    if n > 0 {
      assert Quiet(n)[1..] == Quiet(n - 1);
      QuietIsDrain(Tick(s).0, n - 1);
    }
  }

  lemma {:induction false} DrainConcat(s: State, a: nat, b: nat)
    ensures Drain(s, a + b) == Drain(Drain(s, a), b)
    decreases a
  {
    if a > 0 { DrainConcat(Tick(s).0, a - 1, b); }
  }

  lemma DrainFirst(s: State, n: nat)
    ensures Drain(s, n + 1) == Drain(Tick(s).0, n)
    ensures Drain(s, 1) == Tick(s).0
  {
    assert Drain(s, 1) == Drain(Tick(s).0, 0);
  }

  // ----- A duplicate after a silence

  /** With nothing held, the timeline stands still for the budget and is then gone. */
  lemma {:induction false} QuietTimeline(s: State, n: nat)
    requires Valid(s) && s.pending == []
    ensures var t := Drain(s, n);
            t.pending == [] && t.nextSeq == if s.streak + n <= 20 then s.nextSeq else None
    decreases n
  {
    if n > 0 {
      TickKeepsValid(s);
      if s.nextSeq.Some? && s.streak < 20 {
        QuietTimeline(Tick(s).0, n - 1);
      } else {
        assert Tick(s).0.nextSeq.None? && Tick(s).0.pending == [];
        NoTimeline(Tick(s).0, n - 1);
      }
    }
  }

  lemma {:induction false} NoTimeline(s: State, n: nat)
    requires Valid(s) && s.pending == [] && s.nextSeq.None?
    ensures Drain(s, n).pending == [] && Drain(s, n).nextSeq.None?
    decreases n
  {
    if n > 0 {
      TickKeepsValid(s);
      NoTimeline(Tick(s).0, n - 1);
    }
  }

  /** After `f` plays and leaves nothing behind it, `f` itself is taken again exactly
      when more than twenty slots have passed, or when it was the last number before
      the wrap. */
  lemma DuplicateTakenExactly(s: State, f: Frame, slots: nat)
    requires Valid(s) && Tick(s).1 == Play(f) && Tick(s).0.pending == []
    ensures var t := Drain(Tick(s).0, slots);
            f in Push(t, f).pending <==> slots > 20 || f.number == U32_LIMIT - 1
    ensures var t := Drain(Tick(s).0, slots);
            f !in Push(t, f).pending <==> Push(t, f) == t
  {
    TickKeepsValid(s);
    QuietTimeline(Tick(s).0, slots);
  }

  /** A lone frame that arrives again 21 empty slots after it played. */
  function ReplayRun(f: Frame): seq<Event> {
    [Arrive(f)] + Quiet(25) + [Arrive(f)] + Quiet(4)
  }

  lemma LoneFramePlays(f: Frame)
    ensures var s := Push(FRESH, f);
            && Tick(Drain(s, 3)).1 == Play(f) && Valid(Drain(s, 3))
            && Tick(Drain(s, 3)).0.pending == []
  {
    var s := Push(FRESH, f);
    assert Drain(s, 3) == s.(fillTicks := 3) by {
      assert Tick(s).0 == s.(fillTicks := 1);
      assert Tick(s.(fillTicks := 1)).0 == s.(fillTicks := 2);
      assert Tick(s.(fillTicks := 2)).0 == s.(fillTicks := 3);
      assert Drain(s, 3) == Drain(s.(fillTicks := 1), 2) == Drain(s.(fillTicks := 2), 1) == Drain(s.(fillTicks := 3), 0);
    }
  }

  /** The same frame does play twice, 25 slots apart. */
  lemma ReplayIsReachable(f: Frame)
    requires f.number + 50 < U32_LIMIT
    ensures ClearOfWrap(ReplayRun(f)) && |Actions(FRESH, ReplayRun(f))| == 29
    ensures Actions(FRESH, ReplayRun(f))[3] == Actions(FRESH, ReplayRun(f))[28] == Play(f)
  {
    var first, again := [Arrive(f)] + Quiet(25), [Arrive(f)] + Quiet(4);
    assert ReplayRun(f) == first + again;
    var t := Replayed(f);
    RunConcat(FRESH, first, again);
    ArriveThenQuiet(FRESH, f, 25);
    ArriveThenQuiet(t, f, 4);
    LoneFramePlays(f);
  }

  /** The other way: once a frame far enough ahead has played, `f` passes for a restart. */
  lemma RestartIsReachable(f: Frame, g: Frame)
    requires g.number == f.number + 51 && g.number + 50 < U32_LIMIT
    ensures var run := [Arrive(f)] + Quiet(4) + ([Arrive(g), Slot, Arrive(f), Slot]);
            && ClearOfWrap(run) && |Actions(FRESH, run)| == 6
            && Actions(FRESH, run)[3] == Actions(FRESH, run)[5] == Play(f) && Actions(FRESH, run)[4] == Play(g)
  {
    var first, more := [Arrive(f)] + Quiet(4), [Arrive(g), Slot, Arrive(f), Slot];
    RunConcat(FRESH, first, more);
    ArriveThenQuiet(FRESH, f, 4);
    LoneFramePlays(f);
    var s := Push(FRESH, f);
    DrainConcat(s, 3, 1);
    var t := Tick(Drain(s, 3)).0;
    assert Drain(Drain(s, 3), 1) == Drain(t, 0);
    ForthAndBack(t, f, g);
  }

  lemma ForthAndBack(s: State, f: Frame, g: Frame)
    requires s.pending == [] && !s.buffering && s.nextSeq == Some(f.number + 1)
    requires g.number == f.number + 51 && g.number + 50 < U32_LIMIT
    ensures Actions(s, [Arrive(g), Slot, Arrive(f), Slot]) == [Play(g), Play(f)]
  {
    var s1 := Push(s, g);
    assert s1.pending == [g] && Tick(s1).1 == Play(g);
    var s2 := Push(Tick(s1).0, f);
    assert s2.pending == [f] && Tick(s2).1 == Play(f);
    hide Push, Tick;
    var run := [Arrive(g), Slot, Arrive(f), Slot];
    assert run[1..] == [Slot, Arrive(f), Slot] && run[1..][1..] == [Arrive(f), Slot] && run[1..][1..][1..] == [Slot];
    assert Actions(s2, [Slot]) == [Play(f)] + Actions(Tick(s2).0, []);
    assert Actions(Tick(s1).0, [Arrive(f), Slot]) == Actions(s2, [Slot]);
    assert Actions(s1, run[1..]) == [Play(g)] + [Play(f)];
  }

  /** What the silence leaves is as good as fresh. */
  lemma Replayed(f: Frame) returns (t: State)
    requires f.number + 50 < U32_LIMIT
    ensures t == After(FRESH, [Arrive(f)] + Quiet(25)) && Tick(Drain(Push(t, f), 3)).1 == Play(f)
  {
    var s := Push(FRESH, f);
    LoneFramePlays(f);
    ArriveThenQuiet(FRESH, f, 25);
    hide Drain, Tick, Push;
    DrainConcat(s, 3, 22);
    DrainFirst(Drain(s, 3), 21);
    TickKeepsValid(Drain(s, 3));
    LoneFrameLeaves(f);
    SpentBudget(Tick(Drain(s, 3)).0);
    t := Drain(s, 25);
  }

  lemma LoneFrameLeaves(f: Frame)
    ensures var s := Tick(Drain(Push(FRESH, f), 3)).0; s.nextSeq.Some? && s.streak == 0
  {
    LoneFramePlays(f);
  }

  lemma SpentBudget(s: State)
    requires Valid(s) && s.pending == [] && s.nextSeq.Some? && s.streak == 0
    ensures Drain(s, 21) == FRESH
  {
    hide Drain, Tick;
    QuietStreak(s, 20);
    DrainConcat(s, 20, 1);
    DrainFirst(Drain(s, 20), 0);
    BudgetEnds(Drain(s, 20));
  }

  lemma BudgetEnds(s: State)
    requires s.pending == [] && s.nextSeq.Some? && s.streak == 20
    ensures Tick(s).0 == FRESH
  {
  }

  lemma {:induction false} QuietStreak(s: State, n: nat)
    requires Valid(s) && s.pending == [] && s.nextSeq.Some? && s.streak + n <= 20
    ensures var t := Drain(s, n); t.pending == [] && t.nextSeq.Some? && t.streak == s.streak + n
    decreases n
  {
    if n > 0 {
      TickKeepsValid(s);
      QuietStreak(Tick(s).0, n - 1);
    }
  }

  lemma ArriveThenQuiet(s: State, f: Frame, n: nat)
    ensures var run := [Arrive(f)] + Quiet(n);
            && After(s, run) == Drain(Push(s, f), n)
            && |Actions(s, run)| == n
            && forall k: nat | k < n :: Actions(s, run)[k] == Tick(Drain(Push(s, f), k)).1
  {
    var run := [Arrive(f)] + Quiet(n);
    assert run[1..] == Quiet(n);
    QuietIsDrain(Push(s, f), n);
    assert Actions(s, run) == Actions(Push(s, f), Quiet(n));
  }

  // ----- Whole runs

  ghost predicate Plays(acts: seq<Action>, i: nat) {
    i < |acts| && acts[i].Play?
  }

  /** Two plays with nothing but concealed slots between them. */
  ghost predicate Next(acts: seq<Action>, i: nat, j: nat) {
    i < j && Plays(acts, i) && Plays(acts, j) && forall k | i < k < j :: acts[k].Conceal?
  }

  /** The sender restarted: the next play is at least 29 numbers back. */
  ghost predicate Restart(acts: seq<Action>, i: nat, j: nat) {
    Next(acts, i, j)
    && acts[j].frame.number + 29 <= acts[i].frame.number
  }

  /** Once a timeline runs, an idle slot is a reset and nothing else. */
  lemma IdleIsReset(s: State)
    requires Valid(s) && s.nextSeq.Some?
    ensures Tick(s).1.Idle? <==> Tick(s).0 == FRESH
    ensures Tick(s).1.Idle? <==> Tick(s).0.nextSeq.None?
  {
  }

  lemma NextPlayClimbs(s: State, events: seq<Event>, i: nat, j: nat)
    requires Sound(s) && ClearOfWrap(events) && Next(Actions(s, events), i, j)
    ensures var acts := Actions(s, events);
            acts[j].frame.number > acts[i].frame.number || Restart(acts, i, j)
  {
    hide Sound, ClearOfWrap, Tick;
    var acts := Actions(s, events);
    var n := AtSlot(s, events, i);
    var t := After(s, events[..n]);
    var rest := events[n + 1..];
    PartsAreClear(events, n);
    RunKeepsSound(s, events[..n]);
    var m := AtSlot(Tick(t).0, rest, j - i - 1);
    PartsAreClear(rest, m);
    var between := acts[i + 1..][..j - i - 1];
    assert Actions(Tick(t).0, rest[..m]) == between;
    forall k | 0 <= k < |between| ensures between[k].Conceal? {
      assert between[k] == acts[i + 1 + k];
    }
    assert acts[i + 1..][j - i - 1] == acts[j];
    ConsecutivePlays(t, rest[..m]);
  }

  lemma PartsAreClear(events: seq<Event>, n: nat)
    requires ClearOfWrap(events) && n < |events|
    ensures ClearOfWrap(events[..n]) && ClearOfWrap(events[n + 1..])
  {
    assert forall e | e in events[..n] :: e in events;
    assert forall e | e in events[n + 1..] :: e in events;
  }

  /** No replay over whole runs: of any two plays, however far apart and whatever
      arrives, the later one is later in the stream, unless an idle slot (a reset)
      or a restart at least 29 numbers back lies between them. */
  lemma {:induction false} PlaysClimb(s: State, events: seq<Event>, i: nat, j: nat)
    requires Sound(s) && ClearOfWrap(events)
    requires i < j && Plays(Actions(s, events), i) && Plays(Actions(s, events), j)
    ensures var acts := Actions(s, events);
            || acts[j].frame.number > acts[i].frame.number
            || (exists k :: i < k < j && acts[k].Idle?)
            || (exists a: nat, b: nat :: i <= a < b <= j && Restart(acts, a, b))
    decreases j - i
  {
    hide Sound, ClearOfWrap, Actions, Restart;
    var acts := Actions(s, events);
    if forall k | i < k < j :: !acts[k].Idle? {
      var m := j - 1;
      while m > i && !acts[m].Play?
        invariant i <= m < j && forall k | m < k < j :: acts[k].Conceal?
      {
        m := m - 1;
      }
      assert Next(acts, m, j);
      NextPlayClimbs(s, events, m, j);
      if m > i { PlaysClimb(s, events, i, m); }
    }
  }
}
