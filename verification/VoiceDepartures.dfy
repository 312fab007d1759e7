/**
 What becomes of a peer that sends nothing more, over every run of the controller:
 exactly when it is let go, what its stall is charged, and exactly when a peer that
 never filled its cushion stays as it is.
 */
module VoiceDepartures {
  import opened Machine
  import opened VoiceModel
  import opened VoiceAccounting

  // ----- One event, as one peer sees it

  const GONE: View := View(false, [], false, 0)

  /** A playout slot with a device to play it. */
  predicate LiveSlot(c: Controller, e: Event) {
    e.PlayoutSlot? && c.control.audioLive
  }

  predicate Leaves(e: Event, p: Peer) {
    e.PeerLeaves? && e.peer == p
  }

  /** The peer is known, and either playing or about to. */
  predicate IsServed(w: View, depth: nat) {
    w.known && (w.started || |w.queue| >= depth)
  }

  function NextView(c: Controller, e: Event, p: Peer): View {
    var w := ViewOf(c.voice, p);
    if Leaves(e, p) then GONE
    else if !LiveSlot(c, e) || !IsServed(w, c.voice.depth) then w
    else if w.queue != [] then View(true, w.queue[1..], true, 0)
    else if RecentlyActive(c.voice, p, e.now) then View(true, [], true, w.dry + 1)
    else GONE
  }

  /** Unless `p` sends, an event leaves it in its next view, whatever else it does. */
  lemma ViewStep(c: Controller, l: Ledger, e: Event, p: Peer)
    requires ControllerOk(c, l) && Possible(c, e) && !(e.AudioArrives? && e.peer == p)
    ensures ViewOf(Step(c, e).voice, p) == NextView(c, e, p)
  {
    hide InOrder, Conserved, Playout;
    if e.PlayoutSlot? {
      if p in c.voice.queues {
        PlayoutForPeer(c.voice, e.order, e.now, p);
      } else {
        PlayoutAddsNobody(c.voice, e.order, e.now, p);
        UnknownIsGone(c.voice, p);
      }
    }
  }

  lemma UnknownIsGone(v: Voice, p: Peer)
    requires QueuesOk(v) && p !in v.queues
    ensures ViewOf(v, p) == GONE
  {
  }

  lemma PlayoutAddsNobody(v: Voice, order: seq<Peer>, now: nat, p: Peer)
    requires Enumerates(order, v.queues.Keys) && QueuesOk(v) && p !in v.queues
    ensures forall q | q in order :: q in v.queues
    ensures ViewOf(Playout(v, order, now).0, p) == GONE
  {
    assert v.queues.Keys * (set q | q in order) == v.queues.Keys;
    ServeAllView(v, order, now, p);
    ReleaseAllView(ServeAll(v, order, now).0, ServeAll(v, order, now).1.silent, p);
    UnknownIsGone(v, p);
  }

  lemma {:induction false} GoneStays(c: Controller, l: Ledger, events: seq<Event>, p: Peer)
    requires ControllerOk(c, l) && PossibleRun(c, events) && SendsNothing(events, p)
    requires ViewOf(c.voice, p) == GONE
    ensures ViewOf(Run(c, events).voice, p) == GONE
    decreases |events|
  {
    hide ControllerOk, Step, Log, ViewOf;
    if events != [] {
      var e := events[0];
      assert e in events;
      ViewStep(c, l, e, p);
      StepKeeps(c, l, e);
      GoneStays(Step(c, e), Log(c, l, e), events[1..], p);
    }
  }

  // ----- A peer that has started

  function LiveSlots(c: Controller, events: seq<Event>): nat
    requires PossibleRun(c, events)
    decreases |events|
  {
    if events == [] then 0
    else (if LiveSlot(c, events[0]) then 1 else 0) + LiveSlots(Step(c, events[0]), events[1..])
  }

  function Less(k: nat, slot: bool): nat {
    if slot && k > 0 then k - 1 else k
  }

  /** The peer leaves, or a live slot after the first `k` finds it not recently heard. */
  ghost predicate LetGo(c: Controller, events: seq<Event>, p: Peer, k: nat)
    requires PossibleRun(c, events)
    decreases |events|
  {
    events != [] &&
    var e := events[0];
    || Leaves(e, p)
    || (LiveSlot(c, e) && k == 0 && !RecentlyActive(c.voice, p, e.now))
    || LetGo(Step(c, e), events[1..], p, Less(k, LiveSlot(c, e)))
  }

  /** A started peer after `n` slots: so much played, and then so many slots dry. */
  function PlayedOut(w: View, n: nat): View {
    if n <= |w.queue| then View(true, w.queue[n..], true, w.dry)
    else View(true, [], true, w.dry + (n - |w.queue|))
  }

  lemma PlayedOutOneMore(w: View, n: nat)
    requires w.known && w.started && (w.dry > 0 ==> w.queue == [])
    ensures w.queue != [] ==>
              PlayedOut(View(true, w.queue[1..], true, 0), n) == PlayedOut(w, n + 1)
    ensures w.queue == [] ==> PlayedOut(View(true, [], true, w.dry + 1), n) == PlayedOut(w, n + 1)
    ensures PlayedOut(w, 0) == w
  {
  }

  lemma DryIsEmpty(v: Voice, p: Peer)
    requires QueuesOk(v)
    ensures ViewOf(v, p).dry > 0 ==> ViewOf(v, p).queue == []
    ensures p in v.started ==> p in v.queues
  {
  }

  /** A started peer that sends nothing more: it is let go exactly when it leaves or
      some live slot, after as many as it has packets queued, finds it not heard for
      600 ms; until then every live slot plays its next packet, or is held as dry. */
  lemma {:induction false} StartedPeerLeaves(c: Controller, l: Ledger, events: seq<Event>, p: Peer)
    requires ControllerOk(c, l) && PossibleRun(c, events) && SendsNothing(events, p)
    requires p in c.voice.started
    ensures var w := ViewOf(c.voice, p);
            ViewOf(Run(c, events).voice, p) ==
            if LetGo(c, events, p, |w.queue|) then GONE else PlayedOut(w, LiveSlots(c, events))
    decreases |events|
  {
    hide ControllerOk, RecentlyActive, Step, Log, PlayedOut;
    var w := ViewOf(c.voice, p);
    StartedView(c, l, p);
    PlayedOutOneMore(w, 0);
    if events != [] {
      var e, rest := events[0], events[1..];
      assert e in events;
      ViewStep(c, l, e, p);
      StepKeeps(c, l, e);
      var c', l' := Step(c, e), Log(c, l, e);
      if NextView(c, e, p) == GONE {
        GoneStays(c', l', rest, p);
      } else {
        NextIsStarted(c, e, p);
        StartedPeerLeaves(c', l', rest, p);
        PlayedOutOneMore(w, LiveSlots(c', rest));
      }
    }
  }

  lemma StartedView(c: Controller, l: Ledger, p: Peer)
    requires ControllerOk(c, l) && p in c.voice.started
    ensures var w := ViewOf(c.voice, p); w.known && w.started && (w.dry > 0 ==> w.queue == [])
  {
    DryIsEmpty(c.voice, p);
  }

  lemma NextIsStarted(c: Controller, e: Event, p: Peer)
    requires p in c.voice.started && NextView(c, e, p) != GONE && p in c.voice.queues
    ensures NextView(c, e, p).started && !Leaves(e, p)
    ensures !LiveSlot(c, e) ==> NextView(c, e, p) == ViewOf(c.voice, p)
  {
  }

  // ----- The charge for a stall

  function Owed(dry: nat): nat {
    if dry <= 12 then dry else 0
  }

  /** The next packet of `p` counts `n` underruns, all to `p`. */
  predicate Resumes(c: Controller, l: Ledger, p: Peer, packet: Packet, now: nat, n: nat, charged: nat) {
    var e := AudioArrives(p, packet, now);
    && Step(c, e).voice.underruns == c.voice.underruns + n
    && Step(c, e).voice.frames == c.voice.frames + n
    && Get(Log(c, l, e).charged, p) == charged + n
  }

  lemma ResumeCharges(c: Controller, l: Ledger, p: Peer, packet: Packet, now: nat)
    ensures Resumes(c, l, p, packet, now, Owed(ViewOf(c.voice, p).dry), Get(l.charged, p))
  {
  }

  /** A stall, whatever happens during it: the slots that found the started peer's
      queue empty are charged to it whole by its next packet, if there were at most
      twelve of them and it was not let go meanwhile, and otherwise not at all. */
  lemma StallIsCharged(c: Controller, l: Ledger, events: seq<Event>, p: Peer, packet: Packet, now: nat)
    requires ControllerOk(c, l) && PossibleRun(c, events) && SendsNothing(events, p)
    requires p in c.voice.started
    ensures var w, n := ViewOf(c.voice, p), LiveSlots(c, events);
            var dry := if LetGo(c, events, p, |w.queue|) then 0
                       else w.dry + if n > |w.queue| then n - |w.queue| else 0;
            Resumes(Run(c, events), LogRun(c, l, events), p, packet, now, Owed(dry), Get(l.charged, p))
  {
    hide ControllerOk, Run, LogRun, LetGo, LiveSlots, Resumes, ViewOf;
    StartedPeerLeaves(c, l, events, p);
    SilenceIsNotLoss(c, l, events, p);
    ResumeCharges(Run(c, events), LogRun(c, l, events), p, packet, now);
  }

  // ----- By the clock

  predicate Timed(e: Event) {
    e.PlayoutSlot? || e.SpeakersExpire?
  }

  /** Slots and expiries come in the order of their times, none before `t`. */
  predicate Clocked(events: seq<Event>, t: nat)
    decreases |events|
  {
    events == [] ||
    if Timed(events[0]) then events[0].now >= t && Clocked(events[1..], events[0].now)
    else Clocked(events[1..], t)
  }

  /** The peer leaves, or a live slot after the first `k` comes 600 ms or more after `heard`. */
  ghost predicate Overdue(c: Controller, events: seq<Event>, p: Peer, heard: nat, k: nat)
    requires PossibleRun(c, events)
    decreases |events|
  {
    events != [] &&
    var e := events[0];
    || Leaves(e, p)
    || (LiveSlot(c, e) && k == 0 && e.now >= heard + 600)
    || Overdue(Step(c, e), events[1..], p, heard, Less(k, LiveSlot(c, e)))
  }

  /** Last heard at `heard`, or forgotten by an expiry more than 600 ms later. */
  predicate HeardAt(v: Voice, p: Peer, heard: nat, t: nat) {
    if p in v.lastAudio then v.lastAudio[p] == heard else t >= heard + 600
  }

  lemma HeardStep(c: Controller, e: Event, p: Peer, heard: nat, t: nat)
    requires Possible(c, e) && HeardAt(c.voice, p, heard, t)
    requires !(e.AudioArrives? && e.peer == p) && !Leaves(e, p) && (Timed(e) ==> e.now >= t)
    ensures HeardAt(Step(c, e).voice, p, heard, if Timed(e) then e.now else t)
    ensures e.PlayoutSlot? ==> (RecentlyActive(c.voice, p, e.now) <==> e.now < heard + 600)
  {
    hide Playout;
    if e.PlayoutSlot? { PlayoutKeepsDepth(c.voice, e.order, e.now); }
  }

  /** With time never running back, being let go is a matter of the clock alone:
      a live slot 600 ms or more after the peer was last heard, once its queue is out. */
  lemma {:induction false} LetGoByTheClock(c: Controller, events: seq<Event>, p: Peer, heard: nat, t: nat, k: nat)
    requires PossibleRun(c, events) && SendsNothing(events, p) && Clocked(events, t)
    requires HeardAt(c.voice, p, heard, t)
    ensures LetGo(c, events, p, k) <==> Overdue(c, events, p, heard, k)
    decreases |events|
  {
    hide RecentlyActive, Step, HeardAt;
    if events != [] {
      var e := events[0];
      assert e in events;
      if !Leaves(e, p) {
        HeardStep(c, e, p, heard, t);
        LetGoByTheClock(Step(c, e), events[1..], p, heard, if Timed(e) then e.now else t, Less(k, LiveSlot(c, e)));
      }
    }
  }

  const SLOT_MS: nat := 20

  /** Live slots come no faster than every 20 ms, the first at `t` or later. */
  ghost predicate Paced(c: Controller, events: seq<Event>, t: nat)
    requires PossibleRun(c, events)
    decreases |events|
  {
    events == [] ||
    if LiveSlot(c, events[0]) then events[0].now >= t && Paced(Step(c, events[0]), events[1..], t + SLOT_MS)
    else Paced(Step(c, events[0]), events[1..], t)
  }

  lemma {:induction false} PacedIsOverdue(c: Controller, events: seq<Event>, p: Peer, heard: nat, i: nat, k: nat)
    requires PossibleRun(c, events) && Paced(c, events, heard + i * SLOT_MS)
    requires LiveSlots(c, events) > k && LiveSlots(c, events) + i > 30
    ensures Overdue(c, events, p, heard, k)
    decreases |events|
  {
    hide Step;
    var e := events[0];
    if !LiveSlot(c, e) {
      PacedIsOverdue(Step(c, e), events[1..], p, heard, i, k);
    } else if k > 0 || i < 30 {
      PacedIsOverdue(Step(c, e), events[1..], p, heard, i + 1, Less(k, true));
    }
  }

  /** In milliseconds: a started peer that sends nothing more is gone after one live
      slot more than it has packets queued, or after 31, whichever is later: 620 ms
      of playout for up to 30 packets, and never more than 3220 ms. */
  lemma GoneInTime(c: Controller, l: Ledger, events: seq<Event>, p: Peer, heard: nat, t: nat)
    requires ControllerOk(c, l) && PossibleRun(c, events) && SendsNothing(events, p)
    requires p in c.voice.started && HeardAt(c.voice, p, heard, t) && Clocked(events, t)
    requires Paced(c, events, heard)
    requires LiveSlots(c, events) > Max(|Queue(c.voice, p)|, 30)
    ensures ViewOf(Run(c, events).voice, p) == GONE
    ensures |Queue(c.voice, p)| <= 160
  {
    hide Run, LetGo, Overdue, LiveSlots, Paced, Clocked, PossibleRun;
    StartedPeerLeaves(c, l, events, p);
    LetGoByTheClock(c, events, p, heard, t, |Queue(c.voice, p)|);
    assert heard + 0 * SLOT_MS == heard;
    PacedIsOverdue(c, events, p, heard, 0, |Queue(c.voice, p)|);
  }

  // ----- A peer that never filled its cushion

  /** The peer leaves, or a live slot is reached at a depth of at most `n`. */
  ghost predicate Wakes(c: Controller, events: seq<Event>, p: Peer, n: nat)
    requires PossibleRun(c, events)
    decreases |events|
  {
    events != [] &&
    var e := events[0];
    || Leaves(e, p)
    || (LiveSlot(c, e) && c.voice.depth <= n)
    || Wakes(Step(c, e), events[1..], p, n)
  }

  /** A peer that has not started and sends nothing more stays exactly as it is, over
      any run and however long it has been silent, exactly as long as it does not
      leave and no live slot is reached at a depth of at most what it has queued. */
  lemma {:induction false} ShortTalkerIsStranded(c: Controller, l: Ledger, events: seq<Event>, p: Peer)
    requires ControllerOk(c, l) && PossibleRun(c, events) && SendsNothing(events, p)
    requires p in c.voice.queues && p !in c.voice.started
    ensures ViewOf(Run(c, events).voice, p) == ViewOf(c.voice, p) <==>
            !Wakes(c, events, p, |c.voice.queues[p]|)
    decreases |events|
  {
    hide ControllerOk, Step, Log, RecentlyActive;
    if events != [] {
      var e, rest := events[0], events[1..];
      assert e in events;
      ViewStep(c, l, e, p);
      StepKeeps(c, l, e);
      var c', l' := Step(c, e), Log(c, l, e);
      if Leaves(e, p) {
        GoneStays(c', l', rest, p);
      } else if LiveSlot(c, e) && c.voice.depth <= |c.voice.queues[p]| {
        DepthIsPositive(c, l);
        assert NextView(c, e, p).started;
        StartedPeerLeaves(c', l', rest, p);
      } else {
        ShortTalkerIsStranded(c', l', rest, p);
      }
    }
  }

  lemma DepthIsPositive(c: Controller, l: Ledger)
    requires ControllerOk(c, l)
    ensures c.voice.depth > 0
  {
  }

  // ----- Such a peer, from the start

  /** A live device, and two packets of one peer: one short of the default cushion. */
  function TwoPackets(p: Peer, a: Packet, b: Packet): Controller {
    Step(Step(Step(FRESH, AudioDevice(true)), AudioArrives(p, a, 0)), AudioArrives(p, b, 0))
  }

  lemma TwoPacketsWait(p: Peer, a: Packet, b: Packet)
    ensures var c := TwoPackets(p, a, b);
            && c.voice == Voice(map[p := [a, b]], {}, map[p := 0], map[], 3, 0, 0)
            && c.control.audioLive && c.control.adaptive
  {
    var v := FRESH.voice;
    FirstPacket(v, p, a);
    SecondPacket(Audio(v, p, a, 0), p, a, b);
  }

  lemma FirstPacket(v: Voice, p: Peer, a: Packet)
    requires v == FRESH.voice
    ensures Audio(v, p, a, 0) == Voice(map[p := [a]], {}, map[p := 0], map[], 3, 0, 0)
  {
    assert Capped([] + [a], 24) == [a];
    assert v.dry - {p} == map[];
  }

  lemma SecondPacket(v: Voice, p: Peer, a: Packet, b: Packet)
    requires v == Voice(map[p := [a]], {}, map[p := 0], map[], 3, 0, 0)
    ensures Audio(v, p, b, 0) == Voice(map[p := [a, b]], {}, map[p := 0], map[], 3, 0, 0)
  {
    assert Capped([a] + [b], 24) == [a, b];
    assert v.dry - {p} == map[];
    assert v.queues[p := [a, b]] == map[p := [a, b]] && v.lastAudio[p := 0] == map[p := 0];
  }

  /** Slots for the one peer, at the given times. */
  function SlotsAt(p: Peer, times: seq<nat>): seq<Event> {
    seq(|times|, i requires 0 <= i < |times| => PlayoutSlot([p], times[i]))
  }

  lemma FillingSlot(c: Controller, p: Peer, now: nat)
    requires c.voice.queues.Keys == {p} && p !in c.voice.started && |c.voice.queues[p]| < c.voice.depth
    ensures Possible(c, PlayoutSlot([p], now)) && Step(c, PlayoutSlot([p], now)) == c
  {
    var order := [p];
    assert order[..0] == [] && order[0] == p;
    assert ServeAll(c.voice, [], now) == (c.voice, Slots([], []));
    assert ServeAll(c.voice, order, now) == (c.voice, Slots([], []));
    assert Playout(c.voice, order, now).0 == c.voice;
  }

  lemma {:induction false} SlotsChangeNothing(c: Controller, p: Peer, times: seq<nat>)
    requires c.voice.queues.Keys == {p} && p !in c.voice.started && |c.voice.queues[p]| < c.voice.depth
    ensures PossibleRun(c, SlotsAt(p, times)) && Run(c, SlotsAt(p, times)) == c
    decreases |times|
  {
    if times != [] {
      FillingSlot(c, p, times[0]);
      assert SlotsAt(p, times)[1..] == SlotsAt(p, times[1..]);
      SlotsChangeNothing(c, p, times[1..]);
    }
  }

  /** From a new controller: two packets wait through any number of slots at any
      times, unplayed and not let go; and when the depth is then lowered to 2, the
      next slot, however late, plays the first of them. */
  lemma StrandedThenStale(p: Peer, a: Packet, b: Packet, times: seq<nat>, now: nat)
    ensures var c, slots := TwoPackets(p, a, b), SlotsAt(p, times);
            && PossibleRun(c, slots)
            && ViewOf(Run(c, slots).voice, p) == View(true, [a, b], false, 0)
            && var c' := Step(Run(c, slots), PinDepth(2));
               p in c'.voice.queues && (p, Some(a)) in Playout(c'.voice, [p], now).1.frames
  {
    TwoPacketsWait(p, a, b);
    var c := TwoPackets(p, a, b);
    SlotsChangeNothing(c, p, times);
    var v := c.voice.(depth := 2);
    assert [p][..0] == [] && [p][0] == p;
    assert ServeAll(v, [], now) == (v, Slots([], []));
    assert SlotOutcome(v, p, now) == Served(Some(a));
    assert ServeAll(v, [p], now).1 == Slots([(p, Some(a))], []);
  }

  /** Those are states a run from the start reaches. */
  lemma TwoPacketsReached(p: Peer, a: Packet, b: Packet)
    ensures var start := [AudioDevice(true), AudioArrives(p, a, 0), AudioArrives(p, b, 0)];
            && PossibleRun(FRESH, start) && Run(FRESH, start) == TwoPackets(p, a, b)
            && ControllerOk(TwoPackets(p, a, b), LogRun(FRESH, EMPTY, start))
  {
    var start := [AudioDevice(true), AudioArrives(p, a, 0), AudioArrives(p, b, 0)];
    ThreeSteps(FRESH, start[0], start[1], start[2]);
    hide ControllerOk, Step, PossibleRun, Run, LogRun;
    FreshIsOk();
    EveryRunKeeps(FRESH, EMPTY, start);
  }

  lemma ThreeSteps(c: Controller, x: Event, y: Event, z: Event)
    requires !x.PlayoutSlot? && !y.PlayoutSlot? && !z.PlayoutSlot?
    requires !x.QualityReport? && !y.QualityReport? && !z.QualityReport?
    ensures PossibleRun(c, [x, y, z]) && Run(c, [x, y, z]) == Step(Step(Step(c, x), y), z)
  {
    hide Step;
    var c1 := Step(c, x);
    var c2 := Step(c1, y);
    assert [x, y, z][1..] == [y, z] && [y, z][1..] == [z] && [z][1..] == [];
    assert PossibleRun(Step(c2, z), []) && Run(Step(c2, z), []) == Step(c2, z);
    assert PossibleRun(c2, [z]) && Run(c2, [z]) == Step(c2, z);
    assert PossibleRun(c1, [y, z]) && Run(c1, [y, z]) == Run(c2, [z]);
  }
}
