/**
 Content audio for every peer at once: who is tracked, what each peer plays in a
 slot, and when a peer who stopped sending is forgotten.
 */
module ContentPlayouts {
  import opened Machine
  import opened JitterModel
  import opened JitterRuns

  type Peer = string

  // ----- On values

  /** A peer whose buffer has nothing to play and nothing to wait for is let go. */
  predicate Dropped(s: State) {
    Tick(s).1.Idle? && IsIdle(Tick(s).0)
  }

  function Accepted(m: map<Peer, State>, peer: Peer, f: Frame): map<Peer, State> {
    m[peer := Push(if peer in m then m[peer] else FRESH, f)]
  }

  function Ticked(m: map<Peer, State>): map<Peer, State> {
    map p | p in m && !Dropped(m[p]) :: Tick(m[p]).0
  }

  datatype PlayoutEvent = Accept(peer: Peer, frame: Frame) | TickAll | Forget(peer: Peer) | Clear

  function PlayoutStep(m: map<Peer, State>, e: PlayoutEvent): map<Peer, State> {
    match e
    case Accept(p, f) => Accepted(m, p, f)
    case TickAll => Ticked(m)
    case Forget(p) => m - {p}
    case Clear => map[]
  }

  function PlayoutRun(m: map<Peer, State>, events: seq<PlayoutEvent>): map<Peer, State>
    decreases |events|
  {
    if events == [] then m else PlayoutRun(PlayoutStep(m, events[0]), events[1..])
  }

  // ----- Nobody is tracked for nothing

  ghost predicate Tracked(m: map<Peer, State>) {
    forall p | p in m :: Valid(m[p]) && !IsIdle(m[p])
  }

  lemma PushIsNotIdle(s: State, f: Frame)
    requires Valid(s)
    requires !IsIdle(s) || s == FRESH
    ensures !IsIdle(Push(s, f))
  {
    if !Stale(s, f.number) {
      InsertNonEmpty(s.pending, f);
    }
  }

  lemma InsertNonEmpty(p: seq<Frame>, f: Frame)
    ensures Newest(Insert(p, f)) != []
  {
  }

  lemma TickedTracked(m: map<Peer, State>)
    requires Tracked(m)
    ensures Tracked(Ticked(m))
  {
    forall p | p in Ticked(m) ensures Valid(Ticked(m)[p]) && !IsIdle(Ticked(m)[p]) {
      TickKeepsValid(m[p]);
      SlotsLeftDecreases(m[p]);
    }
  }

  /** Over every run, no tracked buffer is idle; in particular after every slot. */
  lemma {:induction false} RunTracked(m: map<Peer, State>, events: seq<PlayoutEvent>)
    requires Tracked(m)
    ensures Tracked(PlayoutRun(m, events))
    decreases |events|
  {
    if events != [] {
      match events[0] {
        case Accept(p, f) =>
          var s := if p in m then m[p] else FRESH;
          PushKeepsValid(s, f);
          PushIsNotIdle(s, f);
        case TickAll => TickedTracked(m);
        case Forget(_) =>
        case Clear =>
      }
      RunTracked(PlayoutStep(m, events[0]), events[1..]);
    }
  }

  // ----- A peer who stops sending is forgotten

  function Ticks(events: seq<PlayoutEvent>): nat {
    if events == [] then 0 else (if events[0].TickAll? then 1 else 0) + Ticks(events[1..])
  }

  function PeerSlotsLeft(m: map<Peer, State>, p: Peer): nat {
    if p in m then SlotsLeft(m[p]) else 0
  }

  lemma TrackedHasSlotsLeft(s: State)
    requires Valid(s) && !IsIdle(s)
    ensures SlotsLeft(s) > 0
  {
  }

  /** Whatever the other peers do, a peer from whom nothing more is accepted is
      dropped within the slots its buffer has left. */
  lemma {:induction false} StoppedPeerIsForgotten(m: map<Peer, State>, events: seq<PlayoutEvent>, p: Peer)
    requires Tracked(m)
    requires forall e | e in events :: !(e.Accept? && e.peer == p)
    requires Ticks(events) >= PeerSlotsLeft(m, p)
    ensures p !in PlayoutRun(m, events)
    decreases |events|
  {
    if p in m { TrackedHasSlotsLeft(m[p]); }
    if events != [] {
      assert events[0] in events;
      var m' := PlayoutStep(m, events[0]);
      RunTracked(m, [events[0]]);
      assert PlayoutRun(m, [events[0]]) == m';
      if events[0].TickAll? && p in m {
        SlotsLeftDecreases(m[p]);
      }
      StoppedPeerIsForgotten(m', events[1..], p);
    }
  }

  // ----- Peers do not affect one another

  function Entry(m: map<Peer, State>, p: Peer): Option<State> {
    if p in m then Some(m[p]) else None
  }

  predicate Concerns(e: PlayoutEvent, p: Peer) {
    e.TickAll? || e.Clear? || e.peer == p
  }

  function Concerning(events: seq<PlayoutEvent>, p: Peer): seq<PlayoutEvent> {
    if events == [] then []
    else (if Concerns(events[0], p) then [events[0]] else []) + Concerning(events[1..], p)
  }

  /** What becomes of one peer depends on that peer's own events alone. */
  lemma {:induction false} PeersAreIndependent(
      m: map<Peer, State>, n: map<Peer, State>, events: seq<PlayoutEvent>, p: Peer)
    requires Entry(m, p) == Entry(n, p)
    ensures Entry(PlayoutRun(m, events), p) == Entry(PlayoutRun(n, Concerning(events, p)), p)
    decreases |events|
  {
    if events != [] {
      var e, rest := events[0], events[1..];
      if Concerns(e, p) {
        assert Concerning(events, p) == [e] + Concerning(rest, p);
        assert ([e] + Concerning(rest, p))[1..] == Concerning(rest, p);
        assert Entry(PlayoutStep(m, e), p) == Entry(PlayoutStep(n, e), p);
        PeersAreIndependent(PlayoutStep(m, e), PlayoutStep(n, e), rest, p);
      } else {
        assert Concerning(events, p) == Concerning(rest, p);
        PeersAreIndependent(PlayoutStep(m, e), n, rest, p);
      }
    }
  }

  // ----- What every entry is

  /** A peer's own frames and slots since it was last absent: nothing until it sends,
      and nothing again once a slot leaves its buffer idle, or it is forgotten or cleared. */
  ghost function Life(events: seq<PlayoutEvent>, p: Peer): Option<seq<Event>> {
    if events == [] then None
    else
      var before := Life(events[..|events| - 1], p);
      match events[|events| - 1]
      case Accept(q, f) =>
        if q != p then before
        else if before.None? then Some([Arrive(f)]) else Some(before.value + [Arrive(f)])
      case TickAll =>
        if before.None? || IsIdle(After(FRESH, before.value + [Slot])) then None
        else Some(before.value + [Slot])
      case Forget(q) => if q == p then None else before
      case Clear => None
  }

  lemma {:induction false} AfterSnoc(s: State, es: seq<Event>, e: Event)
    ensures After(s, es + [e]) == Step(After(s, es), e)
    decreases |es|
  {
    if es == [] {
      assert [] + [e] == [e] && [e][1..] == [];
      assert After(s, [e]) == After(Step(s, e), []);
    } else {
      assert (es + [e])[1..] == es[1..] + [e];
      AfterSnoc(Step(s, es[0]), es[1..], e);
    }
  }

  lemma {:induction false} PlayoutRunSnoc(m: map<Peer, State>, events: seq<PlayoutEvent>, e: PlayoutEvent)
    ensures PlayoutRun(m, events + [e]) == PlayoutStep(PlayoutRun(m, events), e)
    decreases |events|
  {
    if events == [] {
      assert [] + [e] == [e] && [e][1..] == [];
      assert PlayoutRun(m, [e]) == PlayoutRun(PlayoutStep(m, e), []);
    } else {
      assert (events + [e])[1..] == events[1..] + [e];
      PlayoutRunSnoc(PlayoutStep(m, events[0]), events[1..], e);
    }
  }

  /** What the map holds for `p` is what those events alone make of a fresh buffer. */
  ghost predicate LivesAs(m: map<Peer, State>, p: Peer, life: Option<seq<Event>>) {
    Entry(m, p) == if life.None? then None else Some(After(FRESH, life.value))
  }

  /** After every run a peer is tracked exactly as long as its life lasts, and its buffer
      is a fresh one to which its own frames and slots since then have happened. */
  lemma {:induction false} EntryIsItsLife(events: seq<PlayoutEvent>, p: Peer)
    ensures LivesAs(PlayoutRun(map[], events), p, Life(events, p))
  {
    if events != [] {
      var n := |events| - 1;
      var init, e := events[..n], events[n];
      assert events == init + [e];
      EntryIsItsLife(init, p);
      PlayoutRunSnoc(map[], init, e);
      EmptyIsTracked();
      RunTracked(map[], init);
      LifeStep(PlayoutRun(map[], init), Life(init, p), e, p);
    }
  }

  lemma EmptyIsTracked()
    ensures Tracked(map[])
  {
  }

  lemma LifeStep(m: map<Peer, State>, before: Option<seq<Event>>, e: PlayoutEvent, p: Peer)
    requires LivesAs(m, p, before) && Tracked(m)
    ensures e.Accept? && e.peer == p ==>
              LivesAs(PlayoutStep(m, e), p, Some((if before.None? then [] else before.value) + [Arrive(e.frame)]))
    ensures e.Accept? && e.peer != p ==> LivesAs(PlayoutStep(m, e), p, before)
    ensures e.TickAll? ==>
              LivesAs(PlayoutStep(m, e), p,
                      if before.None? || IsIdle(After(FRESH, before.value + [Slot])) then None
                      else Some(before.value + [Slot]))
    ensures e.Forget? ==> LivesAs(PlayoutStep(m, e), p, if e.peer == p then None else before)
    ensures e.Clear? ==> LivesAs(PlayoutStep(m, e), p, None)
  {
    hide After, Push, Tick, Valid;
    var es := if before.None? then [] else before.value;
    AfterNothing();
    if e.Accept? { AfterSnoc(FRESH, es, Arrive(e.frame)); }
    if e.TickAll? && before.Some? {
      AfterSnoc(FRESH, es, Slot);
      IdleSaysSo(m[p]);
    }
  }

  lemma AfterNothing()
    ensures After(FRESH, []) == FRESH
  {
  }

  /** A slot that leaves the buffer idle reports nothing. */
  lemma IdleSaysSo(s: State)
    requires Valid(s) && !IsIdle(s)
    ensures IsIdle(Tick(s).0) ==> Tick(s).1.Idle?
  {
    SlotsLeftDecreases(s);
  }

  // ----- A slot, one peer at a time

  function TickedOne(m: map<Peer, State>, p: Peer): map<Peer, State>
    requires p in m
  {
    if Dropped(m[p]) then m - {p} else m[p := Tick(m[p]).0]
  }

  ghost function TickedExcept(m: map<Peer, State>, todo: set<Peer>): map<Peer, State> {
    map p | p in m && (p in todo || !Dropped(m[p])) :: if p in todo then m[p] else Tick(m[p]).0
  }

  lemma NoneTicked(m: map<Peer, State>)
    ensures TickedExcept(m, m.Keys) == m
  {
  }

  lemma AllTicked(m: map<Peer, State>)
    ensures TickedExcept(m, {}) == Ticked(m)
  {
  }

  lemma TickedOneMore(m: map<Peer, State>, todo: set<Peer>, p: Peer)
    requires p in todo && todo <= m.Keys
    ensures p in TickedExcept(m, todo) && TickedExcept(m, todo)[p] == m[p]
    ensures TickedOne(TickedExcept(m, todo), p) == TickedExcept(m, todo - {p})
  {
  }

  /** `out` reports each peer of `done` that is heard, once. */
  ghost predicate Reports(m: map<Peer, State>, done: set<Peer>, out: seq<(Peer, Action)>) {
    && (forall p, a :: (p, a) in out <==> p in done && p in m && Tick(m[p]).1 == a && !a.Idle?)
    && (forall i, j | 0 <= i < j < |out| :: out[i].0 != out[j].0)
  }

  lemma ReportOneMore(m: map<Peer, State>, done: set<Peer>, out: seq<(Peer, Action)>, p: Peer)
    requires p in m && p !in done && Reports(m, done, out)
    ensures Reports(m, done + {p}, if Tick(m[p]).1.Idle? then out else out + [(p, Tick(m[p]).1)])
  {
    assert forall i | 0 <= i < |out| :: (out[i].0, out[i].1) in out;
  }

  // ----- As an object

  /** The map owns its buffers, so an entry is a buffer's value, and a buffer's
      methods are the functions that class JitterBuffer is proved to compute. */
  class ContentPlayout {
    var buffers: map<Peer, State>

    constructor ()
      ensures buffers == map[]
    {
      buffers := map[];
    }

    method Accept(peer: Peer, frame: Frame)
      modifies this
      ensures buffers == Accepted(old(buffers), peer, frame)
    {
      if peer !in buffers {
        buffers := buffers[peer := FRESH];
      }
      buffers := buffers[peer := Push(buffers[peer], frame)];
    }

    /** `retain` over the buffers in whatever order the map yields them. */
    method Tick() returns (out: seq<(Peer, Action)>)
      modifies this
      ensures buffers == Ticked(old(buffers))
      ensures Reports(old(buffers), old(buffers).Keys, out)
    {
      ghost var v0 := buffers;
      var todo := buffers.Keys;
      out := [];
      NoneTicked(v0);
      while todo != {}
        invariant todo <= v0.Keys
        invariant buffers == TickedExcept(v0, todo)
        invariant Reports(v0, v0.Keys - todo, out)
        decreases |todo|
      {
        var p :| p in todo;
        TickedOneMore(v0, todo, p);
        ghost var done := v0.Keys - todo;
        ReportOneMore(v0, done, out, p);
        var (buffer, action) := JitterModel.Tick(buffers[p]);
        buffers := buffers[p := buffer];
        if action.Idle? {
          if IsIdle(buffer) {
            buffers := buffers - {p};
          }
        } else {
          out := out + [(p, action)];
        }
        todo := todo - {p};
        assert v0.Keys - todo == done + {p};
      }
      AllTicked(v0);
      assert v0.Keys - {} == v0.Keys;
    }

    method Forget(peer: Peer)
      modifies this
      ensures buffers == old(buffers) - {peer}
    {
      buffers := buffers - {peer};
    }

    method Clear()
      modifies this
      ensures buffers == map[]
    {
      buffers := map[];
    }
  }
}
