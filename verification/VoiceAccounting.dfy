/**
 Conservation of empty slots and safety of the voice queues, over every run of
 the controller.  A ledger kept beside the controller records what the program
 itself forgets: every packet accepted, every position played, and where each
 empty slot went.
 */
module VoiceAccounting {
  import opened Machine
  import opened VoiceModel
  import opened AdaptiveControl
  import opened AdaptiveRecovery

  // ----- Sums over maps

  ghost function Sum(m: map<Peer, nat>): nat
    decreases |m|
  {
    if m == map[] then 0
    else
      var k :| k in m;
      m[k] + Sum(m - {k})
  }

  lemma {:induction false} SumRemove(m: map<Peer, nat>, k: Peer)
    ensures Sum(m) == Get(m, k) + Sum(m - {k})
    decreases |m|
  {
    if k !in m {
      assert m - {k} == m;
    } else {
      var j :| j in m && Sum(m) == m[j] + Sum(m - {j});
      if j != k {
        SumRemove(m - {j}, k);
        SumRemove(m - {k}, j);
        assert m - {j} - {k} == m - {k} - {j};
      }
    }
  }

  lemma SumUpdate(m: map<Peer, nat>, k: Peer, n: nat)
    ensures Sum(m[k := n]) + Get(m, k) == Sum(m) + n
  {
    SumRemove(m, k);
    SumRemove(m[k := n], k);
    assert m[k := n] - {k} == m - {k};
  }

  // ----- The ledger

  datatype Ledger = Ledger(
    accepted: map<Peer, seq<Packet>>,  // since the peer's queue was created
    played: map<Peer, seq<nat>>,       // positions in `accepted`, in playing order
    served: nat,                       // frames handed to the decoder
    handed: nat,                       // empty slots handed out
    charged: map<Peer, nat>,           // of those, counted as underruns
    discarded: nat,                    // of those, put down to a pause or to leaving
    closedUnderruns: nat,              // the counters' totals over finished windows
    closedFrames: nat)

  const EMPTY: Ledger := Ledger(map[], map[], 0, 0, map[], 0, 0, 0)

  function Accepted(l: Ledger, p: Peer): seq<Packet> {
    if p in l.accepted then l.accepted[p] else []
  }

  function Played(l: Ledger, p: Peer): seq<nat> {
    if p in l.played then l.played[p] else []
  }

  function LogAudio(v: Voice, l: Ledger, p: Peer, packet: Packet): Ledger {
    var known := p in v.queues;
    l.(accepted := l.accepted[p := (if known then Accepted(l, p) else []) + [packet]],
       played := l.played[p := if known then Played(l, p) else []],
       charged := l.charged[p := Get(l.charged, p) + Charge(v, p)],
       discarded := l.discarded + Get(v.dry, p) - Charge(v, p))
  }

  function LogServe(v: Voice, l: Ledger, p: Peer, now: nat): Ledger {
    match SlotOutcome(v, p, now)
    case Buffering => l
    case WentSilent => l
    case Served(Some(_)) =>
      if |Queue(v, p)| <= |Accepted(l, p)| then
        l.(served := l.served + 1,
           played := l.played[p := Played(l, p) + [|Accepted(l, p)| - |Queue(v, p)|]])
      else l
    case Served(None) => l.(handed := l.handed + 1)
  }

  function LogRelease(v: Voice, l: Ledger, p: Peer): Ledger {
    l.(discarded := l.discarded + Get(v.dry, p))
  }

  function LogServeAll(v: Voice, l: Ledger, order: seq<Peer>, now: nat): Ledger
    requires forall p | p in order :: p in v.queues
    decreases |order|
  {
    if order == [] then l
    else
      var k := |order| - 1;
      assert forall q | q in order[..k] :: q in order;
      LogServe(ServeAll(v, order[..k], now).0, LogServeAll(v, l, order[..k], now), order[k], now)
  }

  function LogReleaseAll(v: Voice, l: Ledger, peers: seq<Peer>): Ledger {
    if peers == [] then l
    else LogRelease(ReleaseAll(v, peers[..|peers| - 1]), LogReleaseAll(v, l, peers[..|peers| - 1]), peers[|peers| - 1])
  }

  function LogPlayout(v: Voice, l: Ledger, order: seq<Peer>, now: nat): Ledger
    requires forall p | p in order :: p in v.queues
  {
    var (v1, slots) := ServeAll(v, order, now);
    LogReleaseAll(v1, LogServeAll(v, l, order, now), slots.silent)
  }

  function Log(c: Controller, l: Ledger, e: Event): Ledger
    requires e.PlayoutSlot? ==> forall p | p in e.order :: p in c.voice.queues
  {
    match e
    case AudioArrives(p, packet, _) => LogAudio(c.voice, l, p, packet)
    case PlayoutSlot(order, now) => if c.control.audioLive then LogPlayout(c.voice, l, order, now) else l
    case PeerLeaves(p) => LogRelease(c.voice, l, p)
    case WindowEnds => 
      l.(closedUnderruns := l.closedUnderruns + c.voice.underruns, closedFrames := l.closedFrames + c.voice.frames)
    case _ => l
  }

  function LogRun(c: Controller, l: Ledger, events: seq<Event>): Ledger
    requires PossibleRun(c, events)
    decreases |events|
  {
    if events == [] then l else LogRun(Step(c, events[0]), Log(c, l, events[0]), events[1..])
  }

  // ----- What every state keeps

  /** A dry peer has started and has nothing queued; queues are bounded. */
  ghost predicate QueuesOk(v: Voice) {
    && v.started <= v.queues.Keys
    && (forall p | p in v.dry :: p in v.started && Queue(v, p) == [])
    && (forall p | p in v.queues :: |v.queues[p]| <= 160)
    && v.underruns <= v.frames
  }

  predicate IsSuffix(q: seq<Packet>, s: seq<Packet>) {
    |q| <= |s| && s[|s| - |q|..] == q
  }

  predicate Increasing(s: seq<nat>, bound: nat) {
    && (forall i, j | 0 <= i < j < |s| :: s[i] < s[j])
    && (forall i | 0 <= i < |s| :: s[i] < bound)
  }

  ghost predicate PeerInOrder(queue: seq<Packet>, accepted: seq<Packet>, played: seq<nat>) {
    IsSuffix(queue, accepted) && Increasing(played, |accepted| - |queue|)
  }

  /** What is queued is the end of what was accepted, and what was played came
      before it, in order, each packet at most once. */
  ghost predicate InOrder(v: Voice, l: Ledger) {
    forall p | p in v.queues :: PeerInOrder(v.queues[p], Accepted(l, p), Played(l, p))
  }

  /** Every empty slot handed out is an underrun, a pause, or still undecided. */
  ghost predicate Conserved(v: Voice, l: Ledger) {
    && l.handed == Sum(l.charged) + l.discarded + Sum(v.dry)
    && l.closedUnderruns + v.underruns == Sum(l.charged)
    && l.closedFrames + v.frames == l.served + Sum(l.charged)
  }

  ghost predicate BooksOk(v: Voice, l: Ledger) {
    QueuesOk(v) && InOrder(v, l) && Conserved(v, l)
  }

  // ----- Audio arriving

  lemma CappedSuffix(q: seq<Packet>, s: seq<Packet>, packet: Packet, n: nat)
    requires IsSuffix(q, s) && n > 0
    ensures var q' := Capped(q + [packet], n);
            IsSuffix(q', s + [packet]) && 0 < |q'| <= n && |q'| <= |q| + 1
  {
    var t := s + [packet];
    assert t[|t| - |q| - 1..] == q + [packet];
    var q' := Capped(q + [packet], n);
    assert t[|t| - |q'|..] == q';
  }

  lemma IncreasingWeaker(s: seq<nat>, a: nat, b: nat)
    requires Increasing(s, a) && a <= b
    ensures Increasing(s, b)
  {
  }

  lemma AudioKeepsQueues(v: Voice, p: Peer, packet: Packet, now: nat)
    requires QueuesOk(v) && v.depth <= 20
    ensures QueuesOk(Audio(v, p, packet, now))
  {
    hide IsSuffix;
    var v' := Audio(v, p, packet, now);
    assert forall q | q in v'.dry :: q in v.dry && q != p;
    assert forall q | q in v'.queues && q != p :: v'.queues[q] == v.queues[q];
  }

  lemma OthersInOrder(v: Voice, l: Ledger, v': Voice, l': Ledger, p: Peer)
    requires InOrder(v, l) && p in v'.queues
    requires v'.queues.Keys <= v.queues.Keys + {p}
    requires forall q | q in v'.queues && q != p ::
      v'.queues[q] == v.queues[q] && Accepted(l', q) == Accepted(l, q) && Played(l', q) == Played(l, q)
    requires PeerInOrder(v'.queues[p], Accepted(l', p), Played(l', p))
    ensures InOrder(v', l')
  {
    hide PeerInOrder, Accepted, Played;
  }

  lemma AudioKeepsOrder(v: Voice, l: Ledger, p: Peer, packet: Packet, now: nat)
    requires InOrder(v, l)
    ensures InOrder(Audio(v, p, packet, now), LogAudio(v, l, p, packet))
  {
    hide InOrder, Increasing, IsSuffix, Capped;
    var v', l' := Audio(v, p, packet, now), LogAudio(v, l, p, packet);
    AudioInOrder(v, l, p, packet, now);
    OthersInOrder(v, l, v', l', p);
  }

  lemma AudioInOrder(v: Voice, l: Ledger, p: Peer, packet: Packet, now: nat)
    requires InOrder(v, l)
    ensures var v', l' := Audio(v, p, packet, now), LogAudio(v, l, p, packet);
            PeerInOrder(v'.queues[p], Accepted(l', p), Played(l', p))
  {
    var acc := if p in v.queues then Accepted(l, p) else [];
    var played := if p in v.queues then Played(l, p) else [];
    assert PeerInOrder(Queue(v, p), acc, played) by { EmptyInOrder(); }
    PushInOrder(Queue(v, p), acc, played, packet, Max(v.depth * 8, 16));
    AudioParts(v, l, p, packet, now, acc, played);
  }

  lemma AudioParts(v: Voice, l: Ledger, p: Peer, packet: Packet, now: nat, acc: seq<Packet>, played: seq<nat>)
    requires acc == if p in v.queues then Accepted(l, p) else []
    requires played == if p in v.queues then Played(l, p) else []
    ensures var v', l' := Audio(v, p, packet, now), LogAudio(v, l, p, packet);
            && p in v'.queues && v'.queues[p] == Capped(Queue(v, p) + [packet], Max(v.depth * 8, 16))
            && Accepted(l', p) == acc + [packet] && Played(l', p) == played
  {
  }

  lemma PushInOrder(q: seq<Packet>, acc: seq<Packet>, played: seq<nat>, packet: Packet, n: nat)
    requires PeerInOrder(q, acc, played) && n > 0
    ensures PeerInOrder(Capped(q + [packet], n), acc + [packet], played)
  {
    CappedSuffix(q, acc, packet, n);
    IncreasingWeaker(played, |acc| - |q|, |acc + [packet]| - |Capped(q + [packet], n)|);
  }

  lemma EmptyInOrder()
    ensures PeerInOrder([], [], [])
  {
  }

  lemma AudioConserves(v: Voice, l: Ledger, p: Peer, packet: Packet, now: nat)
    requires Conserved(v, l)
    ensures Conserved(Audio(v, p, packet, now), LogAudio(v, l, p, packet))
  {
    SumRemove(v.dry, p);
    SumUpdate(l.charged, p, Get(l.charged, p) + Charge(v, p));
  }

  // ----- Serving one peer

  /** A frame handed to the decoder is the oldest accepted one not yet played or shed. */
  lemma ServedIsNext(v: Voice, l: Ledger, p: Peer, now: nat)
    requires p in v.queues && InOrder(v, l)
    requires var o := SlotOutcome(v, p, now); o.Served? && o.frame.Some?
    ensures |Queue(v, p)| <= |Accepted(l, p)|
    ensures var at := |Accepted(l, p)| - |Queue(v, p)|;
            at < |Accepted(l, p)| && SlotOutcome(v, p, now) == Served(Some(Accepted(l, p)[at]))
  {
    var q, acc := v.queues[p], Accepted(l, p);
    assert acc[|acc| - |q|..][0] == q[0];
  }

  lemma PopInOrder(q: seq<Packet>, acc: seq<Packet>, played: seq<nat>)
    requires q != [] && PeerInOrder(q, acc, played)
    ensures |q| <= |acc| && PeerInOrder(q[1..], acc, played + [|acc| - |q|])
  {
  }

  lemma ServeKeepsQueues(v: Voice, p: Peer, now: nat)
    requires QueuesOk(v) && p in v.queues
    ensures QueuesOk(ServePeer(v, p, now))
  {
  }

  lemma ServeKeepsOrder(v: Voice, l: Ledger, p: Peer, now: nat)
    requires InOrder(v, l) && p in v.queues
    ensures InOrder(ServePeer(v, p, now), LogServe(v, l, p, now))
  {
    hide PeerInOrder;
    var v', l' := ServePeer(v, p, now), LogServe(v, l, p, now);
    var o := SlotOutcome(v, p, now);
    if o.Served? && o.frame.Some? {
      PopInOrder(v.queues[p], Accepted(l, p), Played(l, p));
      OthersInOrder(v, l, v', l', p);
    } else {
      assert v'.queues == v.queues && l'.accepted == l.accepted && l'.played == l.played;
    }
  }

  lemma ServeConserves(v: Voice, l: Ledger, p: Peer, now: nat)
    requires InOrder(v, l) && Conserved(v, l) && p in v.queues
    ensures Conserved(ServePeer(v, p, now), LogServe(v, l, p, now))
  {
    var o := SlotOutcome(v, p, now);
    if o.Served? {
      if o.frame.Some? { ServedIsNext(v, l, p, now); } else { SumUpdate(v.dry, p, Get(v.dry, p) + 1); }
    }
  }

  lemma ReleaseKeepsOrder(v: Voice, l: Ledger, p: Peer)
    requires InOrder(v, l)
    ensures InOrder(Release(v, p), LogRelease(v, l, p))
  {
    hide PeerInOrder;
  }

  lemma ReleaseKeepsQueues(v: Voice, p: Peer)
    requires QueuesOk(v)
    ensures QueuesOk(Release(v, p))
  {
    var v' := Release(v, p);
    assert forall q | q in v'.queues :: v'.queues[q] == v.queues[q];
  }

  lemma ReleaseConserves(v: Voice, l: Ledger, p: Peer)
    requires Conserved(v, l)
    ensures Conserved(Release(v, p), LogRelease(v, l, p))
  {
    SumRemove(v.dry, p);
  }

  lemma ReleaseKeeps(v: Voice, l: Ledger, p: Peer)
    requires BooksOk(v, l)
    ensures BooksOk(Release(v, p), LogRelease(v, l, p))
  {
    hide Release, LogRelease, QueuesOk, InOrder, Conserved;
    ReleaseKeepsQueues(v, p);
    ReleaseKeepsOrder(v, l, p);
    ReleaseConserves(v, l, p);
  }

  // ----- One slot for everybody

  lemma {:induction false} ServeAllKeeps(v: Voice, l: Ledger, order: seq<Peer>, now: nat)
    requires BooksOk(v, l) && forall p | p in order :: p in v.queues
    ensures BooksOk(ServeAll(v, order, now).0, LogServeAll(v, l, order, now))
    decreases |order|
  {
    hide BooksOk, ServePeer, LogServe;
    if order != [] {
      var k := |order| - 1;
      var p := order[k];
      assert forall q | q in order[..k] :: q in order;
      ServeAllKeeps(v, l, order[..k], now);
      var v1, l1 := ServeAll(v, order[..k], now).0, LogServeAll(v, l, order[..k], now);
      ServeKeeps(v1, l1, p, now);
    }
  }

  lemma ServeKeeps(v: Voice, l: Ledger, p: Peer, now: nat)
    requires BooksOk(v, l) && p in v.queues
    ensures BooksOk(ServePeer(v, p, now), LogServe(v, l, p, now))
  {
    hide ServePeer, LogServe, QueuesOk, InOrder, Conserved;
    ServeKeepsQueues(v, p, now);
    ServeKeepsOrder(v, l, p, now);
    ServeConserves(v, l, p, now);
  }

  lemma {:induction false} ReleaseAllKeeps(v: Voice, l: Ledger, peers: seq<Peer>)
    requires BooksOk(v, l)
    ensures BooksOk(ReleaseAll(v, peers), LogReleaseAll(v, l, peers))
  {
    hide BooksOk, Release, LogRelease;
    if peers != [] {
      var k := |peers| - 1;
      ReleaseAllKeeps(v, l, peers[..k]);
      ReleaseKeeps(ReleaseAll(v, peers[..k]), LogReleaseAll(v, l, peers[..k]), peers[k]);
    }
  }

  // ----- What a slot means for each peer, whatever order the map yields them in

  datatype View = View(known: bool, queue: seq<Packet>, started: bool, dry: nat)

  function ViewOf(v: Voice, p: Peer): View {
    View(p in v.queues, Queue(v, p), p in v.started, Get(v.dry, p))
  }

  lemma ServeOther(v: Voice, p: Peer, q: Peer, now: nat)
    requires p in v.queues && p != q
    ensures ViewOf(ServePeer(v, p, now), q) == ViewOf(v, q)
  {
  }

  lemma ServeSame(v: Voice, w: Voice, p: Peer, now: nat)
    requires p in v.queues && p in w.queues
    requires ViewOf(v, p) == ViewOf(w, p) && v.depth == w.depth && v.lastAudio == w.lastAudio
    ensures SlotOutcome(v, p, now) == SlotOutcome(w, p, now)
    ensures ViewOf(ServePeer(v, p, now), p) == ViewOf(ServePeer(w, p, now), p)
  {
  }

  lemma {:induction false} ServeAllView(v: Voice, order: seq<Peer>, now: nat, p: Peer)
    requires Enumerates(order, v.queues.Keys * (set q | q in order))
    ensures forall q | q in order :: q in v.queues
    ensures var (v1, slots) := ServeAll(v, order, now);
            && v1.depth == v.depth && v1.lastAudio == v.lastAudio
            && ViewOf(v1, p) == (if p in order then ViewOf(ServePeer(v, p, now), p) else ViewOf(v, p))
            && (p in slots.silent <==> p in order && SlotOutcome(v, p, now).WentSilent?)
            && (forall f :: (p, f) in slots.frames <==> p in order && SlotOutcome(v, p, now) == Served(f))
    decreases |order|
  {
    if order != [] {
      var k := |order| - 1;
      var q := order[k];
      var init := order[..k];
      assert order == init + [q];
      assert q !in init;
      forall r | r in init ensures r in v.queues { assert r in order; }
      assert forall r :: r in init <==> r in v.queues.Keys * (set x | x in init);
      ServeAllView(v, init, now, p);
      ServeAllView(v, init, now, q);
      var (v1, slots1) := ServeAll(v, init, now);
      assert q in order && q in v.queues && q in v1.queues;
      ServeKeepsContext(v1, q, now);
      ServeSame(v1, v, q, now);
      if p != q { ServeOther(v1, q, p, now); }
    }
  }

  lemma {:induction false} ReleaseAllView(v: Voice, peers: seq<Peer>, p: Peer)
    ensures var v' := ReleaseAll(v, peers);
            ViewOf(v', p) == (if p in peers then View(false, [], false, 0) else ViewOf(v, p))
  {
    if peers != [] {
      var k := |peers| - 1;
      assert peers == peers[..k] + [peers[k]];
      ReleaseAllView(v, peers[..k], p);
    }
  }

  /** One slot, peer by peer: a peer still filling its cushion is left alone; a peer
      with audio plays its oldest packet, and only that one; a started peer with
      none is concealed and its empty slot held; and only a peer with nothing
      queued and nothing heard for 600 ms is let go. */
  lemma PlayoutForPeer(v: Voice, order: seq<Peer>, now: nat, p: Peer)
    requires Enumerates(order, v.queues.Keys) && QueuesOk(v) && v.depth > 0 && p in v.queues
    ensures forall q | q in order :: q in v.queues
    ensures var (v', slots) := Playout(v, order, now);
            var filling := p !in v.started && |v.queues[p]| < v.depth;
            if filling then
              ViewOf(v', p) == ViewOf(v, p) && (forall f :: (p, f) !in slots.frames)
            else if v.queues[p] != [] then
              && ViewOf(v', p) == View(true, v.queues[p][1..], true, 0)
              && (forall f :: (p, f) in slots.frames <==> f == Some(v.queues[p][0]))
            else if RecentlyActive(v, p, now) then
              && ViewOf(v', p) == View(true, [], true, Get(v.dry, p) + 1)
              && (forall f :: (p, f) in slots.frames <==> f == None)
            else
              && ViewOf(v', p) == View(false, [], false, 0) && p in slots.silent
              && (forall f :: (p, f) !in slots.frames)
  {
    assert v.queues.Keys * (set q | q in order) == v.queues.Keys;
    ServeAllView(v, order, now, p);
    var (v1, slots) := ServeAll(v, order, now);
    ReleaseAllView(v1, slots.silent, p);
    assert p in v.dry ==> Queue(v, p) == [];
    ServeOutcomes(v, p, now);
  }

  lemma ServeOutcomes(v: Voice, p: Peer, now: nat)
    requires p in v.queues
    ensures var o := SlotOutcome(v, p, now);
            var w := ViewOf(ServePeer(v, p, now), p);
            && (o.Buffering? ==> w == ViewOf(v, p))
            && (o.Served? && o.frame.Some? ==>
                  Queue(v, p) != [] && o.frame.value == Queue(v, p)[0]
                  && w == View(true, Queue(v, p)[1..], true, Get(v.dry, p)))
            && (o.Served? && o.frame.None? ==> w == View(true, Queue(v, p), true, Get(v.dry, p) + 1))
  {
  }

  // ----- Whole runs

  ghost predicate ControllerOk(c: Controller, l: Ledger) {
    BooksOk(c.voice, l) && DepthOk(c) && ControlOk(c.control)
  }

  lemma PlayoutKeeps(v: Voice, l: Ledger, order: seq<Peer>, now: nat)
    requires BooksOk(v, l) && forall p | p in order :: p in v.queues
    ensures BooksOk(Playout(v, order, now).0, LogPlayout(v, l, order, now))
    ensures Playout(v, order, now).0.depth == v.depth
  {
    hide BooksOk;
    ServeAllKeeps(v, l, order, now);
    var (v1, slots) := ServeAll(v, order, now);
    ReleaseAllKeeps(v1, LogServeAll(v, l, order, now), slots.silent);
    ServeAllKeepsDepth(v, order, now);
    ReleaseAllKeepsDepth(v1, slots.silent);
  }

  lemma MetricsKeeps(c: Controller, l: Ledger)
    requires ControllerOk(c, l)
    ensures ControllerOk(MetricsTick(c), Log(c, l, WindowEnds))
  {
    hide PeerInOrder, Sum;
    DepthStep(c);
    var c1 := AdaptJitter(c);
    assert c1.voice.queues == c.voice.queues && c1.voice.dry == c.voice.dry;
    assert ControlOk(c1.control);
    RoomKeepsOk(c1.control, c1.voice.frames, c1.voice.underruns);
  }

  lemma AudioKeeps(v: Voice, l: Ledger, p: Peer, packet: Packet, now: nat)
    requires BooksOk(v, l) && v.depth <= 20
    ensures BooksOk(Audio(v, p, packet, now), LogAudio(v, l, p, packet))
  {
    hide Audio, LogAudio, QueuesOk, InOrder, Conserved;
    AudioKeepsQueues(v, p, packet, now);
    AudioKeepsOrder(v, l, p, packet, now);
    AudioConserves(v, l, p, packet, now);
  }

  lemma StepKeeps(c: Controller, l: Ledger, e: Event)
    requires ControllerOk(c, l) && Possible(c, e)
    ensures ControllerOk(Step(c, e), Log(c, l, e))
  {
    hide ControllerOk;
    match e
    case AudioArrives(p, packet, now) => AudioStepKeeps(c, l, p, packet, now);
    case PlayoutSlot(order, now) => PlayoutStepKeeps(c, l, order, now);
    case PeerLeaves(p) => LeaveStepKeeps(c, l, p);
    case SpeakersExpire(now) => ExpireStepKeeps(c, l, now);
    case WindowEnds => MetricsKeeps(c, l);
    case _ => ControlStepKeeps(c, l, e);
  }

  lemma PlayoutStepKeeps(c: Controller, l: Ledger, order: seq<Peer>, now: nat)
    requires ControllerOk(c, l) && forall p | p in order :: p in c.voice.queues
    ensures ControllerOk(c.(voice := Playout(c.voice, order, now).0), LogPlayout(c.voice, l, order, now))
  {
    hide BooksOk, ControlOk, Playout, LogPlayout;
    PlayoutKeeps(c.voice, l, order, now);
  }

  lemma LeaveStepKeeps(c: Controller, l: Ledger, p: Peer)
    requires ControllerOk(c, l)
    ensures ControllerOk(c.(voice := RemovePeer(c.voice, p)), LogRelease(c.voice, l, p))
  {
    hide BooksOk, ControlOk, LogRelease;
    ReleaseKeeps(c.voice, l, p);
    ForgetKeeps(c.voice, l, p);
  }

  lemma ExpireStepKeeps(c: Controller, l: Ledger, now: nat)
    requires ControllerOk(c, l)
    ensures ControllerOk(c.(voice := Expire(c.voice, now)), l)
  {
    hide ControlOk, PeerInOrder;
  }

  lemma ControlStepKeeps(c: Controller, l: Ledger, e: Event)
    requires ControllerOk(c, l) && Possible(c, e)
    requires e.QualityReport? || e.PinDepth? || e.ChooseBitrate? || e.EnterRoom? || e.LeaveRoom? || e.AudioDevice?
    ensures ControllerOk(Step(c, e), Log(c, l, e))
  {
    hide PeerInOrder, Sum;
    if e.QualityReport? { QualityKeepsOk(c.control, e.lossPct); }
    if e.ChooseBitrate? { BitrateKeepsOk(c.control, e.bps); }
  }

  lemma AudioStepKeeps(c: Controller, l: Ledger, p: Peer, packet: Packet, now: nat)
    requires ControllerOk(c, l)
    ensures ControllerOk(c.(voice := Audio(c.voice, p, packet, now)), LogAudio(c.voice, l, p, packet))
  {
    hide BooksOk, ControlOk;
    AudioKeeps(c.voice, l, p, packet, now);
  }

  lemma ForgetKeeps(v: Voice, l: Ledger, p: Peer)
    requires BooksOk(Release(v, p), LogRelease(v, l, p))
    ensures BooksOk(RemovePeer(v, p), LogRelease(v, l, p))
  {
  }

  /** Over every run of the controller: empty slots are conserved, queues stay in
      order and bounded, underruns never outnumber frames, and therefore the loss
      average, the bitrate and the jitter depth stay in their ranges. */
  lemma {:induction false} EveryRunKeeps(c: Controller, l: Ledger, events: seq<Event>)
    requires ControllerOk(c, l) && PossibleRun(c, events)
    ensures ControllerOk(Run(c, events), LogRun(c, l, events))
    decreases |events|
  {
    hide ControllerOk, Step, Log;
    if events != [] {
      StepKeeps(c, l, events[0]);
      EveryRunKeeps(Step(c, events[0]), Log(c, l, events[0]), events[1..]);
    }
  }

  /** A new controller adapts a cushion of three packets and starts at 128 000. */
  lemma FreshIsOk()
    ensures ControllerOk(FRESH, EMPTY)
    ensures FRESH.voice.depth == 3 && FRESH.control.adaptive
    ensures FRESH.control.outgoing == FRESH.control.ceiling == 128_000
    ensures FRESH.voice.queues == map[] && !FRESH.control.roomMode && !FRESH.control.audioLive
  {
  }

  // ----- A peer that never sends again

  lemma {:induction false} ServingChargesNobody(v: Voice, l: Ledger, order: seq<Peer>, now: nat)
    requires forall p | p in order :: p in v.queues
    ensures LogServeAll(v, l, order, now).charged == l.charged
    decreases |order|
  {
    if order != [] {
      assert forall q | q in order[..|order| - 1] :: q in order;
      ServingChargesNobody(v, l, order[..|order| - 1], now);
    }
  }

  lemma {:induction false} ReleasingChargesNobody(v: Voice, l: Ledger, peers: seq<Peer>)
    ensures LogReleaseAll(v, l, peers).charged == l.charged
  {
    if peers != [] { ReleasingChargesNobody(v, l, peers[..|peers| - 1]); }
  }

  predicate SendsNothing(events: seq<Event>, p: Peer) {
    forall e | e in events :: !(e.AudioArrives? && e.peer == p)
  }

  /** A peer that sends nothing more adds no underruns, whatever else happens. */
  lemma {:induction false} SilenceIsNotLoss(c: Controller, l: Ledger, events: seq<Event>, p: Peer)
    requires PossibleRun(c, events) && SendsNothing(events, p)
    ensures Get(LogRun(c, l, events).charged, p) == Get(l.charged, p)
    decreases |events|
  {
    if events != [] {
      var e := events[0];
      assert e in events;
      SilentStep(c, l, e, p);
      SilenceIsNotLoss(Step(c, e), Log(c, l, e), events[1..], p);
    }
  }

  lemma SilentStep(c: Controller, l: Ledger, e: Event, p: Peer)
    requires Possible(c, e) && !(e.AudioArrives? && e.peer == p)
    ensures Get(Log(c, l, e).charged, p) == Get(l.charged, p)
  {
    if e.PlayoutSlot? {
      var v1 := ServeAll(c.voice, e.order, e.now);
      ServingChargesNobody(c.voice, l, e.order, e.now);
      ReleasingChargesNobody(v1.0, LogServeAll(c.voice, l, e.order, e.now), v1.1.silent);
    }
  }

  // ----- Single events

  /** An expiry forgets exactly the peers unheard for more than 600 ms, and touches
      nothing else. */
  lemma ExpiryIsExact(v: Voice, p: Peer, now: nat)
    ensures var v' := Expire(v, now);
            && (p in v'.lastAudio <==> p in v.lastAudio && now <= v.lastAudio[p] + 600)
            && (p in v'.lastAudio ==> v'.lastAudio[p] == v.lastAudio[p])
            && v' == v.(lastAudio := v'.lastAudio)
  {
  }

  /** A peer that leaves leaves nothing behind, and nobody else notices. */
  lemma LeavesNothing(v: Voice, p: Peer, q: Peer)
    requires p != q
    ensures var v' := RemovePeer(v, p);
            && ViewOf(v', p) == View(false, [], false, 0) && p !in v'.lastAudio
            && ViewOf(v', q) == ViewOf(v, q) && (q in v'.lastAudio <==> q in v.lastAudio)
            && (q in v.lastAudio ==> v'.lastAudio[q] == v.lastAudio[q])
            && v'.depth == v.depth && v'.frames == v.frames && v'.underruns == v.underruns
  {
  }

  /** Expiring the speaking indicator never decides a later slot: only peers
      already silent for longer are forgotten. */
  lemma ExpiryDecidesNothing(v: Voice, p: Peer, now: nat, later: nat)
    requires now <= later
    ensures SlotOutcome(Expire(v, now), p, later) == SlotOutcome(v, p, later)
  {
  }

  /** One packet: it is queued last, the oldest ones give way when the queue is at
      its limit, and nothing of anybody else's changes. */
  lemma AudioQueuesLast(v: Voice, p: Peer, packet: Packet, now: nat)
    ensures var v' := Audio(v, p, packet, now);
            var q, q' := Queue(v, p), Queue(v', p);
            var limit := if v.depth * 8 < 16 then 16 else v.depth * 8;
            && q' != [] && q'[|q'| - 1] == packet
            && (|q| < limit ==> q' == q + [packet])
            && (|q| >= limit ==> |q'| == limit && IsSuffix(q', q + [packet]))
            && (forall r | r != p :: ViewOf(v', r) == ViewOf(v, r))
            && (forall at :: RecentlyActive(v', p, at) <==> Elapsed(at, now) < 600)
  {
  }

  // ----- The control loop sees whole windows

  /** Events of the media path, which never touch the room's controls directly. */
  predicate MediaEvent(e: Event) {
    e.AudioArrives? || e.PlayoutSlot? || e.PeerLeaves? || e.SpeakersExpire? || e.WindowEnds?
  }

  /** The counters each metrics window closed with. */
  function WindowsOf(c: Controller, events: seq<Event>): seq<Window>
    requires PossibleRun(c, events)
    decreases |events|
  {
    if events == [] then []
    else (if events[0].WindowEnds? then [Window(c.voice.frames, c.voice.underruns)] else [])
         + WindowsOf(Step(c, events[0]), events[1..])
  }

  /** Everything the room bitrate depends on. */
  function Room(k: Control): Control {
    k.(lowStreak := 0)
  }

  lemma RoomIgnoresStreak(k: Control, frames: nat, underruns: nat)
    ensures Room(AdaptRoom(k, frames, underruns)) == AdaptRoom(Room(k), frames, underruns)
  {
  }

  lemma WindowAdapts(c: Controller)
    ensures Room(MetricsTick(c).control) == AdaptRoom(Room(c.control), c.voice.frames, c.voice.underruns)
  {
    RoomIgnoresStreak(c.control, c.voice.frames, c.voice.underruns);
    RoomIgnoresStreak(AdaptJitter(c).control, c.voice.frames, c.voice.underruns);
  }

  lemma MediaKeepsControl(c: Controller, e: Event)
    requires Possible(c, e) && MediaEvent(e) && !e.WindowEnds?
    ensures Step(c, e).control == c.control
  {
  }

  /** Through any amount of audio, playout and departures, the room's controls are
      driven by the window counters alone. */
  lemma {:induction false} RoomFollowsWindows(c: Controller, events: seq<Event>)
    requires PossibleRun(c, events) && forall e | e in events :: MediaEvent(e)
    ensures Room(Run(c, events).control) == RoomRun(Room(c.control), WindowsOf(c, events))
    decreases |events|
  {
    hide Step, MetricsTick, AdaptRoom, Room, MediaEvent;
    if events != [] {
      var e, rest := events[0], events[1..];
      assert e in events;
      RoomFollowsWindows(Step(c, e), rest);
      var more := WindowsOf(Step(c, e), rest);
      if e.WindowEnds? {
        WindowStep(c);
        assert ([Window(c.voice.frames, c.voice.underruns)] + more)[1..] == more;
      } else {
        MediaKeepsControl(c, e);
        assert [] + more == more;
      }
    }
  }

  lemma WindowStep(c: Controller)
    ensures Room(Step(c, WindowEnds).control) == AdaptRoom(Room(c.control), c.voice.frames, c.voice.underruns)
  {
    WindowAdapts(c);
  }

  /** Recovery of a live call: from any state a run can reach, windows with playout
      and no underruns return the bitrate to the user's ceiling within 26 windows
      after setup, however the audio in between arrives. */
  lemma CallRecovers(c: Controller, l: Ledger, events: seq<Event>)
    requires ControllerOk(c, l) && c.control.roomMode && c.control.audioLive
    requires PossibleRun(c, events) && forall e | e in events :: MediaEvent(e)
    requires Clean(WindowsOf(c, events)) && |WindowsOf(c, events)| >= c.control.warmup + 26
    ensures Run(c, events).control.outgoing == c.control.ceiling
    ensures Run(c, events).control.lossEma <= 4.0
  {
    RoomFollowsWindows(c, events);
    CleanRunRecovers(Room(c.control), WindowsOf(c, events));
  }
}
