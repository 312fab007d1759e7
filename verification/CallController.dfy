/**
 The call controller's audio state as the program writes it: maps, queues and
 counters updated in place.  Each handler is proved to compute the function of
 VoiceModel it stands for.
 */
module CallControllers {
  import opened Machine
  import opened VoiceModel

  /** One more peer served. */
  lemma ServeOneMore(v: Voice, order: seq<Peer>, p: Peer, now: nat)
    requires p in v.queues && forall q | q in order :: q in v.queues
    ensures forall q | q in order + [p] :: q in v.queues
    ensures var (v1, slots) := ServeAll(v, order, now);
            var outcome := SlotOutcome(v1, p, now);
            ServeAll(v, order + [p], now) == (ServePeer(v1, p, now), Recorded(slots, p, outcome))
  {
    assert (order + [p])[..|order|] == order;
  }

  lemma ServeNobody(v: Voice, now: nat)
    ensures ServeAll(v, [], now) == (v, Slots([], [])) && Enumerates([], {})
  {
  }

  lemma ReleaseOneMore(v: Voice, peers: seq<Peer>, i: nat)
    requires i < |peers|
    ensures ReleaseAll(v, peers[..i + 1]) == Release(ReleaseAll(v, peers[..i]), peers[i])
  {
    assert peers[..i + 1][..i] == peers[..i];
  }

  lemma EnumeratesOneMore(order: seq<Peer>, done: set<Peer>, p: Peer)
    requires Enumerates(order, done) && p !in done
    ensures Enumerates(order + [p], done + {p})
  {
  }

  lemma ChargeIsByDrySlots(v: Voice, w: Voice, p: Peer)
    requires v.dry == w.dry
    ensures Charge(v, p) == Charge(w, p)
  {
  }

  class CallController {
    var peerJitterQueues: map<Peer, seq<Packet>>
    var peerPlayoutStarted: set<Peer>  // the original's entries are only ever true
    var roomPeerLastAudio: map<Peer, nat>
    var peerDrySlots: map<Peer, nat>
    var jitterDepth: nat
    var playoutFrames: nat
    var playoutUnderruns: nat
    var jitterAdaptive: bool
    var jitterLowStreak: nat
    var roomMode: bool
    var audioLive: bool
    var abrWarmupTicks: nat
    var netLossEma: real
    var outgoingBitrate: nat
    var bitrateCeiling: nat

    ghost function Queues(): Voice
      reads this
    {
      Voice(peerJitterQueues, peerPlayoutStarted, roomPeerLastAudio, peerDrySlots,
            jitterDepth, playoutFrames, playoutUnderruns)
    }

    ghost function Rates(): Control
      reads this
    {
      Control(jitterAdaptive, jitterLowStreak, roomMode, audioLive, abrWarmupTicks,
              netLossEma, outgoingBitrate, bitrateCeiling)
    }

    ghost function Abstract(): Controller
      reads this
    {
      Controller(Queues(), Rates())
    }

    constructor ()
      ensures Abstract() == FRESH
    {
      peerJitterQueues, peerPlayoutStarted, roomPeerLastAudio, peerDrySlots := map[], {}, map[], map[];
      jitterDepth, playoutFrames, playoutUnderruns := 3, 0, 0;
      jitterAdaptive, jitterLowStreak, roomMode, audioLive, abrWarmupTicks := true, 0, false, false, 0;
      netLossEma, outgoingBitrate, bitrateCeiling := 0.0, DEFAULT_BITRATE, DEFAULT_BITRATE;
    }

    /** Settle the slots a resuming peer left dry: late audio, or a pause. */
    method SettleDrySlots(peer: Peer)
      modifies this`peerDrySlots, this`playoutFrames, this`playoutUnderruns
      ensures peerDrySlots == old(peerDrySlots) - {peer}
      ensures playoutFrames == old(playoutFrames) + Charge(old(Queues()), peer)
      ensures playoutUnderruns == old(playoutUnderruns) + Charge(old(Queues()), peer)
    {
      if peer in peerDrySlots {
        var dry := peerDrySlots[peer];
        peerDrySlots := peerDrySlots - {peer};
        if dry <= MAX_UNDERRUN_GAP_FRAMES {
          playoutFrames := playoutFrames + dry;
          playoutUnderruns := playoutUnderruns + dry;
        }
      } else {
        assert peerDrySlots == peerDrySlots - {peer};
      }
    }

    static method PopToDepth(pushed: seq<Packet>, maxDepth: nat) returns (queue: seq<Packet>)
      ensures queue == Capped(pushed, maxDepth)
    {
      queue := pushed;
      ghost var popped := 0;
      while |queue| > maxDepth
        invariant popped <= |pushed| && queue == pushed[popped..]
        invariant popped > 0 ==> |queue| >= maxDepth
        decreases |queue|
      {
        queue := queue[1..];
        popped := popped + 1;
      }
    }

    method HandleRoomAudio(peer: Peer, opusData: Packet, now: nat)
      modifies this
      ensures Queues() == Audio(old(Queues()), peer, opusData, now)
      ensures Rates() == old(Rates())
    {
      hide Charge, Capped, Max;
      ghost var v := Queues();
      roomPeerLastAudio := roomPeerLastAudio[peer := now];
      ChargeIsByDrySlots(v, Queues(), peer);
      SettleDrySlots(peer);
      var queue := if peer in peerJitterQueues then peerJitterQueues[peer] else [];
      queue := PopToDepth(queue + [opusData], Max(jitterDepth * 8, 16));
      peerJitterQueues := peerJitterQueues[peer := queue];
    }

    /** One peer's slot: what to do with it, and the state that leaves. */
    method ServeSlot(peer: Peer, now: nat) returns (outcome: Outcome)
      requires peer in peerJitterQueues
      modifies this`peerJitterQueues, this`peerPlayoutStarted, this`peerDrySlots, this`playoutFrames
      ensures outcome == SlotOutcome(old(Queues()), peer, now)
      ensures Queues() == ServePeer(old(Queues()), peer, now)
    {
      var recentlyActive := peer in roomPeerLastAudio && Elapsed(now, roomPeerLastAudio[peer]) < PEER_SILENCE_MS;
      var queue := peerJitterQueues[peer];
      if peer !in peerPlayoutStarted {
        if |queue| >= jitterDepth {
          peerPlayoutStarted := peerPlayoutStarted + {peer};
        } else {
          return Buffering;
        }
      }
      assert peerPlayoutStarted == old(peerPlayoutStarted) + {peer};
      if queue == [] && !recentlyActive {
        return WentSilent;
      }
      if queue != [] {
        peerJitterQueues := peerJitterQueues[peer := queue[1..]];
        playoutFrames := playoutFrames + 1;
        return Served(Some(queue[0]));
      }
      peerDrySlots := peerDrySlots[peer := (if peer in peerDrySlots then peerDrySlots[peer] else 0) + 1];
      return Served(None);
    }

    /** One 20 ms slot from every peer; the peers are visited in the order the map yields them. */
    method AdvanceVoiceQueues(now: nat) returns (slots: Slots, ghost order: seq<Peer>)
      modifies this`peerJitterQueues, this`peerPlayoutStarted, this`peerDrySlots, this`playoutFrames
      ensures Enumerates(order, old(peerJitterQueues).Keys)
      ensures forall p | p in order :: p in old(peerJitterQueues)
      ensures (Queues(), slots) == Playout(old(Queues()), order, now)
    {
      slots, order := ServeEveryPeer(now);
      ReleaseSilent(slots.silent);
    }

    method ServeEveryPeer(now: nat) returns (slots: Slots, ghost order: seq<Peer>)
      modifies this`peerJitterQueues, this`peerPlayoutStarted, this`peerDrySlots, this`playoutFrames
      ensures Enumerates(order, old(peerJitterQueues).Keys)
      ensures forall p | p in order :: p in old(peerJitterQueues)
      ensures (Queues(), slots) == ServeAll(old(Queues()), order, now)
    {
      hide SlotOutcome, ServePeer, ServeAll, Recorded, Enumerates;
      ghost var v := Queues();
      order := [];
      slots := Slots([], []);
      ServeNobody(v, now);
      var todo := peerJitterQueues.Keys;
      assert v.queues.Keys - todo == {};
      while todo != {}
        invariant todo <= v.queues.Keys && peerJitterQueues.Keys == v.queues.Keys
        invariant Enumerates(order, v.queues.Keys - todo)
        invariant forall p | p in order :: p in v.queues
        invariant (Queues(), slots) == ServeAll(v, order, now)
        decreases |todo|
      {
        var peer :| peer in todo;
        ServeOneMore(v, order, peer, now);
        EnumeratesOneMore(order, v.queues.Keys - todo, peer);
        assert v.queues.Keys - todo + {peer} == v.queues.Keys - (todo - {peer});
        var outcome := ServeSlot(peer, now);
        slots := Recorded(slots, peer, outcome);
        order := order + [peer];
        todo := todo - {peer};
      }
      assert v.queues.Keys - {} == v.queues.Keys;
    }

    method ReleaseSilent(peers: seq<Peer>)
      modifies this`peerJitterQueues, this`peerPlayoutStarted, this`peerDrySlots
      ensures Queues() == ReleaseAll(old(Queues()), peers)
    {
      hide Release;
      ghost var v1 := Queues();
      for i := 0 to |peers|
        invariant Queues() == ReleaseAll(v1, peers[..i])
      {
        ReleaseOneMore(v1, peers, i);
        ReleasePeer(peers[i]);
      }
      assert peers[..|peers|] == peers;
    }

    method ReleasePeer(peer: Peer)
      modifies this`peerJitterQueues, this`peerPlayoutStarted, this`peerDrySlots
      ensures Queues() == Release(old(Queues()), peer)
    {
      peerJitterQueues := peerJitterQueues - {peer};
      peerPlayoutStarted := peerPlayoutStarted - {peer};
      peerDrySlots := peerDrySlots - {peer};
    }

    method HandleRemovePeer(peer: Peer)
      modifies this`peerJitterQueues, this`peerPlayoutStarted, this`peerDrySlots, this`roomPeerLastAudio
      ensures Queues() == RemovePeer(old(Queues()), peer)
    {
      peerJitterQueues := peerJitterQueues - {peer};
      peerPlayoutStarted := peerPlayoutStarted - {peer};
      roomPeerLastAudio := roomPeerLastAudio - {peer};
      peerDrySlots := peerDrySlots - {peer};
    }

    /** The speaking tick forgets when long-silent peers were last heard. */
    method ExpireSpeakers(now: nat)
      modifies this`roomPeerLastAudio
      ensures Queues() == Expire(old(Queues()), now)
    {
      roomPeerLastAudio := map p | p in roomPeerLastAudio && !(Elapsed(now, roomPeerLastAudio[p]) > PEER_SILENCE_MS)
        :: roomPeerLastAudio[p];
    }

    method AdaptJitterBuffer()
      modifies this`jitterDepth, this`jitterLowStreak
      ensures Abstract() == AdaptJitter(old(Abstract()))
    {
      if !jitterAdaptive || !audioLive || playoutFrames == 0 {
        return;
      }
      var (depth, streak) := NextJitterDepth(jitterDepth, jitterLowStreak, playoutFrames, playoutUnderruns);
      jitterDepth := depth;
      jitterLowStreak := streak;
    }

    method AdaptRoomBitrate()
      modifies this`abrWarmupTicks, this`netLossEma, this`outgoingBitrate
      ensures Rates() == AdaptRoom(old(Rates()), playoutFrames, playoutUnderruns)
    {
      if !roomMode || !audioLive || playoutFrames == 0 {
        return;
      }
      if abrWarmupTicks > 0 {
        abrWarmupTicks := abrWarmupTicks - 1;
        return;
      }
      netLossEma := UpdateRoomLossEma(netLossEma, playoutUnderruns, playoutFrames);
      var newBps := NextRoomBitrate(outgoingBitrate, bitrateCeiling, netLossEma);
      if newBps != outgoingBitrate {
        outgoingBitrate := newBps;
      }
    }

    /** The 2 s metrics tick: both loops read the window, then it is cleared. */
    method OnMetricsTick()
      modifies this
      ensures Abstract() == MetricsTick(old(Abstract()))
    {
      hide AdaptJitter, AdaptRoom;
      AdaptJitterBuffer();
      AdaptRoomBitrate();
      playoutFrames := 0;
      playoutUnderruns := 0;
    }

    /** The loss hint for the encoder, if there is one to take it, follows the average. */
    method UpdateNetworkQuality(lossPct: real) returns (fecLossPct: Option<nat>)
      modifies this`netLossEma, this`outgoingBitrate
      ensures Rates() == NetworkQuality(old(Rates()), lossPct)
      ensures fecLossPct == if Rates().audioLive then Some(FecHint(Rates().lossEma)) else None
    {
      netLossEma := netLossEma * 0.6 + NonNegative(lossPct) * 0.4;
      var newBps := NextBitrate(outgoingBitrate, bitrateCeiling, netLossEma);
      if newBps != outgoingBitrate {
        outgoingBitrate := newBps;
      }
      fecLossPct := None;
      if audioLive {
        fecLossPct := Some(FecHint(netLossEma));
      }
    }

    method SetOutgoingBitrate(bps: nat)
      modifies this`bitrateCeiling, this`outgoingBitrate
      ensures Rates() == SetBitrate(old(Rates()), bps)
    {
      var clamped := Clamp(bps, MIN_BITRATE, MAX_BITRATE);
      bitrateCeiling := clamped;
      outgoingBitrate := clamped;
    }

    method SetJitterDepth(depth: nat)
      modifies this`jitterDepth, this`jitterAdaptive
      ensures Abstract() == SetDepth(old(Abstract()), depth)
    {
      jitterDepth := Clamp(depth, MIN_JITTER_DEPTH, MAX_PINNED_DEPTH);
      jitterAdaptive := false;
    }

    method EnterRoomMode()
      modifies this`roomMode, this`netLossEma, this`abrWarmupTicks
      ensures Rates() == SetRoomMode(old(Rates()))
    {
      roomMode := true;
      netLossEma := 0.0;
      abrWarmupTicks := WARMUP_TICKS;
    }
  }
}
