/**
 What the adaptive loops guarantee over runs of metrics windows: bounded rates,
 bounded averages, descent to the floor, and hysteresis of the jitter depth.
 Recovery to the ceiling is in AdaptiveRecovery.dfy.

 The properties spell their numbers out instead of naming the model's constants.
 */
module AdaptiveControl {
  import opened VoiceModel

  // ----- Bounds

  ghost predicate RateOk(k: Control) {
    16_000 <= k.outgoing <= k.ceiling <= 192_000
  }

  ghost predicate EmaOk(k: Control) {
    0.0 <= k.lossEma <= 100.0
  }

  ghost predicate DepthOk(c: Controller) {
    2 <= c.voice.depth <= if c.control.adaptive then 12 else 20
  }

  ghost predicate ControlOk(k: Control) {
    RateOk(k) && EmaOk(k) && k.warmup <= 6
  }

  lemma CapacityBounds(target: nat, ceiling: nat)
    requires 16_000 <= ceiling
    ensures 16_000 <= Capacity(target, ceiling) <= ceiling
    ensures target >= 16_000 ==> Capacity(target, ceiling) == if target <= ceiling then target else ceiling
  {
  }

  /** A window's underrun percentage is a percentage: no more slots ran dry than were served. */
  lemma PctBounds(underruns: nat, frames: nat)
    requires underruns <= frames && frames > 0
    ensures 0.0 <= UnderrunPct(underruns, frames) <= 100.0
  {
    var u, f := underruns as real, frames as real;
    var q := u * 100.0 / f;
    assert q * f == u * 100.0;
    if q > 100.0 { ProductGrows(q, 100.0, f); }
    if q < 0.0 { ProductGrows(0.0, q, f); }
  }

  lemma ProductGrows(a: real, b: real, f: real)
    requires a > b && f > 0.0
    ensures a * f > b * f
  {
  }

  lemma EmaBounds(ema: real, underruns: nat, frames: nat)
    requires 0.0 <= ema <= 100.0 && underruns <= frames
    ensures 0.0 <= UpdateRoomLossEma(ema, underruns, frames) <= 100.0
  {
    if frames > 0 { PctBounds(underruns, frames); }
  }

  lemma RoomKeepsOk(k: Control, frames: nat, underruns: nat)
    requires ControlOk(k) && underruns <= frames
    ensures ControlOk(AdaptRoom(k, frames, underruns))
  {
    EmaBounds(k.lossEma, underruns, frames);
  }

  lemma QualityKeepsOk(k: Control, lossPct: real)
    requires ControlOk(k) && lossPct <= 100.0
    ensures ControlOk(NetworkQuality(k, lossPct))
  {
  }

  lemma BitrateKeepsOk(k: Control, bps: nat)
    requires ControlOk(k)
    ensures ControlOk(SetBitrate(k, bps))
  {
  }

  // ----- Jitter depth

  /** One window moves an adaptive depth by at most one, a pinned one not at all, and stays in bounds. */
  lemma DepthStep(c: Controller)
    requires DepthOk(c)
    ensures DepthOk(MetricsTick(c))
    ensures c.control.adaptive ==> c.voice.depth - 1 <= MetricsTick(c).voice.depth <= c.voice.depth + 1
    ensures !c.control.adaptive ==> MetricsTick(c).voice.depth == c.voice.depth
    ensures MetricsTick(c).control.adaptive == c.control.adaptive
  {
  }

  /** The thresholds in whole numbers: an adaptive depth grows when more than one slot
      in twenty ran dry, and shrinks when fewer than one in two hundred did for the
      fifth window running; otherwise it stays.  The windows that count toward those
      five are forgotten by any other window and by a change of depth. */
  lemma DepthMeaning(c: Controller)
    requires DepthOk(c)
    ensures var d, d' := c.voice.depth, MetricsTick(c).voice.depth;
            var tuning := c.control.adaptive && c.control.audioLive && c.voice.frames > 0;
            && (d' == d + 1 <==> tuning && 20 * c.voice.underruns > c.voice.frames && d < 12)
            && (d' == d - 1 <==> tuning && 200 * c.voice.underruns < c.voice.frames && d > 2
                                 && c.control.lowStreak >= 4)
            && MetricsTick(c).control.lowStreak ==
               (if !tuning then c.control.lowStreak
                else if d' == d && 200 * c.voice.underruns < c.voice.frames then c.control.lowStreak + 1
                else 0)
  {
    if c.voice.frames > 0 {
      RatioMeaning(c.voice.underruns, c.voice.frames);
    }
  }

  /** The user's own depth holds from then on, whatever the windows say. */
  lemma {:induction false} PinnedDepthHolds(c: Controller, events: seq<Event>, depth: nat)
    requires PossibleRun(Step(c, PinDepth(depth)), events) && forall e | e in events :: !e.PinDepth?
    ensures var c' := Run(Step(c, PinDepth(depth)), events);
            && c'.voice.depth == (if depth < 2 then 2 else if depth > 20 then 20 else depth)
            && !c'.control.adaptive
  {
    PinnedStays(Step(c, PinDepth(depth)), events);
  }

  lemma {:induction false} PinnedStays(c: Controller, events: seq<Event>)
    requires PossibleRun(c, events) && !c.control.adaptive && forall e | e in events :: !e.PinDepth?
    ensures Run(c, events).voice.depth == c.voice.depth && !Run(c, events).control.adaptive
    decreases |events|
  {
    if events != [] {
      var e := events[0];
      assert e in events;
      OtherEventsKeepDepth(c, e);
      PinnedStays(Step(c, e), events[1..]);
    }
  }

  lemma OtherEventsKeepDepth(c: Controller, e: Event)
    requires Possible(c, e) && !c.control.adaptive && !e.PinDepth?
    ensures Step(c, e).voice.depth == c.voice.depth && !Step(c, e).control.adaptive
  {
    if e.PlayoutSlot? { PlayoutKeepsDepth(c.voice, e.order, e.now); }
  }

  // ----- The user's bitrate

  /** The user's own bitrate, brought into 16 000 to 192 000, is at once the rate and the
      ceiling; until the next choice it stays the ceiling and no run passes it. */
  lemma ChosenRateHolds(c: Controller, events: seq<Event>, bps: nat)
    requires RateOk(c.control) && PossibleRun(Step(c, ChooseBitrate(bps)), events)
    requires forall e | e in events :: !e.ChooseBitrate?
    ensures var chosen := if bps < 16_000 then 16_000 else if bps > 192_000 then 192_000 else bps;
            && Step(c, ChooseBitrate(bps)).control.outgoing == chosen
            && Run(Step(c, ChooseBitrate(bps)), events).control.ceiling == chosen
            && 16_000 <= Run(Step(c, ChooseBitrate(bps)), events).control.outgoing <= chosen
  {
    CeilingStays(Step(c, ChooseBitrate(bps)), events);
  }

  lemma {:induction false} CeilingStays(c: Controller, events: seq<Event>)
    requires RateOk(c.control) && PossibleRun(c, events) && forall e | e in events :: !e.ChooseBitrate?
    ensures RateOk(Run(c, events).control) && Run(c, events).control.ceiling == c.control.ceiling
    decreases |events|
  {
    if events != [] {
      var e := events[0];
      assert e in events;
      OtherEventsKeepCeiling(c, e);
      CeilingStays(Step(c, e), events[1..]);
    }
  }

  lemma OtherEventsKeepCeiling(c: Controller, e: Event)
    requires RateOk(c.control) && Possible(c, e) && !e.ChooseBitrate?
    ensures RateOk(Step(c, e).control) && Step(c, e).control.ceiling == c.control.ceiling
  {
  }

  lemma RatioMeaning(underruns: nat, frames: nat)
    requires frames > 0
    ensures underruns as real / frames as real > JITTER_GROW_RATIO <==> 20 * underruns > frames
    ensures underruns as real / frames as real < JITTER_SHRINK_RATIO <==> 200 * underruns < frames
  {
    CompareQuotient(underruns as real, JITTER_GROW_RATIO, frames as real);
    CompareQuotient(underruns as real, JITTER_SHRINK_RATIO, frames as real);
    WholeThresholds(underruns, frames);
  }

  lemma WholeThresholds(u: nat, f: nat)
    ensures u as real > 0.05 * f as real <==> 20 * u > f
    ensures u as real < 0.005 * f as real <==> 200 * u < f
  {
    assert (20 * u) as real == 20.0 * u as real;
    assert (200 * u) as real == 200.0 * u as real;
  }

  lemma CompareQuotient(u: real, r: real, f: real)
    requires f > 0.0
    ensures u / f > r <==> u > r * f
    ensures u / f < r <==> u < r * f
  {
    var q := u / f;
    assert q * f == u;
    if q > r { ProductGrows(q, r, f); }
    if q < r { ProductGrows(r, q, f); }
  }

  predicate Shrank(c: Controller, e: Event)
    requires e.PlayoutSlot? ==> forall p | p in e.order :: p in c.voice.queues
  {
    e.WindowEnds? && Step(c, e).voice.depth < c.voice.depth
  }

  function Shrinks(c: Controller, events: seq<Event>): nat
    requires PossibleRun(c, events)
    decreases |events|
  {
    if events == [] then 0
    else (if Shrank(c, events[0]) then 1 else 0) + Shrinks(Step(c, events[0]), events[1..])
  }

  function Windows(events: seq<Event>): nat
    decreases |events|
  {
    if events == [] then 0 else (if events[0].WindowEnds? then 1 else 0) + Windows(events[1..])
  }

  lemma StreakStep(c: Controller)
    ensures var c' := MetricsTick(c);
            c'.control.lowStreak + (if c'.voice.depth < c.voice.depth then 5 else 0)
            <= c.control.lowStreak + 1
  {
  }

  lemma OtherEventsKeepStreak(c: Controller, e: Event)
    requires Possible(c, e) && !e.WindowEnds?
    ensures Step(c, e).control.lowStreak == c.control.lowStreak
  {
  }

  /** Over any run, shrinking is five times rarer than windows, up to the streak already earned. */
  lemma {:induction false} ShrinksAreRare(c: Controller, events: seq<Event>)
    requires PossibleRun(c, events)
    ensures 5 * Shrinks(c, events) + Run(c, events).control.lowStreak
            <= Windows(events) + c.control.lowStreak
    decreases |events|
  {
    if events != [] {
      var c' := Step(c, events[0]);
      ShrinksAreRare(c', events[1..]);
      if events[0].WindowEnds? { StreakStep(c); } else { OtherEventsKeepStreak(c, events[0]); }
    }
  }

  // ----- Room bitrate over whole windows

  datatype Window = Window(frames: nat, underruns: nat)

  function RoomRun(k: Control, windows: seq<Window>): Control
    decreases |windows|
  {
    if windows == [] then k else RoomRun(AdaptRoom(k, windows[0].frames, windows[0].underruns), windows[1..])
  }

  /** Entering a room: the average starts from nothing, six windows with playout change
      nothing but the count of them, and the seventh adapts the rate again. */
  lemma RoomSetup(k: Control, windows: seq<Window>)
    requires k.audioLive && |windows| == 7 && forall w | w in windows :: w.frames > 0
    ensures var entered := SetRoomMode(k);
            && entered == k.(roomMode := true, lossEma := 0.0, warmup := 6)
            && RoomRun(entered, windows[..6]) == k.(roomMode := true, lossEma := 0.0, warmup := 0)
            && RoomRun(entered, windows).outgoing ==
               NextRoomBitrate(k.outgoing, k.ceiling, RoomRun(entered, windows).lossEma)
  {
    hide NextRoomBitrate, UpdateRoomLossEma;
    var entered := SetRoomMode(k);
    forall w | w in windows[..6] ensures w.frames > 0 { assert w in windows; }
    SetupCounts(entered, windows[..6]);
    assert windows == windows[..6] + [windows[6]];
    RoomRunConcat(entered, windows[..6], [windows[6]]);
    var ready := entered.(warmup := 0);
    assert windows[6] in windows && [windows[6]][1..] == [];
    assert RoomRun(ready, [windows[6]]) == RoomRun(AdaptRoom(ready, windows[6].frames, windows[6].underruns), []);
  }

  lemma {:induction false} SetupCounts(k: Control, windows: seq<Window>)
    requires k.roomMode && k.audioLive && k.warmup == |windows| && forall w | w in windows :: w.frames > 0
    ensures RoomRun(k, windows) == k.(warmup := 0)
    decreases |windows|
  {
    if windows != [] {
      assert windows[0] in windows;
      SetupCounts(k.(warmup := k.warmup - 1), windows[1..]);
    }
  }

  /** Outside a room, without a device, or without playout, windows change nothing. */
  lemma {:induction false} NothingToAdapt(k: Control, windows: seq<Window>)
    requires !k.roomMode || !k.audioLive || forall w | w in windows :: w.frames == 0
    ensures RoomRun(k, windows) == k
    decreases |windows|
  {
    if windows != [] {
      assert windows[0] in windows;
      NothingToAdapt(k, windows[1..]);
    }
  }

  /** In a room with live audio, past the setup windows unless said otherwise. */
  ghost predicate Running(k: Control) {
    ControlOk(k) && k.roomMode && k.audioLive
  }

  ghost predicate Clean(windows: seq<Window>) {
    forall w | w in windows :: w.frames > 0 && w.underruns == 0
  }

  /** No more than one slot in a hundred ran dry: too few to count as congestion. */
  ghost predicate Calm(windows: seq<Window>) {
    forall w | w in windows :: w.frames > 0 && 100 * w.underruns <= w.frames
  }

  /** Setup windows change nothing but the count of them. */
  lemma {:induction false} WarmupPasses(k: Control, windows: seq<Window>)
    requires Running(k) && k.warmup <= |windows| && forall w | w in windows :: w.frames > 0
    ensures RoomRun(k, windows) == RoomRun(k.(warmup := 0), windows[k.warmup..])
    decreases k.warmup
  {
    if k.warmup > 0 {
      assert windows[0] in windows;
      assert windows[1..][k.warmup - 1..] == windows[k.warmup..];
      WarmupPasses(k.(warmup := k.warmup - 1), windows[1..]);
    } else {
      assert windows[0..] == windows && k.(warmup := 0) == k;
    }
  }

  lemma CleanWindow(k: Control, frames: nat)
    requires Running(k) && k.warmup == 0 && frames > 0
    ensures var k' := AdaptRoom(k, frames, 0);
            && Running(k') && k'.warmup == 0 && k'.ceiling == k.ceiling
            && k'.lossEma == k.lossEma * 0.5
            && k'.outgoing == NextRoomBitrate(k.outgoing, k.ceiling, k'.lossEma)
  {
    RoomKeepsOk(k, frames, 0);
  }

  /** A window of whole numbers is below the congestion signal exactly when calm. */
  lemma CalmPct(frames: nat, underruns: nat)
    requires frames > 0
    ensures UnderrunPct(underruns, frames) <= UNDERRUN_SIGNAL_PCT <==> 100 * underruns <= frames
  {
    CompareQuotient(underruns as real * 100.0, UNDERRUN_SIGNAL_PCT, frames as real);
    assert (100 * underruns) as real == underruns as real * 100.0;
  }

  lemma CalmWindow(k: Control, frames: nat, underruns: nat)
    requires Running(k) && k.warmup == 0 && frames > 0 && 100 * underruns <= frames
    ensures var k' := AdaptRoom(k, frames, underruns);
            && Running(k') && k'.warmup == 0 && k'.ceiling == k.ceiling
            && 0.0 <= k'.lossEma <= k.lossEma * 0.65
            && k'.outgoing == NextRoomBitrate(k.outgoing, k.ceiling, k'.lossEma)
  {
    RoomKeepsOk(k, frames, underruns);
    CalmPct(frames, underruns);
  }

  lemma {:induction false} RoomRunConcat(k: Control, a: seq<Window>, b: seq<Window>)
    ensures RoomRun(k, a + b) == RoomRun(RoomRun(k, a), b)
    decreases |a|
  {
    if a == [] {
      assert a + b == b;
    } else {
      assert (a + b)[1..] == a[1..] + b;
      RoomRunConcat(AdaptRoom(k, a[0].frames, a[0].underruns), a[1..], b);
    }
  }

  // ----- Sustained loss

  /** More than `pct` percent of every window's slots ran dry. */
  ghost predicate Lossy(windows: seq<Window>, pct: real) {
    forall w | w in windows :: w.frames > 0 && w.underruns <= w.frames && UnderrunPct(w.underruns, w.frames) > pct
  }

  /** The rate after n lossy windows, from the highest possible start. */
  function Slide(n: nat): nat {
    if n == 0 then 192_000 else Percent(Slide(n - 1), 80)
  }

  lemma SlideReachesTheFloor()
    ensures Slide(12) <= 16_000
  {
    assert Slide(1) == 153600;
    assert Slide(2) == 122880;
    assert Slide(3) == 98304;
    assert Slide(4) == 78643;
    assert Slide(5) == 62914;
    assert Slide(6) == 50331;
    assert Slide(7) == 40264;
    assert Slide(8) == 32211;
    assert Slide(9) == 25768;
    assert Slide(10) == 20614;
    assert Slide(11) == 16491;
    assert Slide(12) == 13192;
  }

  lemma {:induction false} SlideFalls(n: nat, m: nat)
    requires n <= m
    ensures Slide(m) <= Slide(n)
    decreases m - n
  {
    if n < m { SlideFalls(n, m - 1); }
  }

  lemma LossyWindow(k: Control, w: Window)
    requires Running(k) && k.warmup == 0 && k.lossEma > 10.0 && Lossy([w], 10.0)
    ensures var k' := AdaptRoom(k, w.frames, w.underruns);
            && Running(k') && k'.warmup == 0 && k'.lossEma > 10.0
            && k'.outgoing == Max(16_000, Percent(k.outgoing, 80))
            && k'.outgoing <= k.outgoing
            && (k.outgoing > 16_000 ==> k'.outgoing < k.outgoing)
  {
    assert w in [w];
    RoomKeepsOk(k, w.frames, w.underruns);
    assert w.underruns != 0;
  }

  /** Once the average is above 10 (and it will be: see `LossReachesTheFloor`), windows that keep losing more than 10% cut the
      rate strictly every time until it is at the floor, which takes at most twelve. */
  lemma {:induction false} SustainedLossDescends(k: Control, windows: seq<Window>, n: nat)
    requires Running(k) && k.warmup == 0 && k.lossEma > 10.0 && Lossy(windows, 10.0)
    requires k.outgoing <= Max(16_000, Slide(n))
    ensures var k' := RoomRun(k, windows);
            && k'.outgoing <= Max(16_000, Slide(n + |windows|))
            && k'.outgoing <= k.outgoing
            && (windows != [] && k.outgoing > 16_000 ==> k'.outgoing < k.outgoing)
            && (n + |windows| >= 12 ==> k'.outgoing == 16_000)
            && Running(k') && k'.lossEma > 10.0
    decreases |windows|
  {
    hide AdaptRoom, Percent, UnderrunPct;
    if windows == [] {
      if n >= 12 { SlideReachesTheFloor(); SlideFalls(12, n); }
    } else {
      var w := windows[0];
      assert w in windows && [w][0] == w;
      LossyWindow(k, w);
      SlideStep(k.outgoing, n);
      SustainedLossDescends(AdaptRoom(k, w.frames, w.underruns), windows[1..], n + 1);
    }
  }

  lemma SlideStep(outgoing: nat, n: nat)
    requires outgoing <= Max(16_000, Slide(n))
    ensures Max(16_000, Percent(outgoing, 80)) <= Max(16_000, Slide(n + 1))
  {
    assert outgoing <= 16_000 ==> Percent(outgoing, 80) <= 16_000;
    assert outgoing <= Slide(n) ==> Percent(outgoing, 80) <= Percent(Slide(n), 80);
  }

  /** What is left after n windows of the average's memory of its start. */
  function Fade(n: nat): real {
    if n == 0 then 1.0 else 0.7 * Fade(n - 1)
  }

  /** The average after n windows that each lose q percent, from none. */
  function Rise(q: real, n: nat): real {
    q * (1.0 - Fade(n))
  }

  lemma LossyStep(k: Control, w: Window, q: real)
    requires Running(k) && k.warmup == 0 && q >= 1.0
    requires w.frames > 0 && w.underruns <= w.frames && UnderrunPct(w.underruns, w.frames) > q
    ensures var k' := AdaptRoom(k, w.frames, w.underruns);
            Running(k') && k'.warmup == 0 && k'.lossEma > 0.7 * k.lossEma + 0.3 * q
  {
    RoomKeepsOk(k, w.frames, w.underruns);
    assert w.underruns != 0;
  }

  lemma RiseStep(q: real, n: nat, ema: real, ema': real)
    requires ema >= Rise(q, n) && ema' > 0.7 * ema + 0.3 * q
    ensures ema' >= Rise(q, n + 1)
  {
    assert Rise(q, n + 1) == 0.7 * Rise(q, n) + 0.3 * q;
  }

  lemma {:induction false} LossRaises(k: Control, windows: seq<Window>, q: real, n: nat)
    requires Running(k) && k.warmup == 0 && q >= 1.0 && Lossy(windows, q) && k.lossEma >= Rise(q, n)
    ensures var k' := RoomRun(k, windows);
            Running(k') && k'.warmup == 0 && k'.lossEma >= Rise(q, n + |windows|)
    decreases |windows|
  {
    hide AdaptRoom, Rise, UnderrunPct;
    if windows != [] {
      var w := windows[0];
      assert w in windows;
      LossyStep(k, w, q);
      RiseStep(q, n, k.lossEma, AdaptRoom(k, w.frames, w.underruns).lossEma);
      LossRaises(AdaptRoom(k, w.frames, w.underruns), windows[1..], q, n + 1);
    }
  }

  lemma LossyParts(a: seq<Window>, b: seq<Window>, q: real)
    requires Lossy(a + b, q)
    ensures Lossy(a, q) && Lossy(b, q) && (q >= 10.0 ==> Lossy(b, 10.0))
  {
    assert forall w | w in a :: w in a + b;
    assert forall w | w in b :: w in a + b;
  }

  /** From any state, windows that each lose more than q percent reach the floor
      within twelve windows of the average passing 10, which takes at most n after
      setup whenever q * (1 - 0.7^n) exceeds 10. */
  lemma LossReachesTheFloor(k: Control, windows: seq<Window>, q: real, n: nat)
    requires Running(k) && Lossy(windows, q) && q > 10.0 && Rise(q, n) > 10.0
    requires |windows| >= k.warmup + n + 12
    ensures RoomRun(k, windows).outgoing == 16_000
  {
    hide AdaptRoom, RoomRun, Rise, Slide, UnderrunPct;
    WarmupPasses(k, windows);
    var k0 := k.(warmup := 0);
    var rest := windows[k.warmup..];
    assert windows == windows[..k.warmup] + rest && rest == rest[..n] + rest[n..];
    LossyParts(windows[..k.warmup], rest, q);
    LossyParts(rest[..n], rest[n..], q);
    RiseFromNothing(q);
    LossRaises(k0, rest[..n], q, 0);
    RoomRunConcat(k0, rest[..n], rest[n..]);
    SlideStarts();
    SustainedLossDescends(RoomRun(k0, rest[..n]), rest[n..], 0);
  }

  lemma RiseFromNothing(q: real)
    ensures Rise(q, 0) == 0.0
  {
  }

  lemma SlideStarts()
    ensures Slide(0) == 192_000
  {
  }

  /** Any loss held above ten percent gets there: some n will do. */
  lemma AnyLossAboveTen(q: real) returns (n: nat)
    requires q > 10.0
    ensures Rise(q, n) > 10.0
  {
    var bound := 7.0 * q / (q - 10.0);
    assert bound * (q - 10.0) == 7.0 * q;
    assert bound > 0.0 by { if bound <= 0.0 { NotPositive(bound, q - 10.0); } }
    n := bound.Floor + 1;
    FadeBound(n);
    var d := 7.0 + 3.0 * n as real;
    assert d > bound;
    ProductGrows(d, bound, q - 10.0);
    // Fade(n) * d <= 7 and d * (q - 10) > 7 q, so Fade(n) * q < q - 10
    RiseAbove(q, Fade(n), d);
  }

  lemma NotPositive(a: real, b: real)
    requires a <= 0.0 && b > 0.0
    ensures a * b <= 0.0
  {
  }

  lemma RiseAbove(q: real, f: real, d: real)
    requires q > 10.0 && d > 0.0 && f * d <= 7.0 && d * (q - 10.0) > 7.0 * q
    ensures q * (1.0 - f) > 10.0
  {
    ProductNotNegative(7.0 - f * d, q);
    assert (7.0 - f * d) * q == 7.0 * q - (q * f) * d;
    SmallerFactor(q * f, q - 10.0, d);
    assert q * (1.0 - f) == q - q * f;
  }

  lemma SmallerFactor(a: real, b: real, d: real)
    requires d > 0.0 && a * d < d * b
    ensures a < b
  {
    ProductNotNegative(d, if a >= b then a - b else 0.0);
    assert d * (a - b) == a * d - d * b;
  }

  /** The memory fades at least as fast as 1 / (1 + 3n/7). */
  lemma {:induction false} FadeBound(n: nat)
    ensures Fade(n) > 0.0 && Fade(n) * (7.0 + 3.0 * n as real) <= 7.0
  {
    if n > 0 {
      FadeBound(n - 1);
      var f, m := Fade(n - 1), (n - 1) as real;
      assert n as real == m + 1.0;
      assert (0.7 * f) * (7.0 + 3.0 * (m + 1.0)) == f * (7.0 + 3.0 * m) - 0.9 * (f * m);
      ProductNotNegative(f, m);
    }
  }

  lemma ProductNotNegative(a: real, b: real)
    requires a >= 0.0 && b >= 0.0
    ensures a * b >= 0.0
  {
  }

  /** Losing more than a fifth of every window takes two windows to show, from any state. */
  lemma HeavyLossReachesTheFloor(k: Control, windows: seq<Window>)
    requires Running(k) && Lossy(windows, 20.0) && |windows| >= k.warmup + 14
    ensures RoomRun(k, windows).outgoing == 16_000
  {
    assert Fade(2) == 0.49;
    assert Rise(20.0, 2) == 10.2;
    LossReachesTheFloor(k, windows, 20.0, 2);
  }

  /** No window loses more than a tenth. */
  ghost predicate Tolerable(windows: seq<Window>) {
    forall w | w in windows :: w.frames > 0 && 10 * w.underruns <= w.frames
  }

  lemma TolerableWindow(k: Control, w: Window)
    requires Running(k) && k.lossEma <= 10.0 && w.frames > 0 && 10 * w.underruns <= w.frames
    ensures var k' := AdaptRoom(k, w.frames, w.underruns);
            Running(k') && k'.lossEma <= 10.0 && k'.ceiling == k.ceiling && k'.outgoing >= k.outgoing
  {
    RoomKeepsOk(k, w.frames, w.underruns);
    TenthPct(w.frames, w.underruns);
    CapacityBounds(Percent(k.outgoing, 104) + 500, k.ceiling);
    CapacityBounds(Percent(k.outgoing, 110) + 1_000, k.ceiling);
  }

  lemma TenthPct(frames: nat, underruns: nat)
    requires frames > 0 && 10 * underruns <= frames
    ensures UnderrunPct(underruns, frames) <= 10.0
  {
    CompareQuotient(underruns as real * 100.0, 10.0, frames as real);
    assert (10 * underruns) as real == underruns as real * 10.0;
  }

  /** Ten percent is the exact line: from an average of at most 10, windows that lose
      no more than that never cost any rate. */
  lemma {:induction false} ToleratedLossNeverCuts(k: Control, windows: seq<Window>)
    requires Running(k) && k.lossEma <= 10.0 && Tolerable(windows)
    ensures RoomRun(k, windows).outgoing >= k.outgoing
    decreases |windows|
  {
    hide AdaptRoom;
    if windows != [] {
      assert windows[0] in windows;
      TolerableWindow(k, windows[0]);
      ToleratedLossNeverCuts(AdaptRoom(k, windows[0].frames, windows[0].underruns), windows[1..]);
    }
  }

  // ----- Direct calls

  function QualityRun(k: Control, reports: seq<real>): Control
    decreases |reports|
  {
    if reports == [] then k else QualityRun(NetworkQuality(k, reports[0]), reports[1..])
  }

  lemma {:induction false} QualityRunConcat(k: Control, a: seq<real>, b: seq<real>)
    ensures QualityRun(k, a + b) == QualityRun(QualityRun(k, a), b)
    decreases |a|
  {
    if a == [] {
      assert a + b == b;
    } else {
      assert (a + b)[1..] == a[1..] + b;
      QualityRunConcat(NetworkQuality(k, a[0]), a[1..], b);
    }
  }

  ghost predicate Reported(reports: seq<real>, lo: real, hi: real) {
    forall i | 0 <= i < |reports| :: lo < reports[i] <= hi
  }

  /** What is left after n reports of the average's memory of its start. */
  function ReportFade(n: nat): real {
    if n == 0 then 1.0 else 0.6 * ReportFade(n - 1)
  }

  /** The average after n reports of q percent, from none. */
  function ReportRise(q: real, n: nat): real {
    q * (1.0 - ReportFade(n))
  }

  lemma ReportStep(k: Control, lossPct: real, q: real, n: nat)
    requires ControlOk(k) && 0.0 <= q < lossPct <= 100.0 && k.lossEma >= ReportRise(q, n)
    ensures var k' := NetworkQuality(k, lossPct);
            ControlOk(k') && k'.lossEma >= ReportRise(q, n + 1)
  {
    QualityKeepsOk(k, lossPct);
    assert ReportRise(q, n + 1) == 0.6 * ReportRise(q, n) + 0.4 * q;
  }

  lemma {:induction false} ReportsRaise(k: Control, reports: seq<real>, q: real, n: nat)
    requires ControlOk(k) && q >= 0.0 && Reported(reports, q, 100.0) && k.lossEma >= ReportRise(q, n)
    ensures var k' := QualityRun(k, reports);
            ControlOk(k') && k'.lossEma >= ReportRise(q, n + |reports|)
    decreases |reports|
  {
    hide NetworkQuality, ReportRise;
    if reports != [] {
      ReportStep(k, reports[0], q, n);
      ReportsRaise(NetworkQuality(k, reports[0]), reports[1..], q, n + 1);
    }
  }

  lemma LossyReport(k: Control, lossPct: real)
    requires ControlOk(k) && k.lossEma > 10.0 && 10.0 < lossPct <= 100.0
    ensures var k' := NetworkQuality(k, lossPct);
            && ControlOk(k') && k'.lossEma > 10.0
            && k'.outgoing == Max(16_000, Percent(k.outgoing, 80))
  {
    QualityKeepsOk(k, lossPct);
  }

  /** Once the average is above 10, reports that stay above 10 cut the rate strictly
      every time until it is at the floor, which takes at most twelve. */
  lemma {:induction false} DirectDescends(k: Control, reports: seq<real>, n: nat)
    requires ControlOk(k) && k.lossEma > 10.0 && Reported(reports, 10.0, 100.0)
    requires k.outgoing <= Max(16_000, Slide(n))
    ensures var k' := QualityRun(k, reports);
            && (reports != [] && k.outgoing > 16_000 ==> k'.outgoing < k.outgoing)
            && (n + |reports| >= 12 ==> k'.outgoing == 16_000)
            && ControlOk(k') && k'.outgoing <= k.outgoing
    decreases |reports|
  {
    hide NetworkQuality;
    if reports == [] {
      if n >= 12 { SlideReachesTheFloor(); SlideFalls(12, n); }
    } else {
      LossyReport(k, reports[0]);
      SlideStep(k.outgoing, n);
      DirectDescends(NetworkQuality(k, reports[0]), reports[1..], n + 1);
    }
  }

  /** From any state, reports that stay above q percent bring a direct call to the floor
      within n + 12 reports, whenever q * (1 - 0.6^n) exceeds 10. */
  lemma DirectLossReachesTheFloor(k: Control, reports: seq<real>, q: real, n: nat)
    requires ControlOk(k) && q > 10.0 && Reported(reports, q, 100.0) && ReportRise(q, n) > 10.0
    requires |reports| >= n + 12
    ensures QualityRun(k, reports).outgoing == 16_000
  {
    hide NetworkQuality, QualityRun, Slide, ReportFade;
    var a, b := reports[..n], reports[n..];
    assert reports == a + b;
    assert ReportFade(0) == 1.0 by { ReportFadeStarts(); }
    ReportsRaise(k, a, q, 0);
    QualityRunConcat(k, a, b);
    SlideStarts();
    DirectDescends(QualityRun(k, a), b, 0);
  }

  lemma ReportFadeStarts()
    ensures ReportFade(0) == 1.0
  {
  }

  /** A direct call forgets faster than a room, so what reaches the floor there does here. */
  lemma {:induction false} ReportsFadeFaster(n: nat)
    ensures 0.0 < ReportFade(n) <= Fade(n)
  {
    if n > 0 { ReportsFadeFaster(n - 1); }
  }

  /** For every q above ten there is such an n. */
  lemma AnyReportAboveTen(q: real) returns (n: nat)
    requires q > 10.0
    ensures ReportRise(q, n) > 10.0
  {
    n := AnyLossAboveTen(q);
    ReportsFadeFaster(n);
    ProductNotNegative(q, Fade(n) - ReportFade(n));
    assert q * (1.0 - ReportFade(n)) == q * (1.0 - Fade(n)) + q * (Fade(n) - ReportFade(n));
  }

  /** Ten percent is the exact line here too: from an average of at most 10, reports of
      no more than that never cost any rate, and above 4 they leave it where it is. */
  lemma {:induction false} ToleratedReportsHold(k: Control, reports: seq<real>)
    requires ControlOk(k) && k.lossEma <= 10.0 && forall i | 0 <= i < |reports| :: reports[i] <= 10.0
    ensures QualityRun(k, reports).outgoing >= k.outgoing
    ensures k.lossEma > 4.0 && Reported(reports, 4.0, 10.0) ==> QualityRun(k, reports).outgoing == k.outgoing
    decreases |reports|
  {
    hide NetworkQuality;
    if reports != [] {
      ToleratedReport(k, reports[0]);
      ToleratedReportsHold(NetworkQuality(k, reports[0]), reports[1..]);
    }
  }

  lemma ToleratedReport(k: Control, lossPct: real)
    requires ControlOk(k) && k.lossEma <= 10.0 && lossPct <= 10.0
    ensures var k' := NetworkQuality(k, lossPct);
            && ControlOk(k') && k'.lossEma <= 10.0 && k'.outgoing >= k.outgoing
            && (k.lossEma > 4.0 && lossPct > 4.0 ==> k'.lossEma > 4.0 && k'.outgoing == k.outgoing)
  {
    QualityKeepsOk(k, lossPct);
    CapacityBounds(Percent(k.outgoing, 108) + 1_000, k.ceiling);
    CapacityBounds(k.outgoing, k.ceiling);
  }

  /** The encoder's loss hint is the average to the nearest percent, capped at 50. */
  lemma FecHintIsNearest(k: Control)
    requires EmaOk(k)
    ensures var hint := FecHint(k.lossEma);
            && hint <= 50
            && (k.lossEma < 50.0 ==> -0.5 <= hint as real - k.lossEma <= 0.5)
            && (k.lossEma >= 50.0 ==> hint == 50)
  {
  }
}
