/**
 Recovery of the bitrate: how many windows or reports bring it back to the user's
 ceiling from any state, and that from the slowest start not one fewer would do.
 */
module AdaptiveRecovery {
  import opened VoiceModel
  import opened AdaptiveControl

  // ----- Averages in closed form

  function Power(factor: real, n: nat): real {
    if n == 0 then 1.0 else factor * Power(factor, n - 1)
  }

  lemma PowerStep(factor: real, n: nat, x: real)
    ensures x * factor * Power(factor, n) == x * Power(factor, n + 1)
  {
  }

  /** Every window loses exactly q percent. */
  ghost predicate Steadily(windows: seq<Window>, q: real) {
    forall w | w in windows :: w.frames > 0 && w.underruns as real * 100.0 == q * w.frames as real
  }

  /** Some slots ran dry in every window, but no more than one in a hundred. */
  ghost predicate Grazed(windows: seq<Window>) {
    forall w | w in windows :: w.frames > 0 && w.underruns > 0 && 100 * w.underruns <= w.frames
  }

  lemma SteadyWindow(k: Control, w: Window, q: real)
    requires Running(k) && k.warmup == 0 && 1.0 < q <= 100.0 && Steadily([w], q)
    ensures AdaptRoom(k, w.frames, w.underruns).lossEma == q + (k.lossEma - q) * 0.7
    ensures Running(AdaptRoom(k, w.frames, w.underruns)) && AdaptRoom(k, w.frames, w.underruns).warmup == 0
  {
    assert w in [w];
    var u, f := w.underruns as real, w.frames as real;
    QuotientIs(u * 100.0, q, f);
    if w.underruns == 0 { ProductGrows(q, 0.0, f); }
    if u > f { ProductGrows(u, f, 100.0); ProductGrows(100.0, q, f); }
    assert w.underruns <= w.frames by { NoMoreThan(u, q, f); }
    RoomKeepsOk(k, w.frames, w.underruns);
  }

  lemma QuotientIs(a: real, q: real, f: real)
    requires f > 0.0 && a == q * f
    ensures a / f == q
  {
  }

  lemma NoMoreThan(u: real, q: real, f: real)
    requires f > 0.0 && q <= 100.0 && u * 100.0 == q * f
    ensures u <= f
  {
    ProductNotNegative(100.0 - q, f);
    assert (100.0 - q) * f == 100.0 * f - q * f;
  }

  /** Without underruns a room's average halves in every window. */
  lemma {:induction false} CleanAverage(k: Control, windows: seq<Window>)
    requires Running(k) && k.warmup == 0 && Clean(windows)
    ensures RoomRun(k, windows).lossEma == k.lossEma * Power(0.5, |windows|)
    decreases |windows|
  {
    hide AdaptRoom;
    if windows != [] {
      assert windows[0] in windows;
      CleanWindow(k, windows[0].frames);
      CleanAverage(AdaptRoom(k, windows[0].frames, windows[0].underruns), windows[1..]);
      PowerStep(0.5, |windows| - 1, k.lossEma);
    }
  }

  /** With scattered underruns it is cut to 65 percent in every window. */
  lemma {:induction false} GrazedAverage(k: Control, windows: seq<Window>)
    requires Running(k) && k.warmup == 0 && Grazed(windows)
    ensures RoomRun(k, windows).lossEma == k.lossEma * Power(0.65, |windows|)
    decreases |windows|
  {
    hide AdaptRoom;
    if windows != [] {
      assert windows[0] in windows;
      GrazedWindow(k, windows[0]);
      GrazedAverage(AdaptRoom(k, windows[0].frames, windows[0].underruns), windows[1..]);
      PowerStep(0.65, |windows| - 1, k.lossEma);
    }
  }

  /** Under a steady loss of more than one percent it is drawn three tenths of the way
      to that loss in every window. */
  lemma {:induction false} LossyAverage(k: Control, windows: seq<Window>, q: real)
    requires Running(k) && k.warmup == 0 && Steadily(windows, q) && 1.0 < q <= 100.0
    ensures RoomRun(k, windows).lossEma == q + (k.lossEma - q) * Power(0.7, |windows|)
    decreases |windows|
  {
    hide AdaptRoom;
    if windows != [] {
      var w := windows[0];
      assert w in windows && [w][0] == w;
      SteadyWindow(k, w, q);
      LossyAverage(AdaptRoom(k, w.frames, w.underruns), windows[1..], q);
      PowerStep(0.7, |windows| - 1, k.lossEma - q);
    }
  }

  lemma GrazedWindow(k: Control, w: Window)
    requires Running(k) && k.warmup == 0 && w.frames > 0 && w.underruns > 0 && 100 * w.underruns <= w.frames
    ensures var k' := AdaptRoom(k, w.frames, w.underruns);
            Running(k') && k'.warmup == 0 && k'.ceiling == k.ceiling && k'.lossEma == k.lossEma * 0.65
            && k'.outgoing == NextRoomBitrate(k.outgoing, k.ceiling, k'.lossEma)
  {
    CalmPct(w.frames, w.underruns);
    RoomKeepsOk(k, w.frames, w.underruns);
  }

  /** A direct call's average over equal reports: drawn two fifths of the way each time. */
  lemma {:induction false} DirectAverage(k: Control, reports: seq<real>, q: real)
    requires q >= 0.0 && forall i | 0 <= i < |reports| :: reports[i] == q
    ensures QualityRun(k, reports).lossEma == q + (k.lossEma - q) * Power(0.6, |reports|)
    decreases |reports|
  {
    if reports != [] {
      DirectAverage(NetworkQuality(k, reports[0]), reports[1..], q);
      PowerStep(0.6, |reports| - 1, k.lossEma - q);
    }
  }

  // ----- Rates

  /** A rate after n steps that each scale it by a percentage and add a little. */
  function Compound(rate: nat, pct: nat, add: nat, n: nat): nat {
    if n == 0 then rate else Compound(rate, pct, add, n - 1) * pct / 100 + add
  }

  lemma {:induction false} CompoundGrows(rate: nat, pct: nat, add: nat, n: nat, m: nat)
    requires n <= m && pct >= 100
    ensures Compound(rate, pct, add, n) <= Compound(rate, pct, add, m)
    decreases m - n
  {
    if n < m {
      CompoundGrows(rate, pct, add, n, m - 1);
      Scaled(Compound(rate, pct, add, m - 1), pct);
    }
  }

  lemma Scaled(x: nat, pct: nat)
    requires pct >= 100
    ensures x * pct / 100 >= x
  {
    assert x * pct == x * 100 + x * (pct - 100);
  }

  lemma BandsRise(rate: nat, track: nat)
    ensures rate * 104 / 100 >= rate && rate * 108 / 100 >= rate && rate * 110 / 100 >= rate
    ensures rate >= track ==>
              && rate * 104 / 100 >= track * 104 / 100 && rate * 108 / 100 >= track * 108 / 100
              && rate * 110 / 100 >= track * 110 / 100
  {
  }

  lemma CleanRates()
    ensures Compound(17140, 110, 1000, 21) == 190814 && Compound(17140, 110, 1000, 22) >= 192000
  {
    assert Compound(17140, 110, 1000, 1) == 19854;
    assert Compound(17140, 110, 1000, 2) == 22839;
    assert Compound(17140, 110, 1000, 3) == 26122;
    assert Compound(17140, 110, 1000, 4) == 29734;
    assert Compound(17140, 110, 1000, 5) == 33707;
    assert Compound(17140, 110, 1000, 6) == 38077;
    assert Compound(17140, 110, 1000, 7) == 42884;
    assert Compound(17140, 110, 1000, 8) == 48172;
    assert Compound(17140, 110, 1000, 9) == 53989;
    assert Compound(17140, 110, 1000, 10) == 60387;
    assert Compound(17140, 110, 1000, 11) == 67425;
    assert Compound(17140, 110, 1000, 12) == 75167;
    assert Compound(17140, 110, 1000, 13) == 83683;
    assert Compound(17140, 110, 1000, 14) == 93051;
    assert Compound(17140, 110, 1000, 15) == 103356;
    assert Compound(17140, 110, 1000, 16) == 114691;
    assert Compound(17140, 110, 1000, 17) == 127160;
    assert Compound(17140, 110, 1000, 18) == 140876;
    assert Compound(17140, 110, 1000, 19) == 155963;
    assert Compound(17140, 110, 1000, 20) == 172559;
    assert Compound(17140, 110, 1000, 21) == 190814;
    assert Compound(17140, 110, 1000, 22) == 210895;
  }

  lemma CalmRates()
    ensures Compound(18325, 110, 1000, 20) == 180529 && Compound(18325, 110, 1000, 21) >= 192000
  {
    assert Compound(18325, 110, 1000, 1) == 21157;
    assert Compound(18325, 110, 1000, 2) == 24272;
    assert Compound(18325, 110, 1000, 3) == 27699;
    assert Compound(18325, 110, 1000, 4) == 31468;
    assert Compound(18325, 110, 1000, 5) == 35614;
    assert Compound(18325, 110, 1000, 6) == 40175;
    assert Compound(18325, 110, 1000, 7) == 45192;
    assert Compound(18325, 110, 1000, 8) == 50711;
    assert Compound(18325, 110, 1000, 9) == 56782;
    assert Compound(18325, 110, 1000, 10) == 63460;
    assert Compound(18325, 110, 1000, 11) == 70806;
    assert Compound(18325, 110, 1000, 12) == 78886;
    assert Compound(18325, 110, 1000, 13) == 87774;
    assert Compound(18325, 110, 1000, 14) == 97551;
    assert Compound(18325, 110, 1000, 15) == 108306;
    assert Compound(18325, 110, 1000, 16) == 120136;
    assert Compound(18325, 110, 1000, 17) == 133149;
    assert Compound(18325, 110, 1000, 18) == 147463;
    assert Compound(18325, 110, 1000, 19) == 163209;
    assert Compound(18325, 110, 1000, 20) == 180529;
    assert Compound(18325, 110, 1000, 21) == 199581;
  }

  lemma MiddlingRatesHalfway()
    ensures Compound(16000, 104, 500, 25) == 63458
  {
    assert Compound(16000, 104, 500, 1) == 17140;
    assert Compound(16000, 104, 500, 2) == 18325;
    assert Compound(16000, 104, 500, 3) == 19558;
    assert Compound(16000, 104, 500, 4) == 20840;
    assert Compound(16000, 104, 500, 5) == 22173;
    assert Compound(16000, 104, 500, 6) == 23559;
    assert Compound(16000, 104, 500, 7) == 25001;
    assert Compound(16000, 104, 500, 8) == 26501;
    assert Compound(16000, 104, 500, 9) == 28061;
    assert Compound(16000, 104, 500, 10) == 29683;
    assert Compound(16000, 104, 500, 11) == 31370;
    assert Compound(16000, 104, 500, 12) == 33124;
    assert Compound(16000, 104, 500, 13) == 34948;
    assert Compound(16000, 104, 500, 14) == 36845;
    assert Compound(16000, 104, 500, 15) == 38818;
    assert Compound(16000, 104, 500, 16) == 40870;
    assert Compound(16000, 104, 500, 17) == 43004;
    assert Compound(16000, 104, 500, 18) == 45224;
    assert Compound(16000, 104, 500, 19) == 47532;
    assert Compound(16000, 104, 500, 20) == 49933;
    assert Compound(16000, 104, 500, 21) == 52430;
    assert Compound(16000, 104, 500, 22) == 55027;
    assert Compound(16000, 104, 500, 23) == 57728;
    assert Compound(16000, 104, 500, 24) == 60537;
    assert Compound(16000, 104, 500, 25) == 63458;
  }

  lemma MiddlingRates()
    ensures Compound(16000, 104, 500, 50) == 189976 && Compound(16000, 104, 500, 51) >= 192000
  {
    MiddlingRatesHalfway();
    assert Compound(16000, 104, 500, 26) == 66496;
    assert Compound(16000, 104, 500, 27) == 69655;
    assert Compound(16000, 104, 500, 28) == 72941;
    assert Compound(16000, 104, 500, 29) == 76358;
    assert Compound(16000, 104, 500, 30) == 79912;
    assert Compound(16000, 104, 500, 31) == 83608;
    assert Compound(16000, 104, 500, 32) == 87452;
    assert Compound(16000, 104, 500, 33) == 91450;
    assert Compound(16000, 104, 500, 34) == 95608;
    assert Compound(16000, 104, 500, 35) == 99932;
    assert Compound(16000, 104, 500, 36) == 104429;
    assert Compound(16000, 104, 500, 37) == 109106;
    assert Compound(16000, 104, 500, 38) == 113970;
    assert Compound(16000, 104, 500, 39) == 119028;
    assert Compound(16000, 104, 500, 40) == 124289;
    assert Compound(16000, 104, 500, 41) == 129760;
    assert Compound(16000, 104, 500, 42) == 135450;
    assert Compound(16000, 104, 500, 43) == 141368;
    assert Compound(16000, 104, 500, 44) == 147522;
    assert Compound(16000, 104, 500, 45) == 153922;
    assert Compound(16000, 104, 500, 46) == 160578;
    assert Compound(16000, 104, 500, 47) == 167501;
    assert Compound(16000, 104, 500, 48) == 174701;
    assert Compound(16000, 104, 500, 49) == 182189;
    assert Compound(16000, 104, 500, 50) == 189976;
    assert Compound(16000, 104, 500, 51) == 198075;
  }

  lemma DirectRates()
    ensures Compound(16000, 108, 1000, 25) == 182646 && Compound(16000, 108, 1000, 26) >= 192000
  {
    assert Compound(16000, 108, 1000, 1) == 18280;
    assert Compound(16000, 108, 1000, 2) == 20742;
    assert Compound(16000, 108, 1000, 3) == 23401;
    assert Compound(16000, 108, 1000, 4) == 26273;
    assert Compound(16000, 108, 1000, 5) == 29374;
    assert Compound(16000, 108, 1000, 6) == 32723;
    assert Compound(16000, 108, 1000, 7) == 36340;
    assert Compound(16000, 108, 1000, 8) == 40247;
    assert Compound(16000, 108, 1000, 9) == 44466;
    assert Compound(16000, 108, 1000, 10) == 49023;
    assert Compound(16000, 108, 1000, 11) == 53944;
    assert Compound(16000, 108, 1000, 12) == 59259;
    assert Compound(16000, 108, 1000, 13) == 64999;
    assert Compound(16000, 108, 1000, 14) == 71198;
    assert Compound(16000, 108, 1000, 15) == 77893;
    assert Compound(16000, 108, 1000, 16) == 85124;
    assert Compound(16000, 108, 1000, 17) == 92933;
    assert Compound(16000, 108, 1000, 18) == 101367;
    assert Compound(16000, 108, 1000, 19) == 110476;
    assert Compound(16000, 108, 1000, 20) == 120314;
    assert Compound(16000, 108, 1000, 21) == 130939;
    assert Compound(16000, 108, 1000, 22) == 142414;
    assert Compound(16000, 108, 1000, 23) == 154807;
    assert Compound(16000, 108, 1000, 24) == 168191;
    assert Compound(16000, 108, 1000, 25) == 182646;
    assert Compound(16000, 108, 1000, 26) == 198257;
  }

  // ----- The slowest recovery

  /** An average that starts at 100 and is scaled by `factor` each time. */
  function Fading(factor: real, n: nat): real {
    if n == 0 then 100.0 else Fading(factor, n - 1) * factor
  }

  lemma FadingSteps(factor: real, n: nat)
    ensures Fading(factor, n + 1) == Fading(factor, n) * factor
    ensures Fading(factor, 0) == 100.0
  {
  }

  lemma {:induction false} FadingPositive(factor: real, n: nat)
    requires 0.0 < factor < 1.0
    ensures Fading(factor, n) > 0.0
  {
    hide Fading;
    if n == 0 {
      FadingSteps(factor, 0);
    } else {
      FadingPositive(factor, n - 1);
      FadingSteps(factor, n - 1);
      ScaledDown(Fading(factor, n - 1), factor);
    }
  }

  lemma FadingFallsOne(factor: real, n: nat)
    requires 0.0 < factor < 1.0
    ensures Fading(factor, n + 1) <= Fading(factor, n)
  {
    hide Fading;
    FadingPositive(factor, n);
    FadingSteps(factor, n);
    ScaledDown(Fading(factor, n), factor);
  }

  lemma {:induction false} FadingFalls(factor: real, n: nat, m: nat)
    requires 0.0 < factor < 1.0 && n <= m
    ensures 0.0 < Fading(factor, m) <= Fading(factor, n)
    decreases m
  {
    hide Fading;
    FadingPositive(factor, m);
    if n < m {
      FadingFalls(factor, n, m - 1);
      FadingFallsOne(factor, m - 1);
    }
  }

  lemma TimesUnits(x: real, factor: real)
    ensures factor * x == x * factor && 0.0 * x == 0.0 && 1.0 * x == x
  {
  }

  lemma ScaledDown(x: real, factor: real)
    requires x > 0.0 && 0.0 < factor < 1.0
    ensures 0.0 < x * factor <= x
  {
    ProductGrows(factor, 0.0, x);
    ProductGrows(1.0, factor, x);
    TimesUnits(x, factor);
  }

  /** The bands of a room and of a direct call, from the floor up. */
  function BandRate(direct: bool, rate: nat, ema: real): nat {
    if ema > 10.0 then 16_000
    else if ema > 4.0 then (if direct then rate else rate * 104 / 100 + 500)
    else if direct then rate * 108 / 100 + 1_000 else rate * 110 / 100 + 1_000
  }

  /** The rate from the lowest start while the average fades. */
  function Track(direct: bool, factor: real, n: nat): nat {
    if n == 0 then 16_000 else BandRate(direct, Track(direct, factor, n - 1), Fading(factor, n))
  }

  function Adapted(direct: bool, rate: nat, ceiling: nat, ema: real): nat {
    if direct then NextBitrate(rate, ceiling, ema) else NextRoomBitrate(rate, ceiling, ema)
  }

  /** A smaller average and a higher rate never adapt to a lower rate than the track's. */
  lemma TrackStep(direct: bool, rate: nat, ceiling: nat, ema: real, track: nat, e: real)
    requires 16_000 <= rate <= ceiling && ema <= e && (rate >= track || rate == ceiling)
    ensures var next := Adapted(direct, rate, ceiling, ema);
            next >= BandRate(direct, track, e) || next == ceiling
  {
    BandsRise(rate, track);
    CapacityBounds(rate, ceiling);
    CapacityBounds(Percent(rate, 104) + 500, ceiling);
    CapacityBounds(Percent(rate, 108) + 1_000, ceiling);
    CapacityBounds(Percent(rate, 110) + 1_000, ceiling);
    CapacityBounds(Percent(rate, 80), ceiling);
  }

  /** And from the track's own state, with the highest ceiling, exactly the track's. */
  lemma TrackExact(direct: bool, factor: real, n: nat)
    requires 0.0 < factor < 1.0 && Track(direct, factor, n + 1) <= 192_000
    ensures Adapted(direct, Track(direct, factor, n), 192_000, Fading(factor, n + 1)) == Track(direct, factor, n + 1)
  {
    TrackFromFloor(direct, factor, n);
    FadingFalls(factor, n, n + 1);
  }

  lemma {:induction false} TrackFromFloor(direct: bool, factor: real, n: nat)
    requires 0.0 < factor < 1.0
    ensures Track(direct, factor, n) >= 16_000
    ensures Fading(factor, n) > 10.0 ==> Track(direct, factor, n) == 16_000
  {
    if n > 0 { TrackFromFloor(direct, factor, n - 1); }
  }

  lemma TrackRisesOne(direct: bool, factor: real, n: nat)
    requires 0.0 < factor < 1.0
    ensures Track(direct, factor, n) <= Track(direct, factor, n + 1)
  {
    TrackFromFloor(direct, factor, n);
    FadingFalls(factor, n, n + 1);
  }

  lemma {:induction false} TrackRises(direct: bool, factor: real, n: nat, m: nat)
    requires 0.0 < factor < 1.0 && n <= m
    ensures Track(direct, factor, n) <= Track(direct, factor, m)
    decreases m - n
  {
    if n < m {
      TrackRises(direct, factor, n, m - 1);
      TrackRisesOne(direct, factor, m - 1);
    }
  }

  /** Once the average has settled the track is a compound climb. */
  lemma {:induction false} TrackClimbs(direct: bool, factor: real, s: nat, n: nat)
    requires 0.0 < factor < 1.0 && Fading(factor, s + 1) <= 4.0
    ensures Track(direct, factor, s + n) ==
            Compound(Track(direct, factor, s), if direct then 108 else 110, 1000, n)
    decreases n
  {
    if n > 0 {
      TrackClimbs(direct, factor, s, n - 1);
      FadingFalls(factor, s + 1, s + n);
    }
  }

  lemma CleanTrack()
    ensures Track(false, 0.5, 25) == 190814 && Track(false, 0.5, 26) >= 192000
    ensures Fading(0.5, 5) == 3.125
  {
    assert Fading(0.5, 1) == 50.0 && Fading(0.5, 2) == 25.0 && Fading(0.5, 3) == 12.5 && Fading(0.5, 4) == 6.25;
    assert Track(false, 0.5, 3) == 16000;
    assert Track(false, 0.5, 4) == 17140;
    TrackClimbs(false, 0.5, 4, 21);
    TrackClimbs(false, 0.5, 4, 22);
    CleanRates();
  }

  lemma CalmTrack()
    ensures Track(false, 0.65, 27) == 180529 && Track(false, 0.65, 28) >= 192000
    ensures Fading(0.65, 8) <= 4.0
  {
    CalmFading();
    assert Track(false, 0.65, 5) == 16000;
    assert Track(false, 0.65, 6) == 17140;
    assert Track(false, 0.65, 7) == 18325;
    TrackClimbs(false, 0.65, 7, 20);
    TrackClimbs(false, 0.65, 7, 21);
    CalmRates();
  }

  lemma CalmFading()
    ensures Fading(0.65, 5) > 10.0 >= Fading(0.65, 6) && Fading(0.65, 7) > 4.0 >= Fading(0.65, 8)
    ensures Fading(0.65, 6) > 4.0
  {
    assert Fading(0.65, 2) == 42.25;
    assert Fading(0.65, 4) == 17.850625;
    assert Fading(0.65, 6) == 7.5418890625;
  }

  lemma DirectTrack()
    ensures Track(true, 0.6, 31) == 182646 && Track(true, 0.6, 32) >= 192000
  {
    assert Fading(0.6, 2) == 36.0;
    assert Fading(0.6, 4) == 12.96;
    assert Fading(0.6, 5) == 7.776 && Fading(0.6, 6) == 4.6656 && Fading(0.6, 7) <= 4.0;
    assert Track(true, 0.6, 4) == 16000;
    assert Track(true, 0.6, 6) == 16000;
    TrackClimbs(true, 0.6, 6, 25);
    TrackClimbs(true, 0.6, 6, 26);
    DirectRates();
  }

  // ----- Rooms

  /** Windows that scale the average by `factor`, or by no more. */
  ghost predicate FadesBy(windows: seq<Window>, factor: real) {
    (factor == 0.5 && Clean(windows)) || (factor == 0.65 && Calm(windows))
  }

  lemma {:induction false} RoomKeepsUp(k: Control, windows: seq<Window>, factor: real, n: nat)
    requires Running(k) && k.warmup == 0 && FadesBy(windows, factor) && k.lossEma <= Fading(factor, n)
    requires k.outgoing >= Track(false, factor, n) || k.outgoing == k.ceiling
    ensures var k' := RoomRun(k, windows);
            && Running(k') && k'.ceiling == k.ceiling && k'.lossEma <= Fading(factor, n + |windows|)
            && (k'.outgoing >= Track(false, factor, n + |windows|) || k'.outgoing == k'.ceiling)
    decreases |windows|
  {
    hide AdaptRoom;
    if windows != [] {
      var w := windows[0];
      assert w in windows;
      if factor == 0.5 { CleanWindow(k, w.frames); } else { CalmWindow(k, w.frames, w.underruns); }
      var k' := AdaptRoom(k, w.frames, w.underruns);
      TrackStep(false, k.outgoing, k.ceiling, k'.lossEma, Track(false, factor, n), Fading(factor, n + 1));
      RoomKeepsUp(k', windows[1..], factor, n + 1);
    }
  }

  lemma {:induction false} RoomOnTrack(k: Control, windows: seq<Window>, factor: real, n: nat)
    requires Running(k) && k.warmup == 0 && k.ceiling == 192_000
    requires (factor == 0.5 && Clean(windows)) || (factor == 0.65 && Grazed(windows))
    requires k.lossEma == Fading(factor, n) && k.outgoing == Track(false, factor, n)
    requires Track(false, factor, n + |windows|) <= 192_000
    ensures RoomRun(k, windows).outgoing == Track(false, factor, n + |windows|)
    decreases |windows|
  {
    hide AdaptRoom;
    if windows != [] {
      var w := windows[0];
      assert w in windows;
      if factor == 0.5 { CleanWindow(k, w.frames); } else { GrazedWindow(k, w); }
      TrackRises(false, factor, n + 1, n + |windows|);
      TrackExact(false, factor, n);
      RoomOnTrack(AdaptRoom(k, w.frames, w.underruns), windows[1..], factor, n + 1);
    }
  }

  /** In a room past setup, with the worst average, the lowest rate and the highest ceiling. */
  const SLOWEST: Control := Control(true, 0, true, true, 0, 100.0, 16_000, 192_000)

  lemma PastSetup(k: Control, windows: seq<Window>) returns (k0: Control, rest: seq<Window>)
    requires Running(k) && k.warmup <= |windows| && forall w | w in windows :: w.frames > 0
    ensures k0 == k.(warmup := 0) && Running(k0) && rest == windows[k.warmup..]
    ensures RoomRun(k, windows) == RoomRun(k0, rest)
    ensures forall w | w in rest :: w in windows
  {
    WarmupPasses(k, windows);
    k0, rest := k.(warmup := 0), windows[k.warmup..];
  }

  /** From any state a run can reach, windows without underruns bring the average to at
      most 4 by the fifth after setup, and the rate to the ceiling by the 26th. */
  lemma CleanRunRecovers(k: Control, windows: seq<Window>)
    requires Running(k) && Clean(windows)
    ensures |windows| >= k.warmup + 5 ==> RoomRun(k, windows).lossEma <= 4.0
    ensures |windows| >= k.warmup + 26 ==> RoomRun(k, windows).outgoing == k.ceiling
  {
    hide AdaptRoom, RoomRun, Track, Fading;
    if |windows| >= k.warmup + 5 {
      var k0, rest := PastSetup(k, windows);
      Starts();
      RoomKeepsUp(k0, rest, 0.5, 0);
      CleanTrack();
      FadingFalls(0.5, 5, |rest|);
      if |rest| >= 26 { TrackRises(false, 0.5, 26, |rest|); }
    }
  }

  lemma Starts()
    ensures forall factor :: Fading(factor, 0) == 100.0
    ensures forall direct, factor :: Track(direct, factor, 0) == 16_000
  {
  }

  /** From the slowest start 25 of them do not suffice. */
  lemma CleanRunTakesThemAll(windows: seq<Window>)
    requires Clean(windows) && |windows| == 25
    ensures Running(SLOWEST) && RoomRun(SLOWEST, windows).outgoing == 190_814 < SLOWEST.ceiling
  {
    hide RoomRun, AdaptRoom, Track, Fading;
    Starts();
    CleanTrack();
    RoomOnTrack(SLOWEST, windows, 0.5, 0);
  }

  /** Scattered underruns, up to one slot in a hundred, only slow recovery: to the eighth
      window and the 28th. */
  lemma CalmRunRecovers(k: Control, windows: seq<Window>)
    requires Running(k) && Calm(windows)
    ensures |windows| >= k.warmup + 8 ==> RoomRun(k, windows).lossEma <= 4.0
    ensures |windows| >= k.warmup + 28 ==> RoomRun(k, windows).outgoing == k.ceiling
  {
    hide AdaptRoom, RoomRun, Track, Fading;
    if |windows| >= k.warmup + 8 {
      var k0, rest := PastSetup(k, windows);
      Starts();
      RoomKeepsUp(k0, rest, 0.65, 0);
      CalmTrack();
      FadingFalls(0.65, 8, |rest|);
      if |rest| >= 28 { TrackRises(false, 0.65, 28, |rest|); }
    }
  }

  /** From the slowest start 27 windows that each have some underruns do not suffice. */
  lemma CalmRunTakesThemAll(windows: seq<Window>)
    requires Grazed(windows) && |windows| == 27
    ensures Running(SLOWEST) && RoomRun(SLOWEST, windows).outgoing == 180_529 < SLOWEST.ceiling
  {
    hide RoomRun, AdaptRoom, Track, Fading;
    Starts();
    CalmTrack();
    RoomOnTrack(SLOWEST, windows, 0.65, 0);
  }

  // ----- The middle band

  /** Every window loses more than four percent and at most ten. */
  ghost predicate Middling(windows: seq<Window>) {
    forall w | w in windows :: w.frames > 0 && 25 * w.underruns > w.frames && 10 * w.underruns <= w.frames
  }

  lemma MiddlingWindow(k: Control, w: Window)
    requires Running(k) && k.warmup == 0 && 4.0 < k.lossEma <= 10.0
    requires w.frames > 0 && 25 * w.underruns > w.frames && 10 * w.underruns <= w.frames
    ensures var k' := AdaptRoom(k, w.frames, w.underruns);
            && Running(k') && k'.warmup == 0 && k'.ceiling == k.ceiling && 4.0 < k'.lossEma <= 10.0
            && k'.outgoing == Capacity(k.outgoing * 104 / 100 + 500, k.ceiling)
  {
    RoomKeepsOk(k, w.frames, w.underruns);
    var u, f := w.underruns as real, w.frames as real;
    CompareQuotient(u * 100.0, 10.0, f);
    CompareQuotient(u * 100.0, 4.0, f);
    assert (25 * w.underruns) as real == 25.0 * u && (10 * w.underruns) as real == 10.0 * u;
  }

  lemma {:induction false} MiddlingClimbs(k: Control, windows: seq<Window>, n: nat)
    requires Running(k) && k.warmup == 0 && 4.0 < k.lossEma <= 10.0 && Middling(windows)
    ensures var k' := RoomRun(k, windows);
            && 4.0 < k'.lossEma <= 10.0 && Running(k') && k'.ceiling == k.ceiling
            && (k.outgoing >= Compound(16_000, 104, 500, n) || k.outgoing == k.ceiling ==>
                  k'.outgoing >= Compound(16_000, 104, 500, n + |windows|) || k'.outgoing == k'.ceiling)
            && (k.outgoing == Compound(16_000, 104, 500, n) && Compound(16_000, 104, 500, n + |windows|) <= k.ceiling ==>
                  k'.outgoing == Compound(16_000, 104, 500, n + |windows|))
    decreases |windows|
  {
    hide AdaptRoom, Compound;
    if windows != [] {
      var w := windows[0];
      assert w in windows;
      MiddlingWindow(k, w);
      MiddlingRung(k.outgoing, k.ceiling, n);
      CompoundGrows(16_000, 104, 500, n + 1, n + |windows|);
      MiddlingClimbs(AdaptRoom(k, w.frames, w.underruns), windows[1..], n + 1);
    }
  }

  lemma MiddlingRung(rate: nat, ceiling: nat, n: nat)
    requires 16_000 <= rate <= ceiling
    ensures var next, rung := Capacity(rate * 104 / 100 + 500, ceiling), Compound(16_000, 104, 500, n + 1);
            && (rate >= Compound(16_000, 104, 500, n) || rate == ceiling ==> next >= rung || next == ceiling)
            && (rate == Compound(16_000, 104, 500, n) && rung <= ceiling ==> next == rung)
  {
    var track := Compound(16_000, 104, 500, n);
    assert rate >= track ==> rate * 104 / 100 >= track * 104 / 100;
    CapacityBounds(rate * 104 / 100 + 500, ceiling);
  }

  /** Loss held between four and ten percent does not keep the rate down: from any
      average in that band it is back at the ceiling within 51 windows after setup. */
  lemma MiddlingRunRecovers(k: Control, windows: seq<Window>)
    requires Running(k) && 4.0 < k.lossEma <= 10.0 && Middling(windows) && |windows| >= k.warmup + 51
    ensures RoomRun(k, windows).outgoing == k.ceiling
    ensures 4.0 < RoomRun(k, windows).lossEma <= 10.0
  {
    hide AdaptRoom, RoomRun, Compound;
    var k0, rest := PastSetup(k, windows);
    assert Compound(16_000, 104, 500, 0) == 16_000 by { CompoundStarts(); }
    MiddlingClimbs(k0, rest, 0);
    MiddlingRates();
    CompoundGrows(16_000, 104, 500, 51, |rest|);
  }

  lemma CompoundStarts()
    ensures Compound(16_000, 104, 500, 0) == 16_000
  {
  }

  /** From the lowest rate under the highest ceiling 50 of them do not suffice. */
  lemma MiddlingRunTakesThemAll(windows: seq<Window>)
    requires Middling(windows) && |windows| == 50
    ensures var k := SLOWEST.(lossEma := 5.0);
            Running(k) && RoomRun(k, windows).outgoing == 189_976 < k.ceiling
  {
    hide RoomRun, AdaptRoom, Compound;
    assert Compound(16_000, 104, 500, 0) == 16_000 by { CompoundStarts(); }
    MiddlingRates();
    MiddlingClimbs(SLOWEST.(lossEma := 5.0), windows, 0);
  }

  // ----- Direct calls

  ghost predicate LossFreeReports(reports: seq<real>) {
    forall i | 0 <= i < |reports| :: reports[i] <= 0.0
  }

  lemma {:induction false} DirectKeepsUp(k: Control, reports: seq<real>, n: nat)
    requires ControlOk(k) && LossFreeReports(reports) && k.lossEma <= Fading(0.6, n)
    requires k.outgoing >= Track(true, 0.6, n) || k.outgoing == k.ceiling
    ensures var k' := QualityRun(k, reports);
            && ControlOk(k') && k'.ceiling == k.ceiling
            && (k'.outgoing >= Track(true, 0.6, n + |reports|) || k'.outgoing == k'.ceiling)
    decreases |reports|
  {
    if reports != [] {
      QualityKeepsOk(k, reports[0]);
      var k' := NetworkQuality(k, reports[0]);
      TrackStep(true, k.outgoing, k.ceiling, k'.lossEma, Track(true, 0.6, n), Fading(0.6, n + 1));
      DirectKeepsUp(k', reports[1..], n + 1);
    }
  }

  lemma {:induction false} DirectOnTrack(k: Control, reports: seq<real>, n: nat)
    requires k.ceiling == 192_000 && LossFreeReports(reports)
    requires k.lossEma == Fading(0.6, n) && k.outgoing == Track(true, 0.6, n)
    requires Track(true, 0.6, n + |reports|) <= 192_000
    ensures QualityRun(k, reports).outgoing == Track(true, 0.6, n + |reports|)
    decreases |reports|
  {
    if reports != [] {
      TrackRises(true, 0.6, n + 1, n + |reports|);
      TrackExact(true, 0.6, n);
      DirectOnTrack(NetworkQuality(k, reports[0]), reports[1..], n + 1);
    }
  }

  /** A direct call recovers from any state within 32 loss-free reports. */
  lemma DirectCallRecovers(k: Control, reports: seq<real>)
    requires ControlOk(k) && LossFreeReports(reports) && |reports| >= 32
    ensures QualityRun(k, reports).outgoing == k.ceiling
  {
    hide NetworkQuality, QualityRun, Track, Fading;
    Starts();
    DirectKeepsUp(k, reports, 0);
    DirectTrack();
    TrackRises(true, 0.6, 32, |reports|);
  }

  /** From the slowest start 31 of them do not suffice. */
  lemma DirectCallTakesThemAll(reports: seq<real>)
    requires LossFreeReports(reports) && |reports| == 31
    ensures ControlOk(SLOWEST) && QualityRun(SLOWEST, reports).outgoing == 182_646 < SLOWEST.ceiling
  {
    hide NetworkQuality, QualityRun, Track, Fading;
    Starts();
    DirectTrack();
    DirectOnTrack(SLOWEST, reports, 0);
  }
}
