/**
 * What the rate controller does over whole runs, of any length. The theorems
 * are about sequences of measurements; `ReportsAreMeasurements` carries them to
 * sequences of reports.
 */
module RateRuns {
  import opened Prelude
  import opened Rate

  // ----- runs and counting --------------------------------------------------------

  ghost function Run(c: Ctl, ms: seq<Sample>): Ctl {
    if ms == [] then c else Apply(Run(c, ms[..|ms| - 1]), ms[|ms| - 1])
  }

  /** Number of measurements of the run at which `p` holds of the state and the measurement. */
  ghost function Count(c: Ctl, ms: seq<Sample>, p: (Ctl, Sample) -> bool): nat {
    if ms == [] then 0
    else
      var front := ms[..|ms| - 1];
      Count(c, front, p) + (if p(Run(c, front), ms[|ms| - 1]) then 1 else 0)
  }

  /** `p` holds at every measurement of the run. */
  ghost predicate Always(c: Ctl, ms: seq<Sample>, p: (Ctl, Sample) -> bool) {
    if ms == [] then true
    else
      var front := ms[..|ms| - 1];
      Always(c, front, p) && p(Run(c, front), ms[|ms| - 1])
  }

  ghost function RunReports(c: Ctl, rs: seq<Report>): (d: Ctl)
    requires c.seg > 0
    ensures d.seg == c.seg
  {
    if rs == [] then c else OnReport(RunReports(c, rs[..|rs| - 1]), rs[|rs| - 1])
  }

  /** The measurements that a run of reports yields. */
  ghost function Measured(c: Ctl, rs: seq<Report>): seq<Sample>
    requires c.seg > 0
  {
    if rs == [] then []
    else
      var front := rs[..|rs| - 1];
      var m := Measure(RunReports(c, front), rs[|rs| - 1]);
      if m.None? then Measured(c, front) else Measured(c, front) + [m.value]
  }

  lemma ApplyIgnoresLast(c: Ctl, last: Option<Snap>, m: Sample)
    ensures Apply(c.(last := last), m) == Apply(c, m).(last := last)
  {
  }

  /** Reports act on the controller only through their measurements. */
  lemma {:induction false} ReportsAreMeasurements(c: Ctl, rs: seq<Report>)
    requires c.seg > 0
    ensures RunReports(c, rs) == Run(c, Measured(c, rs)).(last := RunReports(c, rs).last)
  {
    if rs != [] {
      var front, r := rs[..|rs| - 1], rs[|rs| - 1];
      ReportsAreMeasurements(c, front);
      var d, m := RunReports(c, front), Measure(RunReports(c, front), r);
      if m.Some? {
        var ms := Measured(c, rs);
        assert ms[..|ms| - 1] == Measured(c, front);
        ApplyIgnoresLast(d, NextLast(d, r), m.value);
        ApplyIgnoresLast(Run(c, Measured(c, front)), d.last, m.value);
      }
    }
  }

  // ----- what can happen at one measurement -----------------------------------------

  /** Neither app-limited nor cooling down. */
  predicate Decides(c: Ctl, m: Sample) {
    !AppLimited(c, m) && c.cooldown == 0
  }

  predicate Qualifies(c: Ctl, m: Sample) {
    !AppLimited(c, m)
  }

  /** Smoothed loss and floor as the decision sees them. */
  function LossAt(c: Ctl, m: Sample): real {
    Track(c, m).ewma.value
  }

  function FloorAt(c: Ctl, m: Sample): real {
    Track(c, m).floor.value.loss
  }

  predicate Excessive(c: Ctl, m: Sample) {
    LossAt(c, m) - FloorAt(c, m) >= CUT_EXCESS
  }

  predicate Aborts(c: Ctl, m: Sample) {
    c.startup && m.raw - FloorAt(c, m) >= STARTUP_ABORT_EXCESS
  }

  /** The measurement makes the controller cut. */
  predicate Cuts(c: Ctl, m: Sample) {
    Decides(c, m) && (Excessive(c, m) || Aborts(c, m))
  }

  /** A clean, saturated decision of the startup phase. */
  predicate StartupDecision(c: Ctl, m: Sample) {
    && Decides(c, m) && !Cuts(c, m) && c.startup
    && LossAt(c, m) - FloorAt(c, m) <= CLEAN_EXCESS
    && m.sent >= GROW_EVIDENCE_FRAC * c.rate
  }

  predicate Doubles(c: Ctl, m: Sample) {
    StartupDecision(c, m) && m.delivered > c.best * STARTUP_GROWTH_MIN
  }

  predicate PlateauExit(c: Ctl, m: Sample) {
    StartupDecision(c, m) && !Doubles(c, m) && c.stagnant + 1 >= STARTUP_STAGNANT_EXIT
  }

  predicate RateFalls(c: Ctl, m: Sample) {
    Apply(c, m).rate < c.rate
  }

  // ----- what every measurement keeps -------------------------------------------------

  ghost predicate Sane(c: Ctl) {
    && MIN_RATE <= c.rate <= c.max
    && c.cooldown <= CUT_COOLDOWN
    && (c.ewma.Some? <==> c.floor.Some?)
    && c.stagnant <= STARTUP_STAGNANT_EXIT
    && (c.startup ==> c.stagnant < STARTUP_STAGNANT_EXIT)
  }

  lemma NewIsSane(seg: nat, capMbps: real)
    ensures Sane(New(seg, capMbps))
  {
  }

  lemma ApplySane(c: Ctl, m: Sample)
    requires Sane(c)
    ensures Sane(Apply(c, m)) && Apply(c, m).max == c.max
  {
  }

  lemma {:induction false} SaneRun(c: Ctl, ms: seq<Sample>)
    requires Sane(c)
    ensures Sane(Run(c, ms)) && Run(c, ms).max == c.max
  {
    if ms != [] {
      SaneRun(c, ms[..|ms| - 1]);
      ApplySane(Run(c, ms[..|ms| - 1]), ms[|ms| - 1]);
    }
  }

  /** The rate stays between the minimum and the cap over every run of reports. */
  lemma {:induction false} RateStaysInRange(seg: nat, capMbps: real, rs: seq<Report>)
    requires seg > 0
    ensures MIN_RATE <= RunReports(New(seg, capMbps), rs).rate <= Max(capMbps * 1000000.0 / 8.0, MIN_RATE)
  {
    var c := New(seg, capMbps);
    NewIsSane(seg, capMbps);
    ReportsAreMeasurements(c, rs);
    SaneRun(c, Measured(c, rs));
  }

  /** A cut always descends: to what the window says was delivered or by a tenth,
      whichever is lower, but not below the minimum. */
  lemma CutDescends(c: Ctl, m: Sample)
    requires Sane(c) && Cuts(c, m)
    ensures var c' := Apply(c, m);
            && c'.rate == Max(MIN_RATE, Min(0.9 * c.rate,
                                            MaxDelivered(c.history + [Delivery(m.tMs, m.delivered)], m.tMs)))
            && !c'.startup && c'.cooldown == CUT_COOLDOWN
  {
  }

  /** The rate falls only by a cut or at the plateau exit, which ends startup;
      startup never starts again. */
  lemma FallsOnlyByCutOrExit(c: Ctl, m: Sample)
    requires Sane(c)
    ensures RateFalls(c, m) ==> Cuts(c, m) || PlateauExit(c, m)
    ensures PlateauExit(c, m) ==> c.startup && !Apply(c, m).startup
    ensures Apply(c, m).startup ==> c.startup
  {
  }

  /** An interval that used less than 0.7 of the rate, and one during cooldown, decides
      nothing: loss and floor are tracked, the latter leaves a delivery sample and
      counts the cooldown down. */
  lemma NoDecision(c: Ctl, m: Sample)
    requires m.sent < 0.7 * c.rate || c.cooldown > 0
    ensures var c' := Apply(c, m);
            && c'.rate == c.rate && c'.startup == c.startup && c'.best == c.best && c'.stagnant == c.stagnant
            && c'.ewma == Some(LossAt(c, m)) && c'.floor.Some? && c'.floor.value.loss == FloorAt(c, m)
            && (m.sent < 0.7 * c.rate ==> c'.cooldown == c.cooldown && c'.history == c.history)
            && (m.sent >= 0.7 * c.rate ==>
                  c'.cooldown == c.cooldown - 1 && c'.history == c.history + [Delivery(m.tMs, m.delivered)])
  {
  }

  /** A sender that never uses 0.7 of the rate keeps it, over runs of any length and
      whatever the losses. */
  lemma {:induction false} AppLimitedKeepsRate(c: Ctl, ms: seq<Sample>)
    requires forall i | 0 <= i < |ms| :: ms[i].sent < 0.7 * c.rate
    ensures var c' := Run(c, ms);
            c'.rate == c.rate && c'.startup == c.startup && c'.cooldown == c.cooldown && c'.history == c.history
  {
    if ms != [] {
      AppLimitedKeepsRate(c, ms[..|ms| - 1]);
      NoDecision(Run(c, ms[..|ms| - 1]), ms[|ms| - 1]);
    }
  }

  /** Without a cut, an interval that used less than 0.9 of the rate changes none of
      rate, startup and its counters. */
  lemma NoGrowthUnsaturated(c: Ctl, m: Sample)
    requires Decides(c, m) && !Cuts(c, m) && m.sent < 0.9 * c.rate
    ensures var c' := Apply(c, m);
            && c'.rate == c.rate && c'.startup == c.startup && c'.best == c.best && c'.stagnant == c.stagnant
            && c'.cooldown == 0
  {
  }

  lemma AtAnchor(rate: real, best: real, a: real)
    requires a > 0.0
    ensures rate >= best / a <==> rate * a >= best
  {
    var y := best / a;
    assert y * a == best;
    Cancel(rate, y, a);
    if rate >= y {
      assert (rate - y) * a >= 0.0;
    }
  }

  /** After startup a clean saturated interval raises the rate by exactly 5%, or by
      exactly 1% where the rate, less the loss at the floor (at most half), is already
      the best delivered rate of the window; never beyond the cap. */
  lemma CleanGrowth(c: Ctl, m: Sample)
    requires Sane(c) && Decides(c, m) && !c.startup && !Cuts(c, m) && m.sent >= 0.9 * c.rate
    requires LossAt(c, m) - FloorAt(c, m) <= 0.02
    ensures var c', best := Apply(c, m), MaxDelivered(c.history + [Delivery(m.tMs, m.delivered)], m.tMs);
            && c'.rate == Min(c.max, c.rate * (if c.rate * (1.0 - Min(FloorAt(c, m), 0.5)) >= best then 1.01 else 1.05))
            && !c'.startup && c'.cooldown == 0
  {
    var best := MaxDelivered(c.history + [Delivery(m.tMs, m.delivered)], m.tMs);
    AtAnchor(c.rate, best, 1.0 - Min(FloorAt(c, m), 0.5));
  }

  /** A clean saturated startup interval that shows no growth keeps the rate; the third
      in a row ends startup at the best delivered rate of the window, without raising
      the rate and not below the minimum. */
  lemma PlateauEndsStartup(c: Ctl, m: Sample)
    requires Sane(c) && StartupDecision(c, m) && m.delivered <= 1.1 * c.best
    ensures var c', best := Apply(c, m), MaxDelivered(c.history + [Delivery(m.tMs, m.delivered)], m.tMs);
            && c'.stagnant == c.stagnant + 1 && c'.cooldown == 0
            && (c'.startup <==> c.stagnant < 2)
            && c'.rate == if c.stagnant < 2 then c.rate else Max(MIN_RATE, Min(c.rate, best))
  {
  }

  /** Between the clean and the cut band a decision probes 1% upward or holds. It
      holds exactly in startup, when the interval did not saturate the rate, and at
      the cap; startup and the plateau count stay as they are. */
  lemma MiddleBand(c: Ctl, m: Sample)
    requires Sane(c) && Decides(c, m) && !Aborts(c, m)
    requires CLEAN_EXCESS < LossAt(c, m) - FloorAt(c, m) < CUT_EXCESS
    ensures var c' := Apply(c, m);
            && c'.rate == (if c.startup || !Saturated(c, m) then c.rate else Min(1.01 * c.rate, c.max))
            && (c'.rate == c.rate <==> c.startup || !Saturated(c, m) || c.rate == c.max)
            && c'.startup == c.startup && c'.stagnant == c.stagnant && c'.best == c.best
  {
  }

  /** A fresh controller gets there: a clean interval and one that loses a tenth. */
  lemma MiddleBandInStartup(seg: nat, capMbps: real, tMs: nat)
    requires capMbps > 200.0
    ensures var ms := [Sample(0.0, START_RATE, START_RATE, tMs),
                       Sample(0.1, 1.8 * START_RATE, 2.0 * START_RATE, tMs + 100)];
            var c := Run(New(seg, capMbps), ms[..1]);
            && c.startup && Decides(c, ms[1]) && Saturated(c, ms[1]) && !Aborts(c, ms[1]) && c.rate < c.max
            && CLEAN_EXCESS < LossAt(c, ms[1]) - FloorAt(c, ms[1]) < CUT_EXCESS
            && Apply(c, ms[1]).rate == c.rate
  {
    var c, first := New(seg, capMbps), Sample(0.0, START_RATE, START_RATE, tMs);
    var ms := [first, Sample(0.1, 1.8 * START_RATE, 2.0 * START_RATE, tMs + 100)];
    assert ms[..1] == [first] && [first][..0] == [];
    assert Run(c, []) == c && Run(c, ms[..1]) == Apply(c, first);
    StartupStep(c, first);
    ApplyTracks(c, first);
  }

  // ----- random loss never slows the controller down ------------------------------------

  /** Smoothed loss and floor lie in the band, and the smoothed loss reaches the
      top of the band only if the floor does. */
  ghost predicate Banded(c: Ctl, lo: real, hi: real) {
    && (c.ewma.Some? <==> c.floor.Some?)
    && (c.ewma.Some? ==>
          && lo <= c.ewma.value <= hi
          && lo <= c.floor.value.loss <= hi
          && (c.ewma.value == hi ==> c.floor.value.loss == hi))
  }

  /** The floor moves toward the smoothed loss without reaching it: a cleaner
      sample pulls it down but not onto the sample, a worse one does not lift it
      that far either. */
  lemma FloorBetween(f: Floor, loss: real, rate: real, cooldown: nat)
    ensures var g := NextFloor(Some(f), loss, rate, cooldown).loss;
            && (loss == f.loss ==> g == f.loss)
            && (loss < f.loss ==> loss < g < f.loss)
            && (loss > f.loss ==> f.loss <= g < loss)
  {
  }

  lemma BandedTrack(c: Ctl, m: Sample, lo: real, hi: real)
    requires Banded(c, lo, hi) && lo <= m.raw <= hi
    ensures Banded(Track(c, m), lo, hi)
    ensures LossAt(c, m) - FloorAt(c, m) <= hi - lo
    ensures lo < hi ==> LossAt(c, m) - FloorAt(c, m) < hi - lo
  {
    if c.floor.Some? {
      FloorBetween(c.floor.value, Smooth(c.ewma, m.raw), c.rate, c.cooldown);
    }
  }

  /** Decisions leave the loss signal alone. */
  lemma ApplyTracks(c: Ctl, m: Sample)
    ensures Apply(c, m).ewma == Track(c, m).ewma && Apply(c, m).floor == Track(c, m).floor
  {
  }

  lemma {:induction false} BandedRun(c: Ctl, ms: seq<Sample>, lo: real, hi: real)
    requires Sane(c) && Banded(c, lo, hi) && hi <= lo + CUT_EXCESS
    requires forall i | 0 <= i < |ms| :: lo <= ms[i].raw <= hi
    ensures Banded(Run(c, ms), lo, hi)
    ensures Count(c, ms, Cuts) == 0
    ensures Count(c, ms, RateFalls) <= (if c.startup && !Run(c, ms).startup then 1 else 0)
    ensures Run(c, ms).startup ==> c.startup
    ensures !c.startup ==> Run(c, ms).rate >= c.rate
  {
    if ms != [] {
      var front, m := ms[..|ms| - 1], ms[|ms| - 1];
      BandedRun(c, front, lo, hi);
      SaneRun(c, front);
      BandedTrack(Run(c, front), m, lo, hi);
      ApplyTracks(Run(c, front), m);
      FallsOnlyByCutOrExit(Run(c, front), m);
    }
  }

  /** Random loss, whatever its level, is never taken for congestion: as long as
      the raw interval losses stay within a band no wider than CUT_EXCESS, a fresh
      controller never cuts and never aborts startup, smoothed loss and floor stay
      in the band, and the rate falls at most once, when startup ends; after that
      it never falls again. */
  lemma {:induction false} StochasticLossNeverCuts(seg: nat, capMbps: real, ms: seq<Sample>, lo: real, hi: real)
    requires lo <= hi <= lo + CUT_EXCESS
    requires forall i | 0 <= i < |ms| :: lo <= ms[i].raw <= hi
    ensures Count(New(seg, capMbps), ms, Cuts) == 0
    ensures Count(New(seg, capMbps), ms, RateFalls) <= (if Run(New(seg, capMbps), ms).startup then 0 else 1)
    ensures forall k | 0 <= k <= |ms| && !Run(New(seg, capMbps), ms[..k]).startup ::
              Run(New(seg, capMbps), ms[..k]).rate <= Run(New(seg, capMbps), ms).rate
    ensures Banded(Run(New(seg, capMbps), ms), lo, hi)
  {
    var c := New(seg, capMbps);
    NewIsSane(seg, capMbps);
    BandedRun(c, ms, lo, hi);
    forall k | 0 <= k <= |ms| && !Run(c, ms[..k]).startup
      ensures Run(c, ms[..k]).rate <= Run(c, ms).rate
    {
      SaneRun(c, ms[..k]);
      BandedRun(c, ms[..k], lo, hi);
      BandedRun(Run(c, ms[..k]), ms[k..], lo, hi);
      RunSplit(c, ms, k);
    }
  }

  lemma {:induction false} RunSplit(c: Ctl, ms: seq<Sample>, k: nat)
    requires k <= |ms|
    ensures Run(c, ms) == Run(Run(c, ms[..k]), ms[k..])
    decreases |ms|
  {
    if k == |ms| {
      assert ms[..k] == ms;
    } else {
      RunSplit(c, ms[..|ms| - 1], k);
      assert ms[..|ms| - 1][..k] == ms[..k] && ms[..|ms| - 1][k..] == ms[k..][..|ms[k..]| - 1];
    }
  }

  lemma NewestCounts(h: seq<Delivery>, d: Delivery)
    ensures MaxDelivered(h + [d], d.tMs) >= d.rate
  {
    assert (h + [d])[|h|] == d;
  }

  /** At its cap a controller that does not cut stays there while the path
      delivers the cap, plateau exit included. */
  lemma StaysAtCapStep(c: Ctl, m: Sample)
    requires Sane(c) && c.rate == c.max && m.delivered >= c.max && !Cuts(c, m)
    ensures Apply(c, m).rate == c.max
  {
    NewestCounts(c.history, Delivery(m.tMs, m.delivered));
  }

  lemma {:induction false} StaysAtCap(c: Ctl, ms: seq<Sample>, lo: real, hi: real)
    requires Sane(c) && Banded(c, lo, hi) && hi <= lo + CUT_EXCESS && c.rate == c.max
    requires forall i | 0 <= i < |ms| :: lo <= ms[i].raw <= hi && ms[i].delivered >= c.max
    ensures Run(c, ms).rate == c.max
  {
    if ms != [] {
      var front, m := ms[..|ms| - 1], ms[|ms| - 1];
      StaysAtCap(c, front, lo, hi);
      SaneRun(c, front);
      BandedRun(c, front, lo, hi);
      BandedTrack(Run(c, front), m, lo, hi);
      StaysAtCapStep(Run(c, front), m);
    }
  }

  /** Saturated measurements show that the sender used the rate it was given. */
  predicate Saturated(c: Ctl, m: Sample) {
    m.sent >= GROW_EVIDENCE_FRAC * c.rate
  }

  /** 1.01^n * x. */
  function Climbed(x: real, n: nat): real {
    if n == 0 then x else 1.01 * Climbed(x, n - 1)
  }

  lemma ClimbStep(c: Ctl, m: Sample, start: real, n: nat)
    requires Sane(c) && !c.startup && c.cooldown == 0 && Saturated(c, m) && !Excessive(c, m)
    requires c.rate >= Min(c.max, Climbed(start, n))
    ensures var c' := Apply(c, m);
            !c'.startup && c'.cooldown == 0 && c'.max == c.max && c'.rate >= Min(c.max, Climbed(start, n + 1))
  {
  }

  /** Random loss does not even hold the controller back: after startup, with raw
      losses in such a band at any level, n saturated measurements raise the rate
      at least by a factor 1.01^n, up to the cap. */
  lemma {:induction false} RandomLossClimbsToCap(c: Ctl, ms: seq<Sample>, lo: real, hi: real)
    requires Sane(c) && Banded(c, lo, hi) && lo <= hi <= lo + CUT_EXCESS
    requires !c.startup && c.cooldown == 0
    requires forall i | 0 <= i < |ms| :: lo <= ms[i].raw <= hi
    requires Always(c, ms, Saturated)
    ensures !Run(c, ms).startup && Run(c, ms).cooldown == 0
    ensures Run(c, ms).rate >= Min(c.max, Climbed(c.rate, |ms|))
  {
    if ms != [] {
      var front, m := ms[..|ms| - 1], ms[|ms| - 1];
      RandomLossClimbsToCap(c, front, lo, hi);
      SaneRun(c, front);
      BandedRun(c, front, lo, hi);
      BandedTrack(Run(c, front), m, lo, hi);
      ClimbStep(Run(c, front), m, c.rate, |front|);
    }
  }

  // ----- congestion is left geometrically -------------------------------------------------

  /** Every qualifying measurement shows excess loss. */
  predicate Congested(c: Ctl, m: Sample) {
    Qualifies(c, m) ==> Excessive(c, m)
  }

  lemma CongestedStep(c: Ctl, m: Sample)
    requires Sane(c) && Congested(c, m)
    ensures var c' := Apply(c, m);
            && (!Qualifies(c, m) ==> c'.rate == c.rate && c'.cooldown == c.cooldown && !Cuts(c, m))
            && (Qualifies(c, m) && c.cooldown > 0 ==>
                  c'.rate == c.rate && c'.cooldown == c.cooldown - 1 && !Cuts(c, m))
            && (Qualifies(c, m) && c.cooldown == 0 ==>
                  c'.rate <= Max(c.rate * CUT_MIN_FACTOR, MIN_RATE) && c'.cooldown == CUT_COOLDOWN && Cuts(c, m))
  {
  }

  /** Under sustained excess loss there is exactly one cut per four qualifying
      measurements: one that cuts and three of cooldown. */
  lemma {:induction false} OneCutPerCooldown(c: Ctl, ms: seq<Sample>)
    requires Sane(c) && Always(c, ms, Congested)
    ensures Run(c, ms).cooldown == c.cooldown + 4 * Count(c, ms, Cuts) - Count(c, ms, Qualifies)
    ensures Count(c, ms, Cuts) == (Count(c, ms, Qualifies) + CUT_COOLDOWN - c.cooldown) / 4
  {
    SaneRun(c, ms);
    if ms != [] {
      var front, m := ms[..|ms| - 1], ms[|ms| - 1];
      OneCutPerCooldown(c, front);
      SaneRun(c, front);
      CongestedStep(Run(c, front), m);
    }
  }

  /** 0.9^n * x. */
  function Decayed(x: real, n: nat): real {
    if n == 0 then x else 0.9 * Decayed(x, n - 1)
  }

  lemma {:induction false} DecayedAntitone(x: real, n: nat, m: nat)
    requires x >= 0.0 && n <= m
    ensures 0.0 <= Decayed(x, m) <= Decayed(x, n)
    decreases m
  {
    if n < m {
      DecayedAntitone(x, n, m - 1);
    } else if n > 0 {
      DecayedAntitone(x, n - 1, m - 1);
    }
  }

  lemma DescentStep(c: Ctl, m: Sample, start: real, n: nat)
    requires Sane(c) && Congested(c, m) && c.rate <= Max(MIN_RATE, Decayed(start, n))
    ensures Apply(c, m).rate <= c.rate
    ensures Apply(c, m).rate <= Max(MIN_RATE, Decayed(start, if Cuts(c, m) then n + 1 else n))
  {
    CongestedStep(c, m);
  }

  lemma {:induction false} DescentByCuts(c: Ctl, ms: seq<Sample>)
    requires Sane(c) && Always(c, ms, Congested)
    ensures Run(c, ms).rate <= c.rate
    ensures Run(c, ms).rate <= Max(MIN_RATE, Decayed(c.rate, Count(c, ms, Cuts)))
  {
    if ms != [] {
      var front, m := ms[..|ms| - 1], ms[|ms| - 1];
      DescentByCuts(c, front);
      SaneRun(c, front);
      DescentStep(Run(c, front), m, c.rate, Count(c, front, Cuts));
    }
  }

  /** Under sustained excess loss the rate never rises and every cut takes at
      least a tenth off, until the minimum is reached: after N qualifying
      measurements it is at most 0.9^(N/4) of where it started. */
  lemma {:induction false} GeometricDescent(c: Ctl, ms: seq<Sample>)
    requires Sane(c) && Always(c, ms, Congested)
    ensures Run(c, ms).rate <= c.rate
    ensures Run(c, ms).rate <= Max(MIN_RATE, Decayed(c.rate, Count(c, ms, Cuts)))
    ensures Run(c, ms).rate <= Max(MIN_RATE, Decayed(c.rate, Count(c, ms, Qualifies) / 4))
  {
    DescentByCuts(c, ms);
    OneCutPerCooldown(c, ms);
    DecayedAntitone(c.rate, Count(c, ms, Qualifies) / 4, Count(c, ms, Cuts));
  }

  // ----- the floor does not ratchet --------------------------------------------------------

  /** Outside cooldown, at a rate no more than 5% above the floor's anchor. */
  predicate RelaxesFast(c: Ctl, m: Sample) {
    c.cooldown == 0 && c.floor.Some? && c.rate <= c.floor.value.anchor * FLOOR_RATE_TOL
  }

  /** Outside cooldown at a higher rate than that. */
  predicate RelaxesSlowly(c: Ctl, m: Sample) {
    c.cooldown == 0 && c.floor.Some? && c.rate > c.floor.value.anchor * FLOOR_RATE_TOL
  }

  /** One measurement lifts the floor by at most 0.001, by at most 0.0002 above
      the anchor rate, and not during cooldown; the anchor moves only on a cleaner
      sample, and then to the current rate. */
  lemma FloorStep(c: Ctl, m: Sample)
    requires c.floor.Some?
    ensures Apply(c, m).floor.Some?
    ensures var f, g := c.floor.value, Apply(c, m).floor.value;
            && g.loss <= f.loss + (if RelaxesFast(c, m) then 0.001 else if RelaxesSlowly(c, m) then 0.0002 else 0.0)
            && (g.anchor != f.anchor ==> LossAt(c, m) < f.loss && g.loss < f.loss && g.anchor == c.rate)
  {
    ApplyTracks(c, m);
  }

  /** Over any run the floor rises by at most 0.001 per sample taken at the rate
      it was measured at and 0.0002 per sample taken above it, and not at all
      during cooldown. */
  lemma {:induction false} FloorDoesNotRatchet(c: Ctl, ms: seq<Sample>)
    requires c.floor.Some?
    ensures Run(c, ms).floor.Some?
    ensures Run(c, ms).floor.value.loss
            <= c.floor.value.loss
               + 0.001 * Count(c, ms, RelaxesFast) as real
               + 0.0002 * Count(c, ms, RelaxesSlowly) as real
  {
    if ms != [] {
      FloorDoesNotRatchet(c, ms[..|ms| - 1]);
      FloorStep(Run(c, ms[..|ms| - 1]), ms[|ms| - 1]);
    }
  }

  /** 0.7^n * x. */
  function Narrowed(x: real, n: nat): real {
    if n == 0 then x else 0.7 * Narrowed(x, n - 1)
  }

  lemma FloorGapStep(c: Ctl, m: Sample, level: real)
    requires c.floor.Some? && c.ewma.Some? && c.ewma.value >= level && m.raw >= level && c.floor.value.loss > level
    ensures var c' := Apply(c, m);
            && c'.floor.Some? && c'.ewma.Some? && c'.ewma.value >= level
            && c'.floor.value.loss - level >= 0.7 * (c.floor.value.loss - level)
            && (c.ewma.value == level == m.raw ==>
                  c'.ewma.value == level && c'.floor.value.loss - level == 0.7 * (c.floor.value.loss - level))
  {
    ApplyTracks(c, m);
  }

  /** The floor never snaps down. Over any run of losses no lower than a level
      below it, at least 0.7^n of its distance to the level is left after n
      measurements, so it never gets there; when signal and samples are at the
      level, exactly 0.7^n is left. */
  lemma {:induction false} FloorNeverSnaps(c: Ctl, ms: seq<Sample>, level: real)
    requires c.floor.Some? && c.ewma.Some? && c.ewma.value >= level && c.floor.value.loss > level
    requires forall i | 0 <= i < |ms| :: ms[i].raw >= level
    ensures var c' := Run(c, ms);
            && c'.floor.Some? && c'.ewma.Some? && c'.ewma.value >= level
            && c'.floor.value.loss - level >= Narrowed(c.floor.value.loss - level, |ms|) > 0.0
            && (c.ewma.value == level && (forall i | 0 <= i < |ms| :: ms[i].raw == level) ==>
                  && c'.ewma.value == level
                  && c'.floor.value.loss - level == Narrowed(c.floor.value.loss - level, |ms|))
  {
    if ms != [] {
      FloorNeverSnaps(c, ms[..|ms| - 1], level);
      FloorGapStep(Run(c, ms[..|ms| - 1]), ms[|ms| - 1], level);
    }
  }

  // ----- startup is bounded ------------------------------------------------------------------

  lemma StartupStep(c: Ctl, m: Sample)
    requires Sane(c)
    ensures var c' := Apply(c, m);
            && (Doubles(c, m) ==>
                  c'.best == m.delivered && c'.stagnant == 0 && c'.startup && c'.rate == Min(2.0 * c.rate, c.max))
            && (!Doubles(c, m) ==> c'.best == c.best)
            && (StartupDecision(c, m) && !Doubles(c, m) ==> c'.stagnant == c.stagnant + 1)
            && (!StartupDecision(c, m) ==> c'.stagnant == c.stagnant)
  {
  }

  /** What the first doubling of the run found delivered. */
  ghost function FirstBest(c: Ctl, ms: seq<Sample>): real {
    if ms == [] then 0.0
    else
      var front := ms[..|ms| - 1];
      if Count(c, front, Doubles) == 0 && Doubles(Run(c, front), ms[|ms| - 1]) then ms[|ms| - 1].delivered
      else FirstBest(c, front)
  }

  /** 1.1^n * x. */
  function Grown(x: real, n: nat): real {
    if n == 0 then x else 1.1 * Grown(x, n - 1)
  }

  lemma DoublingStep(c: Ctl, m: Sample, first: real, n: nat)
    requires Sane(c) && m.delivered > 0.0
    requires n > 0 ==> 0.0 < Grown(first, n - 1) <= c.best
    ensures Apply(c, m).best == if Doubles(c, m) then m.delivered else c.best
    ensures Doubles(c, m) && n > 0 ==> 0.0 < Grown(first, n) <= m.delivered
  {
    StartupStep(c, m);
  }

  /** Every doubling multiplies the best delivered rate by more than 1.1, so a
      bound on what the path delivers bounds the number n of doublings:
      1.1^(n-1) times the first delivered rate is at most that bound. */
  lemma {:induction false} DoublingsAreBounded(c: Ctl, ms: seq<Sample>, bound: real)
    requires Sane(c) && c.best == 0.0 && bound >= 0.0
    requires forall i | 0 <= i < |ms| :: 0.0 < ms[i].delivered <= bound
    ensures Run(c, ms).best <= bound
    ensures Count(c, ms, Doubles) == 0 ==> Run(c, ms).best == 0.0
    ensures Count(c, ms, Doubles) > 0 ==>
              0.0 < Grown(FirstBest(c, ms), Count(c, ms, Doubles) - 1) <= Run(c, ms).best
  {
    if ms != [] {
      var front, m := ms[..|ms| - 1], ms[|ms| - 1];
      DoublingsAreBounded(c, front, bound);
      SaneRun(c, front);
      var d, n := Run(c, front), Count(c, front, Doubles);
      DoublingStep(d, m, FirstBest(c, front), n);
      if Doubles(d, m) {
        assert Count(c, ms, Doubles) == n + 1;
        assert FirstBest(c, ms) == if n == 0 then m.delivered else FirstBest(c, front);
      } else {
        assert Count(c, ms, Doubles) == n && FirstBest(c, ms) == FirstBest(c, front);
      }
    }
  }

  /** At most two stagnant decisions come before, between and after doublings
      (a third ends startup), so startup takes at most 3n + 3 decisions. */
  lemma {:induction false} StartupDecisionsAreBounded(c: Ctl, ms: seq<Sample>)
    requires Sane(c)
    ensures Count(c, ms, StartupDecision) <= 3 * Count(c, ms, Doubles) + Run(c, ms).stagnant
    ensures Count(c, ms, StartupDecision) <= 3 * Count(c, ms, Doubles) + 3
  {
    SaneRun(c, ms);
    if ms != [] {
      var front, m := ms[..|ms| - 1], ms[|ms| - 1];
      StartupDecisionsAreBounded(c, front);
      SaneRun(c, front);
      StartupStep(Run(c, front), m);
    }
  }
}
