/**
 * The rate controller in closed loop with a lossy bottleneck, from a fresh
 * controller and over runs of any length.
 */
module RateClosedLoop {
  import opened Prelude
  import opened Rate
  import opened RateRuns
  import opened RateBottleneck
  import opened RateRatchet

  // ----- the link ---------------------------------------------------------------------------

  /** Loss above the random loss at a given rate. */
  function Above(p: real, d: real, rate: real): (l: real)
    requires rate > 0.0
    ensures l >= 0.0
  {
    LinkLoss(p, d, rate) - p
  }

  lemma NoneBelow(p: real, d: real, rate: real)
    requires 0.0 < rate <= d && 0.0 <= p
    ensures Above(p, d, rate) == 0.0
  {
    Cancel(d / rate, 1.0, rate);
  }

  lemma Shrinks(d: real, r: real, r': real, f: real)
    requires d > 0.0 && r > 0.0 && f > 0.0 && r' >= f * r
    ensures d / r >= f * (d / r')
  {
    var q, q' := d / r, d / r';
    assert q * r == d == q' * r' && q' > 0.0;
    assert q' * r' >= q' * (f * r);
    assert q' * (f * r) == (f * q') * r;
    Cancel(q, f * q', r);
  }

  lemma Stretches(d: real, r: real, r': real, f: real)
    requires d > 0.0 && r > 0.0 && r' > 0.0 && f > 0.0 && r' <= f * r
    ensures d / r <= f * (d / r')
  {
    var q, q' := d / r, d / r';
    assert q * r == d == q' * r' && q' > 0.0;
    assert q' * r' <= q' * (f * r);
    assert q' * (f * r) == (f * q') * r;
    Cancel(f * q', q, r);
  }

  /** What growth does to the loss. */
  lemma LinkGrows(p: real, d: real, r: real, r': real, g: real)
    requires 0.0 <= p <= 0.1 && d > 0.0 && r > 0.0 && 1.01 * r <= r' <= 1.05 * r && Above(p, d, r) <= 0.262
    requires Above(p, d, r) > 0.0 && Above(p, d, r) >= g ==> r' == 1.01 * r
    ensures Grows(Above(p, d, r), g, Above(p, d, r'))
  {
    Shrinks(d, r, r', 1.01);
    Stretches(d, r, r', 1.05);
    assert d / r > 0.0 && d / r' > 0.0;
    if r' == 1.01 * r {
      Stretches(d, r, r', 1.01);
    }
  }

  /** A doubling from at most the bottleneck, or from a little above it. */
  lemma LinkDoubles(p: real, d: real, r: real, max: real)
    requires 0.0 <= p <= 0.1 && d > 0.0 && 0.0 < r <= max && 1.05 * d <= max * (0.738 - p)
    ensures var l, l' := Above(p, d, r), Above(p, d, Min(2.0 * r, max));
            && (l == 0.0 ==> l' <= 0.5)
            && (0.0 < l <= 0.112 ==> 0.29 <= l' <= 0.5 + l / 2.0)
            && (2.0 * r > max ==> l' >= 0.29)
  {
    var r' := Min(2.0 * r, max);
    assert d / r > 0.0 && d / r' > 0.0;
    Stretches(d, r, r', 2.0);
    if r' == max {
      assert d / max * max == d;
      Cancel(0.738 - p, 1.05 * (d / max), max);
    } else {
      Shrinks(d, r, r', 2.0);
    }
  }

  lemma Room(d: real, r: real, q: real, a: real, max: real)
    requires r > 0.0 && q * r == d && q >= a > 0.0 && 1.05 * d <= max * a
    ensures r * a <= d && 1.05 * r <= max
    ensures q > a ==> 1.05 * r < max
  {
    assert (q - a) * r >= 0.0;
    Cancel(max, 1.05 * r, a);
    if q > a {
      assert (q - a) * r > 0.0;
      Cancel(1.05 * r, max, a);
    }
  }

  /** At a loss of at least the floor the rate is past the anchor of the growth rule. */
  lemma PastAnchor(p: real, d: real, r: real, maxDelivered: real, floor: real)
    requires d > 0.0 && r > 0.0 && 0.0 <= maxDelivered <= d && floor <= 0.5
    requires LinkLoss(p, d, r) > p && LinkLoss(p, d, r) >= floor
    ensures r >= maxDelivered / (1.0 - Min(floor, 0.5))
  {
    var q, a := d / r, 1.0 - floor;
    var y := maxDelivered / a;
    assert q * r == d && q <= a && y * a == maxDelivered;
    assert q * r <= a * r;
    Cancel(r, y, a);
  }

  /** What a saturating sender measures at loss `l` above `p`. */
  predicate Shows(m: Sample, p: real, l: real, d: real, rate: real) {
    && m.raw == p + l && m.sent == rate && 0.0 <= m.delivered <= d && m.delivered <= rate
    && (l > 0.0 ==> m.delivered == d < rate)
    && (l <= 0.112 ==> m.delivered >= 0.78 * rate)
  }

  lemma LinkShows(p: real, d: real, rate: real, tMs: nat)
    requires 0.0 <= p <= 0.1 && d > 0.0 && rate > 0.0
    ensures Shows(LinkSample(p, d, rate, tMs), p, Above(p, d, rate), d, rate)
  {
    var q, kept, m := d / rate, 1.0 - LinkLoss(p, d, rate), LinkSample(p, d, rate, tMs);
    assert q * rate == d && q > 0.0;
    SharesShow(m, p, Above(p, d, rate), d, rate, q, kept);
  }

  lemma SharesShow(m: Sample, p: real, l: real, d: real, rate: real, q: real, kept: real)
    requires 0.0 <= p <= 0.1 && l >= 0.0 && rate > 0.0 && q * rate == d && 0.0 <= kept <= q && kept == 1.0 - p - l
    requires l > 0.0 ==> kept == q
    requires m.raw == p + l && m.sent == rate && m.delivered == kept * rate
    ensures Shows(m, p, l, d, rate)
  {
    KeptShare(d, rate, q, kept, m.delivered);
  }

  lemma KeptShare(d: real, rate: real, q: real, kept: real, w: real)
    requires rate > 0.0 && q * rate == d && 0.0 <= kept <= q && kept <= 1.0 && w == kept * rate
    ensures 0.0 <= w <= d && w <= rate
    ensures kept == q < 1.0 ==> w == d < rate
    ensures kept >= 0.78 ==> w >= 0.78 * rate
  {
    Signs(kept, rate);
    Signs(q - kept, rate);
    Signs(1.0 - kept, rate);
    if kept >= 0.78 {
      Signs(kept - 0.78, rate);
    }
  }

  lemma Signs(x: real, rate: real)
    requires x >= 0.0 && rate > 0.0
    ensures x * rate >= 0.0
    ensures x > 0.0 ==> x * rate > 0.0
  {
  }

  // ----- the controller, given what the link shows ---------------------------------------------

  lemma {:induction false} MaxAtMost(h: seq<Delivery>, now: nat, d: real)
    requires d >= 0.0 && forall i | 0 <= i < |h| :: h[i].rate <= d
    ensures 0.0 <= MaxDelivered(h, now) <= d
  {
    if h != [] {
      MaxAtMost(h[..|h| - 1], now, d);
    }
  }

  /** Nothing above `d` was ever delivered, and the cap is out of the way. */
  ghost predicate Fits(c: Ctl, d: real, top: real) {
    && Sane(c) && d >= MIN_RATE && 1.05 * top <= c.max
    && forall i | 0 <= i < |c.history| :: c.history[i].rate <= d
  }

  lemma HistoryStep(c: Ctl, m: Sample)
    ensures Apply(c, m).history == c.history || Apply(c, m).history == c.history + [Delivery(m.tMs, m.delivered)]
    ensures Apply(c, m).max == c.max
  {
  }

  lemma FitsStep(c: Ctl, d: real, top: real, m: Sample)
    requires Fits(c, d, top) && 0.0 <= m.delivered <= d
    ensures Fits(Apply(c, m), d, top)
    ensures m.delivered <= MaxDelivered(c.history + [Delivery(m.tMs, m.delivered)], m.tMs) <= d
  {
    ApplySane(c, m);
    MaxAtMost(c.history + [Delivery(m.tMs, m.delivered)], m.tMs, d);
    NewestCounts(c.history, Delivery(m.tMs, m.delivered));
    HistoryStep(c, m);
  }

  /** The rate relative to the floor's anchor. */
  function Ratio(c: Ctl): real
    requires c.floor.Some? && c.floor.value.anchor > 0.0
  {
    c.rate / c.floor.value.anchor
  }

  /** At a rate no more than 5% above the floor's anchor. */
  predicate Fast(c: Ctl)
    requires c.floor.Some?
  {
    c.rate <= c.floor.value.anchor * FLOOR_RATE_TOL
  }

  lemma RatioDecides(c: Ctl)
    requires c.floor.Some? && c.floor.value.anchor > 0.0
    ensures Fast(c) <==> Ratio(c) <= 1.05
  {
    var r, anchor := Ratio(c), c.floor.value.anchor;
    assert r * anchor == c.rate;
    Cancel(1.05, r, anchor);
    Cancel(r, 1.05, anchor);
  }

  /** Smoothed loss and floor after a measurement, relative to the random loss. */
  lemma Levels(c: Ctl, m: Sample, p: real, l: real)
    requires c.ewma.Some? && c.floor.Some? && m.raw == p + l
    ensures LossAt(c, m) - p == 0.7 * (c.ewma.value - p) + 0.3 * l
    ensures Moves(c.floor.value.loss - p, LossAt(c, m) - p, FloorAt(c, m) - p, c.cooldown > 0, Fast(c))
    ensures Apply(c, m).ewma == Some(LossAt(c, m))
    ensures Apply(c, m).floor == Some(Floor(FloorAt(c, m), if LossAt(c, m) < c.floor.value.loss then c.rate
                                                           else c.floor.value.anchor))
  {
    ApplyTracks(c, m);
  }

  /** How the ratio moves when the rate grows. */
  lemma RatioGrows(rate: real, anchor: real, rate': real)
    requires anchor > 0.0 && rate > 0.0 && rate' >= 1.01 * rate
    ensures rate' / anchor >= 1.01 * (rate / anchor)
    ensures rate' / rate >= 1.01
  {
    var r, r', one := rate / anchor, rate' / anchor, rate' / rate;
    assert r * anchor == rate && r' * anchor == rate' && one * rate == rate';
    Cancel(r', 1.01 * r, anchor);
    Cancel(one, 1.01, rate);
  }

  /** During a cooldown a saturating sender only waits. */
  lemma Waits(c: Ctl, m: Sample)
    requires Sane(c) && c.cooldown > 0 && m.sent == c.rate
    ensures var c' := Apply(c, m);
            c'.rate == c.rate && c'.cooldown == c.cooldown - 1 && c'.startup == c.startup
  {
  }

  /** A cut lands at or below what the link delivers, and above the bottleneck at no
      less than nine tenths of it. */
  lemma CutLands(c: Ctl, d: real, top: real, m: Sample)
    requires Fits(c, d, top) && 0.0 <= m.delivered <= d && Cuts(c, m)
    ensures var c' := Apply(c, m);
            && MIN_RATE <= c'.rate <= d && !c'.startup && c'.cooldown == CUT_COOLDOWN
            && (m.delivered == d < c.rate ==> c'.rate >= 0.9 * d)
  {
    FitsStep(c, d, top, m);
    CutDescends(c, m);
  }

  /** Outside startup a measurement that is no cut raises the rate by 5%, or by 1%
      past the anchor and in the middle band. */
  lemma SteadyGrowth(c: Ctl, m: Sample)
    requires Sane(c) && !c.startup && c.cooldown == 0 && m.sent == c.rate && 1.05 * c.rate <= c.max && !Excessive(c, m)
    ensures var c', best := Apply(c, m), MaxDelivered(c.history + [Delivery(m.tMs, m.delivered)], m.tMs);
            && !c'.startup && c'.cooldown == 0 && 1.01 * c.rate <= c'.rate <= 1.05 * c.rate
            && (c.rate >= best / (1.0 - Min(FloorAt(c, m), 0.5)) ==> c'.rate == 1.01 * c.rate)
  {
  }

  /** In startup a measurement that is no cut and shows growth doubles the rate if the
      excess is small; otherwise it holds. */
  lemma StartupMoves(c: Ctl, m: Sample)
    requires Sane(c) && c.startup && c.cooldown == 0 && m.sent == c.rate && !Excessive(c, m) && !Aborts(c, m)
    requires LossAt(c, m) - FloorAt(c, m) <= CLEAN_EXCESS ==> m.delivered > 1.1 * c.best
    ensures var c' := Apply(c, m);
            && c'.startup && c'.cooldown == 0
            && if LossAt(c, m) - FloorAt(c, m) <= CLEAN_EXCESS
               then c'.rate == Min(2.0 * c.rate, c.max) && c'.best == m.delivered
               else c'.rate == c.rate && c'.best == c.best
  {
  }

  // ----- the cycle ---------------------------------------------------------------------------------

  /** The controller is somewhere in the cycle, the link showing `l` at its rate. */
  ghost predicate InCycle(tight: bool, c: Ctl, p: real, d: real, l: real) {
    && (c.ewma.Some? <==> c.floor.Some?)
    && if c.ewma.None? then
         c.startup && c.cooldown == 0 && c.best == 0.0 && 0.0 <= l <= if tight then 0.0 else 0.1118
       else
         && c.floor.value.anchor > 0.0
         && var e, g, r := c.ewma.value - p, c.floor.value.loss - p, Ratio(c);
            if c.startup then
              && c.cooldown == 0 && Starting(tight, e, g, l, r)
              && (e == 0.0 && g == 0.0 && l <= 0.0685 ==> c.best <= c.rate / 2.0)
            else
              && c.rate >= 0.9 * d
              && if c.cooldown > 0 then l == 0.0 && Cooling(tight, c.cooldown, e, g)
                 else Climbing(tight, e, g, l, r) || (l == 0.0 && Cooling(tight, 0, e, g))
  }

  /** What a doubling may make the link show. */
  predicate Jumps(l: real, l': real) {
    && (l == 0.0 ==> 0.0 <= l' <= 0.5)
    && (0.0 < l <= 0.112 ==> 0.29 <= l' <= 0.5 + l / 2.0)
  }

  predicate Doubled(l: real, l': real, rate: real, rate': real) {
    Jumps(l, l') && rate' > 1.05 * rate && (l' < 0.29 ==> rate' == 2.0 * rate)
  }

  lemma FirstInCycle(tight: bool, c: Ctl, m: Sample, p: real, d: real, l: real, l': real)
    requires Sane(c) && c.ewma.None? && InCycle(tight, c, p, d, l) && Shows(m, p, l, d, c.rate)
    requires Doubled(l, l', c.rate, Min(2.0 * c.rate, c.max))
    ensures Apply(c, m).rate == Min(2.0 * c.rate, c.max) && InCycle(tight, Apply(c, m), p, d, l')
  {
    ApplyTracks(c, m);
    assert LossAt(c, m) == p + l && FloorAt(c, m) == p + l;
    assert m.delivered > 0.0;
    StartupMoves(c, m);
    var c' := Apply(c, m);
    assert c'.floor == Some(Floor(p + l, c.rate));
    RatioAbove(c'.rate, c.rate);
  }

  lemma RatioAbove(rate': real, rate: real)
    requires rate > 0.0 && rate' > 1.05 * rate
    ensures rate' / rate > 1.05
  {
    assert rate' / rate * rate == rate';
    Cancel(1.05, rate' / rate, rate);
  }

  lemma CutInCycle(tight: bool, c: Ctl, top: real, m: Sample, p: real, d: real, l: real)
    requires Fits(c, d, top) && c.ewma.Some? && c.cooldown == 0 && InCycle(tight, c, p, d, l)
    requires Shows(m, p, l, d, c.rate) && Cuts(c, m)
    ensures InCycle(tight, Apply(c, m), p, d, 0.0)
  {
    var e, g, e', g' := c.ewma.value - p, c.floor.value.loss - p, LossAt(c, m) - p, FloorAt(c, m) - p;
    Levels(c, m, p, l);
    RatioDecides(c);
    CutLands(c, d, top, m);
    CutCools(tight, c.startup, e, g, g', l, e', Ratio(c));
  }

  lemma CutCools(tight: bool, startup: bool, e: real, g: real, g': real, l: real, e': real, r: real)
    requires if startup then Starting(tight, e, g, l, r)
             else Climbing(tight, e, g, l, r) || (l == 0.0 && Cooling(tight, 0, e, g))
    requires e' == 0.7 * e + 0.3 * l && Moves(g, e', g', false, r <= 1.05)
    requires e' - g' >= 0.05 || (startup && l - g' >= 0.15)
    ensures Cooling(tight, 3, e', g') && l > 0.0
  {
    if startup {
      StartCuts(tight, e, g, g', l, e', r);
    } else if Climbing(tight, e, g, l, r) {
      ClimbCuts(tight, e, g, g', l, e', r, r <= 1.05);
    } else {
      CoolEnds(tight, e, g, g', 0.0, 1.01, r <= 1.05);
    }
  }

  /** Startup without a cut: the levels before and after, and the growth it needs. */
  lemma StartupLevels(tight: bool, c: Ctl, m: Sample, p: real, d: real, l: real, l': real, r': real)
    requires Sane(c) && c.ewma.Some? && c.startup && InCycle(tight, c, p, d, l) && Shows(m, p, l, d, c.rate)
    requires !Excessive(c, m) && !Aborts(c, m)
    ensures LossAt(c, m) - FloorAt(c, m) <= CLEAN_EXCESS ==>
              && m.delivered > 1.1 * c.best && l <= 0.0685
              && (Jumps(l, l') ==> Starting(tight, LossAt(c, m) - p, FloorAt(c, m) - p, l', r'))
    ensures LossAt(c, m) - FloorAt(c, m) > CLEAN_EXCESS ==>
              Starting(tight, LossAt(c, m) - p, FloorAt(c, m) - p, l, r') && (LossAt(c, m) > p || l > 0.0685)
  {
    var e, g, e', g' := c.ewma.value - p, c.floor.value.loss - p, LossAt(c, m) - p, FloorAt(c, m) - p;
    Levels(c, m, p, l);
    RatioDecides(c);
    StartCuts(tight, e, g, g', l, e', Ratio(c));
    StartGoesOn(tight, e, g, g', l, e', l', Ratio(c), r');
  }

  lemma StartupInCycle(tight: bool, c: Ctl, m: Sample, p: real, d: real, l: real, l': real)
    requires Sane(c) && c.ewma.Some? && c.startup && InCycle(tight, c, p, d, l) && Shows(m, p, l, d, c.rate)
    requires !Excessive(c, m) && !Aborts(c, m)
    requires if LossAt(c, m) - FloorAt(c, m) <= CLEAN_EXCESS then Doubled(l, l', c.rate, Min(2.0 * c.rate, c.max))
             else l' == l
    ensures InCycle(tight, Apply(c, m), p, d, l')
  {
    Levels(c, m, p, l);
    StartupLevels(tight, c, m, p, d, l, l', Ratio(Apply(c, m)));
    StartupMoves(c, m);
  }

  lemma CooldownInCycle(tight: bool, c: Ctl, m: Sample, p: real, d: real)
    requires Sane(c) && c.ewma.Some? && !c.startup && c.cooldown > 0 && InCycle(tight, c, p, d, 0.0)
    requires Shows(m, p, 0.0, d, c.rate)
    ensures InCycle(tight, Apply(c, m), p, d, 0.0)
  {
    Levels(c, m, p, 0.0);
    Waits(c, m);
    CoolStep(tight, c.cooldown, c.ewma.value - p, c.floor.value.loss - p, FloorAt(c, m) - p, Fast(c));
  }

  lemma NextClimb(tight: bool, e: real, g: real, g': real, l: real, l': real, e': real, r: real, r': real)
    requires Climbing(tight, e, g, l, r) || (l == 0.0 && Cooling(tight, 0, e, g))
    requires e' == 0.7 * e + 0.3 * l && Moves(g, e', g', false, r <= 1.05) && e' - g' < 0.05 && Grows(l, g', l')
    requires r' >= 1.01 * (if e' < g then 1.0 else r)
    ensures Climbing(tight, e', g', l', r')
  {
    if Climbing(tight, e, g, l, r) {
      ClimbGoesOn(tight, e, g, g', l, l', e', r, r');
    } else {
      CoolEnds(tight, e, g, g', l', r', r <= 1.05);
    }
  }

  lemma ClimbRatio(c: Ctl, m: Sample, p: real, l: real)
    requires Sane(c) && c.ewma.Some? && c.floor.Some? && c.floor.value.anchor > 0.0 && m.raw == p + l
    requires Apply(c, m).rate >= 1.01 * c.rate
    ensures Apply(c, m).floor.Some? && Apply(c, m).floor.value.anchor > 0.0
    ensures Ratio(Apply(c, m)) >= 1.01 * (if LossAt(c, m) < c.floor.value.loss then 1.0 else Ratio(c))
  {
    Levels(c, m, p, l);
    RatioGrows(c.rate, c.floor.value.anchor, Apply(c, m).rate);
  }

  /** The levels after a climb decision that is no cut, for ratios `r` and `r'`. */
  lemma ClimbLevels(tight: bool, c: Ctl, m: Sample, p: real, l: real, l': real, r: real, r': real)
    returns (e': real, g': real)
    requires c.ewma.Some? && c.floor.Some? && c.cooldown == 0 && m.raw == p + l && !Excessive(c, m)
    requires var e, g := c.ewma.value - p, c.floor.value.loss - p;
             Climbing(tight, e, g, l, r) || (l == 0.0 && Cooling(tight, 0, e, g))
    requires Fast(c) <==> r <= 1.05
    requires Grows(l, FloorAt(c, m) - p, l') && r' >= 1.01 * (if LossAt(c, m) < c.floor.value.loss then 1.0 else r)
    ensures e' == LossAt(c, m) - p && g' == FloorAt(c, m) - p && Climbing(tight, e', g', l', r')
  {
    e', g' := LossAt(c, m) - p, FloorAt(c, m) - p;
    Levels(c, m, p, l);
    NextClimb(tight, c.ewma.value - p, c.floor.value.loss - p, g', l, l', e', r, r');
  }

  lemma ClimbInCycle(tight: bool, c: Ctl, m: Sample, p: real, d: real, l: real, l': real)
    requires Sane(c) && c.ewma.Some? && !c.startup && c.cooldown == 0 && InCycle(tight, c, p, d, l)
    requires Shows(m, p, l, d, c.rate) && !Excessive(c, m) && 1.05 * c.rate <= c.max
    requires Grows(l, FloorAt(c, m) - p, l')
    ensures InCycle(tight, Apply(c, m), p, d, l')
  {
    SteadyGrowth(c, m);
    RatioDecides(c);
    ClimbRatio(c, m, p, l);
    var e', g' := ClimbLevels(tight, c, m, p, l, l', Ratio(c), Ratio(Apply(c, m)));
    Levels(c, m, p, l);
  }

  // ----- the controller on the link ------------------------------------------------------------------

  /** `top` is the rate bound d / (0.738 - p) the cap must leave room for. */
  predicate Link(p: real, d: real, top: real) {
    0.0 <= p <= 0.1 && d > 0.0 && top * (0.738 - p) == d
  }

  lemma RoomAbove(p: real, d: real, top: real, r: real, max: real)
    requires Link(p, d, top) && 1.05 * top <= max && r > 0.0 && Above(p, d, r) <= 0.262
    ensures r <= top && 1.05 * r <= max
    ensures Above(p, d, r) < 0.262 ==> 1.05 * r < max
  {
    var q, a := d / r, 0.738 - p;
    assert q >= a && q * r == d;
    Room(d, r, q, a, 1.05 * top);
  }

  lemma DoublesOnLink(p: real, d: real, top: real, r: real, max: real)
    requires Link(p, d, top) && 0.0 < r <= max && 1.05 * top <= max && Above(p, d, r) <= 0.112
    ensures Min(2.0 * r, max) > 0.0 && Doubled(Above(p, d, r), Above(p, d, Min(2.0 * r, max)), r, Min(2.0 * r, max))
  {
    RoomAbove(p, d, top, r, max);
    assert (1.05 * top) * (0.738 - p) <= max * (0.738 - p);
    LinkDoubles(p, d, r, max);
  }

  lemma GrowsOnLink(c: Ctl, p: real, d: real, top: real, m: Sample)
    requires Link(p, d, top) && Fits(c, d, top) && !c.startup && c.cooldown == 0 && !Excessive(c, m)
    requires Shows(m, p, Above(p, d, c.rate), d, c.rate) && Above(p, d, c.rate) <= 0.262 && FloorAt(c, m) <= 0.5
    ensures 1.05 * c.rate <= c.max && Apply(c, m).rate > 0.0
    ensures Grows(Above(p, d, c.rate), FloorAt(c, m) - p, Above(p, d, Apply(c, m).rate))
  {
    var l, best := Above(p, d, c.rate), MaxDelivered(c.history + [Delivery(m.tMs, m.delivered)], m.tMs);
    FitsStep(c, d, top, m);
    RoomAbove(p, d, top, c.rate, c.max);
    SteadyGrowth(c, m);
    if l > 0.0 && l >= FloorAt(c, m) - p {
      PastAnchor(p, d, c.rate, best, FloorAt(c, m));
    }
    LinkGrows(p, d, c.rate, Apply(c, m).rate, FloorAt(c, m) - p);
  }

  /** What being in the cycle bounds. */
  lemma CycleBounds(tight: bool, c: Ctl, p: real, d: real, l: real)
    requires InCycle(tight, c, p, d, l)
    ensures c.floor.Some? ==> p <= c.floor.value.loss <= p + FloorLimit(tight)
    ensures !c.startup ==> l <= LossLimit(tight) && c.rate >= 0.9 * d
  {
    if c.ewma.Some? {
      var e, g, r := c.ewma.value - p, c.floor.value.loss - p, Ratio(c);
      if Climbing(tight, e, g, l, r) {
        ClimbingBounds(tight, e, g, l, r);
      }
    }
  }

  /** The floor the next decision outside startup sees. */
  lemma NextFloorBound(tight: bool, c: Ctl, m: Sample, p: real, d: real, l: real)
    requires c.ewma.Some? && !c.startup && c.cooldown == 0 && InCycle(tight, c, p, d, l) && m.raw == p + l
    ensures FloorAt(c, m) <= p + 0.113
  {
    CycleBounds(tight, c, p, d, l);
    Levels(c, m, p, l);
  }

  lemma StartupOnLink(tight: bool, c: Ctl, p: real, d: real, top: real, m: Sample)
    requires Link(p, d, top) && Fits(c, d, top) && c.startup && InCycle(tight, c, p, d, Above(p, d, c.rate))
    requires Shows(m, p, Above(p, d, c.rate), d, c.rate) && c.ewma.Some?
    ensures Apply(c, m).rate > 0.0 && InCycle(tight, Apply(c, m), p, d, Above(p, d, Apply(c, m).rate))
  {
    var l := Above(p, d, c.rate);
    if Cuts(c, m) {
      CutLands(c, d, top, m);
      NoneBelow(p, d, Apply(c, m).rate);
      CutInCycle(tight, c, top, m, p, d, l);
    } else {
      StartupLevels(tight, c, m, p, d, l, l, 0.0);
      StartupMoves(c, m);
      if LossAt(c, m) - FloorAt(c, m) <= CLEAN_EXCESS {
        DoublesOnLink(p, d, top, c.rate, c.max);
      }
      StartupInCycle(tight, c, m, p, d, l, Above(p, d, Apply(c, m).rate));
    }
  }

  lemma ClimbOnLink(tight: bool, c: Ctl, p: real, d: real, top: real, m: Sample)
    requires Link(p, d, top) && Fits(c, d, top) && !c.startup && c.cooldown == 0 && c.ewma.Some?
    requires InCycle(tight, c, p, d, Above(p, d, c.rate)) && Shows(m, p, Above(p, d, c.rate), d, c.rate)
    ensures Apply(c, m).rate > 0.0 && InCycle(tight, Apply(c, m), p, d, Above(p, d, Apply(c, m).rate))
  {
    var l := Above(p, d, c.rate);
    CycleBounds(tight, c, p, d, l);
    if Cuts(c, m) {
      CutLands(c, d, top, m);
      NoneBelow(p, d, Apply(c, m).rate);
      CutInCycle(tight, c, top, m, p, d, l);
    } else {
      NextFloorBound(tight, c, m, p, d, l);
      GrowsOnLink(c, p, d, top, m);
      ClimbInCycle(tight, c, m, p, d, l, Above(p, d, Apply(c, m).rate));
    }
  }

  lemma CycleMove(tight: bool, c: Ctl, p: real, d: real, top: real, m: Sample)
    requires Link(p, d, top) && Fits(c, d, top) && InCycle(tight, c, p, d, Above(p, d, c.rate))
    requires Shows(m, p, Above(p, d, c.rate), d, c.rate)
    ensures Apply(c, m).rate > 0.0 && InCycle(tight, Apply(c, m), p, d, Above(p, d, Apply(c, m).rate))
  {
    var l := Above(p, d, c.rate);
    if c.ewma.None? {
      DoublesOnLink(p, d, top, c.rate, c.max);
      FirstInCycle(tight, c, m, p, d, l, Above(p, d, Min(2.0 * c.rate, c.max)));
    } else if c.startup {
      StartupOnLink(tight, c, p, d, top, m);
    } else if c.cooldown > 0 {
      Waits(c, m);
      CooldownInCycle(tight, c, m, p, d);
    } else {
      ClimbOnLink(tight, c, p, d, top, m);
    }
  }

  /** One closed-loop measurement keeps the controller in the cycle. */
  lemma CycleStep(tight: bool, c: Ctl, p: real, d: real, top: real, tMs: nat)
    requires Link(p, d, top) && Fits(c, d, top) && InCycle(tight, c, p, d, Above(p, d, c.rate))
    ensures var c' := Apply(c, LinkSample(p, d, c.rate, tMs));
            Fits(c', d, top) && InCycle(tight, c', p, d, Above(p, d, c'.rate))
  {
    var m := LinkSample(p, d, c.rate, tMs);
    LinkShows(p, d, c.rate, tMs);
    FitsStep(c, d, top, m);
    CycleMove(tight, c, p, d, top, m);
  }

  lemma {:induction false} CycleRun(tight: bool, c: Ctl, p: real, d: real, top: real, times: seq<nat>)
    requires Link(p, d, top) && Fits(c, d, top) && InCycle(tight, c, p, d, Above(p, d, c.rate))
    ensures var c' := Closed(c, p, d, times);
            Fits(c', d, top) && InCycle(tight, c', p, d, Above(p, d, c'.rate))
  {
    if times != [] {
      CycleRun(tight, c, p, d, top, times[..|times| - 1]);
      CycleStep(tight, Closed(c, p, d, times[..|times| - 1]), p, d, top, times[|times| - 1]);
    }
  }

  // ----- from a fresh controller ------------------------------------------------------------------------

  /** How much the starting rate overloads the link. */
  lemma StartLoss(p: real, d: real, r: real, limit: real)
    requires 0.0 <= p <= 0.1 && 0.0 <= limit <= 0.2 && 0.0 < r <= START_RATE && START_RATE * (1.0 - limit - p) <= d
    ensures Above(p, d, r) <= limit && d >= MIN_RATE
  {
    var q, a := d / r, 1.0 - limit - p;
    assert q * r == d;
    EnoughShare(d, r, q, a);
  }

  lemma EnoughShare(d: real, r: real, q: real, a: real)
    requires 0.0 < r <= START_RATE && q * r == d && a >= 0.7 && START_RATE * a <= d
    ensures q >= a && d >= MIN_RATE
  {
    Signs(START_RATE - r, a);
    Cancel(q, a, r);
  }

  lemma FreshInCycle(tight: bool, seg: nat, capMbps: real, p: real, d: real, top: real)
    requires 0.0 <= p <= 0.1 && top * (0.738 - p) == d && 1.05 * top <= New(seg, capMbps).max
    requires START_RATE * ((if tight then 1.0 else 0.8882) - p) <= d
    ensures var c := New(seg, capMbps);
            Link(p, d, top) && Fits(c, d, top) && InCycle(tight, c, p, d, Above(p, d, c.rate))
  {
    NewIsSane(seg, capMbps);
    StartLoss(p, d, New(seg, capMbps).rate, if tight then 0.0 else 0.1118);
  }

  /** No ratchet and no starvation: with up to 10% random loss, a cap that leaves room
      and a link that takes all but 11.18% of the starting rate, a fresh controller
      keeps its floor within 0.112 above the random loss, and after startup its rate
      between 0.9 d and top = d / (0.738 - p), over runs of any length. */
  lemma {:induction false} NoRatchet(seg: nat, capMbps: real, p: real, d: real, top: real, times: seq<nat>)
    requires 0.0 <= p <= 0.1 && top * (0.738 - p) == d && 1.05 * top <= New(seg, capMbps).max
    requires START_RATE * (0.8882 - p) <= d
    ensures Sane(New(seg, capMbps))
    ensures var c := Closed(New(seg, capMbps), p, d, times);
            && (c.floor.Some? ==> p <= c.floor.value.loss <= p + 0.112)
            && (!c.startup ==> 0.9 * d <= c.rate <= top)
  {
    var c := New(seg, capMbps);
    NewIsSane(seg, capMbps);
    FreshInCycle(false, seg, capMbps, p, d, top);
    CycleRun(false, c, p, d, top, times);
    var c' := Closed(c, p, d, times);
    CycleBounds(false, c', p, d, Above(p, d, c'.rate));
    if !c'.startup {
      RoomAbove(p, d, top, c'.rate, c'.max);
    }
  }

  lemma WithinQuarter(p: real, d: real, b: real, rate: real)
    requires 0.0 <= p <= 0.1 && d > 0.0 && b * (1.0 - p) == d && rate > 0.0 && Above(p, d, rate) <= 0.174
    ensures rate <= 1.25 * b
  {
    var q := d / rate;
    assert q * rate == d;
    Quarter(d, b, 1.0 - p, rate, q);
  }

  lemma Quarter(d: real, b: real, a: real, rate: real, q: real)
    requires rate > 0.0 && q * rate == d == b * a && a > 0.0 && q >= 0.8 * a
    ensures rate <= 1.25 * b
  {
    Signs(q - 0.8 * a, rate);
    assert (0.8 * rate) * a <= b * a;
    Cancel(b, 0.8 * rate, a);
  }

  lemma TakesTheStart(p: real, d: real, b: real)
    requires 0.0 <= p <= 0.1 && b * (1.0 - p) == d && b >= START_RATE
    ensures START_RATE * (1.0 - p) <= d
  {
    Signs(b - START_RATE, 1.0 - p);
  }

  /** On a link whose bottleneck `b`, in front of the random loss, takes the starting
      rate: after startup and over runs of any length the rate stays between
      0.9 (1 - p) b and 1.25 b, and the floor within 0.059 above the random loss. */
  lemma {:induction false} HoldsTheBottleneck(seg: nat, capMbps: real, p: real, d: real, b: real, top: real,
                                             times: seq<nat>)
    requires 0.0 <= p <= 0.1 && b * (1.0 - p) == d && top * (0.738 - p) == d && 1.05 * top <= New(seg, capMbps).max
    requires b >= START_RATE
    ensures Sane(New(seg, capMbps))
    ensures var c := Closed(New(seg, capMbps), p, d, times);
            && (c.floor.Some? ==> p <= c.floor.value.loss <= p + 0.059)
            && (!c.startup ==> 0.9 * d <= c.rate <= 1.25 * b)
  {
    NewIsSane(seg, capMbps);
    TakesTheStart(p, d, b);
    FreshInCycle(true, seg, capMbps, p, d, top);
    TightRun(New(seg, capMbps), p, d, b, top, times);
  }

  lemma {:induction false} TightRun(c: Ctl, p: real, d: real, b: real, top: real, times: seq<nat>)
    requires Link(p, d, top) && b * (1.0 - p) == d
    requires Fits(c, d, top) && InCycle(true, c, p, d, Above(p, d, c.rate))
    ensures var c' := Closed(c, p, d, times);
            && (c'.floor.Some? ==> p <= c'.floor.value.loss <= p + 0.059)
            && (!c'.startup ==> 0.9 * d <= c'.rate <= 1.25 * b)
  {
    CycleRun(true, c, p, d, top, times);
    var c' := Closed(c, p, d, times);
    CycleBounds(true, c', p, d, Above(p, d, c'.rate));
    if !c'.startup {
      WithinQuarter(p, d, b, c'.rate);
    }
  }

  // ----- links too slow for the starting rate ---------------------------------------------------------

  lemma ClosedOne(c: Ctl, p: real, d: real, t: nat)
    requires Sane(c)
    ensures Closed(c, p, d, [t]) == Apply(c, LinkSample(p, d, c.rate, t))
  {
    assert [t][..0] == [];
    assert Closed(c, p, d, []) == c;
  }

  /** The first measurement becomes the floor, congestion and all, and counts as clean. */
  lemma FirstFloor(seg: nat, capMbps: real, p: real, d: real, t: nat)
    requires 0.0 <= p < 1.0 && d > 0.0
    ensures Sane(New(seg, capMbps))
    ensures var c, c' := New(seg, capMbps), Closed(New(seg, capMbps), p, d, [t]);
            && c'.ewma == Some(LinkLoss(p, d, c.rate)) && c'.floor == Some(Floor(LinkLoss(p, d, c.rate), c.rate))
            && c'.startup && c'.cooldown == 0 && c'.rate == Min(2.0 * c.rate, c.max) && c'.max == c.max
  {
    var c := New(seg, capMbps);
    var m := LinkSample(p, d, c.rate, t);
    NewIsSane(seg, capMbps);
    ClosedOne(c, p, d, t);
    ApplyTracks(c, m);
    DeliversSomething(p, d, c.rate, t);
    StartupMoves(c, m);
    HistoryStep(c, m);
  }

  lemma DeliversSomething(p: real, d: real, rate: real, t: nat)
    requires 0.0 <= p < 1.0 && d > 0.0 && rate > 0.0
    ensures LinkSample(p, d, rate, t).delivered > 0.0
  {
    assert d / rate > 0.0;
    Signs(1.0 - LinkLoss(p, d, rate), rate);
  }

  /** Congestion does contaminate the floor: on every link that takes less than the
      starting rate, one measurement of a fresh controller puts the floor at the
      congestive loss, above the random one, with startup still doubling. */
  lemma {:induction false} SlowLinkTaintsFloor(seg: nat, capMbps: real, p: real, d: real, t: nat)
    requires 0.0 <= p < 1.0 && 0.0 < d < START_RATE * (1.0 - p) && capMbps >= 100.0
    ensures Sane(New(seg, capMbps))
    ensures var c := Closed(New(seg, capMbps), p, d, [t]);
            && c.floor == Some(Floor(1.0 - d / START_RATE, START_RATE)) && c.floor.value.loss > p
            && c.startup && c.rate == Min(2.0 * START_RATE, c.max)
  {
    FirstFloor(seg, capMbps, p, d, t);
    var q := d / START_RATE;
    assert q * START_RATE == d;
    Cancel(q, 1.0 - p, START_RATE);
  }

  lemma SlowStart(p: real, d: real, r: real)
    requires 0.0 <= p <= 0.1 && d > 0.0 && r == START_RATE && d < START_RATE * (0.8882 - p)
    ensures Above(p, d, r) > 0.1118
  {
    var q := d / START_RATE;
    assert q * START_RATE == d;
    Cancel(q, 0.8882 - p, START_RATE);
  }

  /** A second measurement after a doubling lifts the floor by exactly 0.0002. */
  lemma SecondFloor(c: Ctl, p: real, d: real, l0: real, r0: real, t: nat)
    requires c.rate > 1.05 * r0 && c.cooldown == 0 && 0.0 <= l0 <= 0.112 && r0 > 0.0
    requires c.ewma == Some(p + l0) && c.floor == Some(Floor(p + l0, r0)) && Above(p, d, c.rate) >= 0.29
    ensures Apply(c, LinkSample(p, d, c.rate, t)).floor.Some?
    ensures Apply(c, LinkSample(p, d, c.rate, t)).floor.value.loss == p + l0 + 0.0002
  {
    Levels(c, LinkSample(p, d, c.rate, t), p, Above(p, d, c.rate));
  }

  /** Where the start overloads the link by more than 11.18%, one or two measurements
      already put the floor beyond the bound. */
  lemma FloorGoesBeyond(seg: nat, capMbps: real, p: real, d: real, top: real) returns (times: seq<nat>)
    requires Link(p, d, top) && 1.05 * top <= New(seg, capMbps).max && d < START_RATE * (0.8882 - p)
    ensures Sane(New(seg, capMbps))
    ensures var c := Closed(New(seg, capMbps), p, d, times); c.floor.Some? && c.floor.value.loss > p + 0.112
  {
    var c := New(seg, capMbps);
    FirstFloor(seg, capMbps, p, d, 0);
    var c1, l0 := Closed(c, p, d, [0]), Above(p, d, c.rate);
    if l0 > 0.112 {
      times := [0];
    } else {
      RoomAbove(p, d, top, c.rate, c.max);
      SlowStart(p, d, c.rate);
      DoublesOnLink(p, d, top, c.rate, c.max);
      SecondFloor(c1, p, d, l0, c.rate, 1);
      times := [0, 1];
      assert times[..1] == [0];
    }
  }

  /** The floor stays within 0.112 above the random loss over every run if and only if
      the link takes all but 11.18% of the starting rate. */
  lemma {:induction false} FloorBoundExact(seg: nat, capMbps: real, p: real, d: real, top: real)
    requires Link(p, d, top) && 1.05 * top <= New(seg, capMbps).max
    ensures Sane(New(seg, capMbps))
    ensures (forall times: seq<nat> ::
               var c := Closed(New(seg, capMbps), p, d, times); c.floor.Some? ==> c.floor.value.loss <= p + 0.112)
            <==> START_RATE * (0.8882 - p) <= d
  {
    NewIsSane(seg, capMbps);
    if START_RATE * (0.8882 - p) <= d {
      forall times: seq<nat>
        ensures var c := Closed(New(seg, capMbps), p, d, times); c.floor.Some? ==> c.floor.value.loss <= p + 0.112
      {
        NoRatchet(seg, capMbps, p, d, top, times);
      }
    } else {
      var times := FloorGoesBeyond(seg, capMbps, p, d, top);
    }
  }
}
