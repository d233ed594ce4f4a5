/**
 * The rate controller in closed loop with a link that loses a fraction of the
 * packets at random and delivers no more than a given rate.
 */
module RateBottleneck {
  import opened Prelude
  import opened Rate
  import opened RateRuns

  /** Loss on a link that loses a fraction `p` at random and delivers at most
      `d` bytes per second, when `rate` bytes per second are offered. */
  function LinkLoss(p: real, d: real, rate: real): real
    requires rate > 0.0
  {
    Max(p, 1.0 - d / rate)
  }

  /** What a saturating sender measures on that link. */
  function LinkSample(p: real, d: real, rate: real, tMs: nat): Sample
    requires rate > 0.0
  {
    var raw := LinkLoss(p, d, rate);
    Sample(raw, (1.0 - raw) * rate, rate, tMs)
  }

  /** The controller in closed loop with the link, one measurement per time. */
  ghost function Closed(c: Ctl, p: real, d: real, times: seq<nat>): (r: Ctl)
    requires Sane(c)
    ensures Sane(r)
  {
    if times == [] then c
    else
      var before := Closed(c, p, d, times[..|times| - 1]);
      var m := LinkSample(p, d, before.rate, times[|times| - 1]);
      ApplySane(before, m);
      Apply(before, m)
  }

  lemma Quotients(d: real, r: real, r': real)
    requires d > 0.0 && 0.0 < r' <= 1.05 * r
    ensures d / r' >= (d / r) / 1.05
  {
    var q, q' := d / r, d / r';
    assert q * r == d == q' * r';
    assert q' * r' <= q' * (1.05 * r);
    Cancel(1.05 * q', q, r);
  }

  /** Raising the offered rate by at most 5% raises the loss by less than 0.048. */
  lemma LossGrowsSlowly(p: real, d: real, r: real, r': real)
    requires d > 0.0 && 0.0 < r' <= 1.05 * r && 0.0 <= p
    ensures LinkLoss(p, d, r') <= LinkLoss(p, d, r) + 0.048
  {
    Quotients(d, r, r');
    assert d / r > 0.0;
  }

  lemma RateBelow(p: real, d: real, rate: real, limit: real, gap: real)
    requires rate > 0.0 && gap > 0.0
    requires LinkLoss(p, d, rate) <= 1.0 - gap && 1.05 * d <= limit * gap
    ensures 1.05 * rate <= limit
  {
    var q := d / rate;
    assert q >= gap && q * rate == d;
    assert gap * rate <= q * rate;
    Cancel(limit, 1.05 * rate, gap);
  }

  /** Outside startup a measurement raises the rate by at most 5%, and only if
      it is not a cut. */
  lemma GrowthStep(c: Ctl, m: Sample)
    requires Sane(c) && !c.startup
    ensures var c' := Apply(c, m);
            && !c'.startup && 0.0 < c'.rate <= 1.05 * c.rate
            && (c'.rate > c.rate ==> !Excessive(c, m))
  {
  }

  /** The smoothed signal trails the loss the link shows at the current rate by
      no more than 0.16. */
  ghost predicate Tracks(c: Ctl, p: real, d: real) {
    && Sane(c) && !c.startup && c.ewma.Some?
    && LinkLoss(p, d, c.rate) <= c.ewma.value + 0.16
  }

  lemma TracksStep(c: Ctl, p: real, d: real, tMs: nat)
    requires Tracks(c, p, d) && d > 0.0 && 0.0 <= p
    ensures Tracks(Apply(c, LinkSample(p, d, c.rate, tMs)), p, d)
    ensures LinkLoss(p, d, c.rate) <= LossAt(c, LinkSample(p, d, c.rate, tMs)) + 0.112
  {
    var m := LinkSample(p, d, c.rate, tMs);
    ApplySane(c, m);
    GrowthStep(c, m);
    ApplyTracks(c, m);
    LossGrowsSlowly(p, d, c.rate, Apply(c, m).rate);
  }

  /** The floor stays at or below `phi` all along the closed-loop run. */
  ghost predicate FloorAtMost(c: Ctl, p: real, d: real, times: seq<nat>, phi: real)
    requires Sane(c)
  {
    forall k | 0 <= k <= |times| ::
      var s := Closed(c, p, d, times[..k]); s.floor.Some? && s.floor.value.loss <= phi
  }

  /** One closed-loop step: the rate rises only while it is far enough below the limit. */
  lemma RunawayStep(c: Ctl, p: real, d: real, tMs: nat, gap: real, limit: real)
    requires Tracks(c, p, d) && d > 0.0 && 0.0 <= p && gap > 0.0 && 1.05 * d <= limit * gap
    requires FloorAt(c, LinkSample(p, d, c.rate, tMs)) <= 0.838 - gap
    ensures Apply(c, LinkSample(p, d, c.rate, tMs)).rate <= Max(c.rate, limit)
  {
    var m := LinkSample(p, d, c.rate, tMs);
    GrowthStep(c, m);
    if Apply(c, m).rate > c.rate {
      TracksStep(c, p, d, tMs);
      RateBelow(p, d, c.rate, limit, gap);
    }
  }

  lemma TimesPrefix(times: seq<nat>, n: nat)
    requires n < |times|
    ensures forall k | 0 <= k <= n :: times[..n][..k] == times[..k]
  {
  }

  /** The controller does not run away above a bottleneck: in closed loop with a
      link that delivers at most `d`, as long as the floor stays at or below
      phi = 0.838 - gap, the rate never exceeds its starting value or
      1.05 d / gap, whatever the random loss p and however long the run. */
  lemma {:induction false} NoRunaway(c: Ctl, p: real, d: real, times: seq<nat>, gap: real, limit: real)
    requires Tracks(c, p, d) && d > 0.0 && 0.0 <= p
    requires gap > 0.0 && 1.05 * d <= limit * gap
    requires FloorAtMost(c, p, d, times, 0.838 - gap)
    ensures Tracks(Closed(c, p, d, times), p, d)
    ensures Closed(c, p, d, times).rate <= Max(c.rate, limit)
  {
    if times != [] {
      var n := |times| - 1;
      TimesPrefix(times, n);
      NoRunaway(c, p, d, times[..n], gap, limit);
      var s := Closed(c, p, d, times[..n]);
      TracksStep(s, p, d, times[n]);
      ApplyTracks(s, LinkSample(p, d, s.rate, times[n]));
      assert times[..|times|] == times;
      RunawayStep(s, p, d, times[n], gap, limit);
    }
  }

  lemma {:induction false} ClosedFloor(c: Ctl, p: real, d: real, times: seq<nat>)
    requires Sane(c) && c.floor.Some?
    ensures Closed(c, p, d, times).floor.Some?
    ensures Closed(c, p, d, times).floor.value.loss <= c.floor.value.loss + 0.001 * |times| as real
  {
    if times != [] {
      var front := times[..|times| - 1];
      ClosedFloor(c, p, d, front);
      var s := Closed(c, p, d, front);
      FloorStep(s, LinkSample(p, d, s.rate, times[|times| - 1]));
    }
  }

  /** The same with nothing assumed about the floor but where it starts: over n
      measurements it has only 0.001 n to rise. */
  lemma {:induction false} NoRunawayWithin(c: Ctl, p: real, d: real, times: seq<nat>, gap: real, limit: real)
    requires Tracks(c, p, d) && d > 0.0 && 0.0 <= p
    requires gap > 0.0 && 1.05 * d <= limit * gap
    requires c.floor.value.loss + 0.001 * |times| as real <= 0.838 - gap
    ensures Closed(c, p, d, times).rate <= Max(c.rate, limit)
  {
    forall k | 0 <= k <= |times|
      ensures var s := Closed(c, p, d, times[..k]); s.floor.Some? && s.floor.value.loss <= 0.838 - gap
    {
      ClosedFloor(c, p, d, times[..k]);
    }
    NoRunaway(c, p, d, times, gap, limit);
  }
}
