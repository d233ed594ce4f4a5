/** The sender's loss estimate and the sizing of repair rounds. */
module Repair {
  import opened Prelude

  /** Smoothed loss, whether it has a first sample, and the last counters seen. */
  datatype Est = Est(ewma: real, primed: bool, last: Option<(nat, nat)>)

  const Unprimed: Est := Est(0.0, false, None)

  /** Interval loss, clamped as the source clamps it. */
  function LossOf(received: nat, sent: nat): (x: real)
    requires sent > 0
    ensures 0.0 <= x <= 0.9
  {
    Clamp(1.0 - received as real / sent as real, 0.0, 0.9)
  }

  /** It is the fraction that did not arrive: none when more arrived than was sent,
      and never more than nine tenths. */
  lemma LossIsFractionLost(received: nat, sent: nat)
    requires sent > 0
    ensures LossOf(received, sent) * sent as real == Min(0.9 * sent as real, Monus(sent, received) as real)
  {
    Ratio(received as real, sent as real, received as real / sent as real);
  }

  lemma Ratio(r: real, s: real, q: real)
    requires s > 0.0 && q * s == r
    ensures Clamp(1.0 - q, 0.0, 0.9) * s == Min(0.9 * s, Max(0.0, s - r))
  {
    var x := 1.0 - q;
    OneMinus(q, s, r, x);
    Ordered(x, 0.0, s);
    Ordered(x, 0.9, s);
  }

  lemma OneMinus(q: real, s: real, r: real, x: real)
    requires q * s == r && x == 1.0 - q
    ensures x * s == s - r
  {
  }

  lemma Ordered(x: real, y: real, s: real)
    requires s > 0.0
    ensures x <= y ==> x * s <= y * s
    ensures x >= y ==> x * s >= y * s
  {
  }

  /** One report of cumulative counters. */
  function Update(e: Est, received: nat, sent: nat): Est {
    if e.last.None? then
      var e' := e.(last := Some((received, sent)));
      if sent > 0 then e'.(ewma := LossOf(received, sent), primed := true) else e'
    else
      var dr, ds := Monus(received, e.last.value.0), Monus(sent, e.last.value.1);
      if ds < 50 then e
      else
        var sample := LossOf(dr, ds);
        Est(if e.primed then 0.7 * e.ewma + 0.3 * sample else sample, true, Some((received, sent)))
  }

  /** Repair fraction of the first round. */
  function Round0Frac(e: Est, cliFrac: real): real {
    var adaptive := if e.primed then e.ewma * 1.5 + 0.02 else 0.0;
    Clamp(Max(cliFrac, adaptive), 0.0, 0.8)
  }

  /** Repair fraction of a later round, before escalation. */
  function RepairFrac(e: Est): real {
    Clamp(if e.primed then e.ewma * 1.5 else 0.0, 0.05, 0.8)
  }

  /** The fraction in force in a given round; later rounds escalate gently. */
  function RoundFrac(e: Est, cliFrac: real, round: nat): (f: real)
    ensures f >= 0.0
    ensures round > 0 ==> 0.0625 <= f <= 1.6
  {
    if round == 0 then Round0Frac(e, cliFrac)
    else
      Escalation(RepairFrac(e), 1.0 + 0.25 * MinNat(round, 4) as real);
      RepairFrac(e) * (1.0 + 0.25 * MinNat(round, 4) as real)
  }

  lemma Escalation(f: real, g: real)
    requires 0.05 <= f <= 0.8 && 1.25 <= g <= 2.0
    ensures 0.0625 <= f * g <= 1.6
  {
    assert f * 1.25 <= f * g <= f * 2.0;
  }

  /** `k * f` rounded up. */
  function Share(k: nat, f: real): nat
    requires f >= 0.0
  {
    assert k as real * f >= 0.0;
    Ceil(k as real * f)
  }

  /** Repair symbols sent for a block of `k` source symbols in a given round. */
  function RepairCount(e: Est, cliFrac: real, round: nat, k: nat): nat {
    MaxNat(Share(k, RoundFrac(e, cliFrac, round)), if round == 0 then 2 else 8)
  }

  lemma CeilAbove(x: real)
    requires x >= 0.0
    ensures x <= Ceil(x) as real
  {
  }

  lemma CeilBelow(x: real, n: nat)
    requires 0.0 <= x <= n as real
    ensures Ceil(x) <= n
  {
  }

  lemma CeilSixteenth(x: real, n: nat)
    requires x >= 0.0 && n as real <= 16.0 * x
    ensures DivCeil(n, 16) <= Ceil(x)
  {
    CeilAbove(x);
    var c := Ceil(x);
    assert n <= 16 * c;
  }

  lemma Scaled(a: real, lo: real, f: real, hi: real)
    requires a >= 0.0 && lo <= f <= hi
    ensures a * lo <= a * f <= a * hi
  {
  }

  lemma ShareAbove(k: nat, f: real)
    requires f >= 0.0
    ensures k as real * f <= Share(k, f) as real
  {
    Scaled(k as real, 0.0, f, f);
    CeilAbove(k as real * f);
  }

  lemma ShareBelow(k: nat, f: real, n: nat)
    requires 0.0 <= f && k as real * f <= n as real
    ensures Share(k, f) <= n
  {
    var x := k as real * f;
    assert x >= 0.0;
    CeilBelow(x, n);
    assert Share(k, f) == Ceil(x);
  }

  lemma ShareSixteenth(k: nat, f: real)
    requires f >= 0.0625
    ensures DivCeil(k, 16) <= Share(k, f)
  {
    var x := k as real * f;
    Scaled(k as real, 0.0625, f, f);
    assert k as real * 0.0625 <= x;
    CeilSixteenth(x, k);
    assert Share(k, f) == Ceil(x);
  }

  lemma ShareDouble(k: nat, f: real)
    requires 0.0 <= f <= 2.0
    ensures Share(k, f) <= 2 * k
  {
    Scaled(k as real, 0.0, f, 2.0);
    ShareBelow(k, f, 2 * k);
  }

  lemma ShareWhole(k: nat, f: real)
    requires 0.0 <= f <= 1.0
    ensures Share(k, f) <= k
  {
    Scaled(k as real, 0.0, f, 1.0);
    ShareBelow(k, f, k);
  }

  lemma ShareAtLeast(k: nat, lo: real, f: real)
    requires 0.0 <= f && lo <= f
    ensures k as real * lo <= Share(k, f) as real
  {
    Scaled(k as real, lo, f, f);
    ShareAbove(k, f);
  }

  /** A repair round of a block always makes at least max(8, k/16 rounded up)
      new symbols, and no more than max(8, 2k), whatever the estimate. */
  lemma RepairRoundSize(e: Est, cliFrac: real, round: nat, k: nat)
    requires round > 0
    ensures MaxNat(8, DivCeil(k, 16)) <= RepairCount(e, cliFrac, round, k) <= MaxNat(8, 2 * k)
  {
    ShareSixteenth(k, RoundFrac(e, cliFrac, round));
    ShareDouble(k, RoundFrac(e, cliFrac, round));
  }

  /** `k * f` rounded up, but no less than `least`. */
  ghost predicate SizedBy(n: nat, k: nat, f: real, least: nat) {
    && k as real * f <= n as real && least <= n
    && (n == least || n as real < k as real * f + 1.0)
  }

  lemma ShareIsRounded(k: nat, f: real, least: nat)
    requires f >= 0.0
    ensures SizedBy(MaxNat(Share(k, f), least), k, f, least)
  {
    var x := k as real * f;
    Scaled(k as real, 0.0, f, f);
    assert Share(k, f) == Ceil(x) && x <= Ceil(x) as real < x + 1.0;
  }

  /** The overhead `f` a round is meant to have. First round: the larger of what was asked
      for and one and a half times the estimated loss plus 2%, at most 80%. Later: one and
      a half times the estimated loss, at least 5% and at most 80%, and a quarter more
      with each round up to the fourth. */
  ghost predicate Fraction(e: Est, cliFrac: real, round: nat, f: real) {
    if round == 0 then f == Min(0.8, Max(0.0, if e.primed then Max(cliFrac, 1.5 * e.ewma + 0.02) else cliFrac))
    else
      f == Max(0.05, Min(0.8, if e.primed then 1.5 * e.ewma else 0.0))
           * (if round == 1 then 1.25 else if round == 2 then 1.5 else if round == 3 then 1.75 else 2.0)
  }

  /** Every round follows the loss estimate, the round number and the overhead asked for. */
  lemma RoundFollowsEstimate(e: Est, cliFrac: real, round: nat, k: nat, f: real)
    requires Fraction(e, cliFrac, round, f)
    ensures SizedBy(RepairCount(e, cliFrac, round, k), k, f, if round == 0 then 2 else 8)
  {
    assert f == RoundFrac(e, cliFrac, round);
    ShareIsRounded(k, f, if round == 0 then 2 else 8);
  }

  /** The first round adds at least two symbols and at most k, and never fewer
      than the overhead asked for on the command line (up to 80%). */
  lemma FirstRoundSize(e: Est, cliFrac: real, k: nat)
    ensures 2 <= RepairCount(e, cliFrac, 0, k) <= MaxNat(2, k)
    ensures cliFrac <= 0.8 ==> k as real * cliFrac <= RepairCount(e, cliFrac, 0, k) as real
  {
    ShareWhole(k, RoundFrac(e, cliFrac, 0));
    if cliFrac <= 0.8 {
      ShareAtLeast(k, cliFrac, RoundFrac(e, cliFrac, 0));
    }
  }

  /** The loss sample a report contributes, if it closes an interval. */
  function SampleTaken(e: Est, received: nat, sent: nat): Option<real> {
    if e.last.None? then
      if sent > 0 then Some(LossOf(received, sent)) else None
    else
      var dr, ds := Monus(received, e.last.value.0), Monus(sent, e.last.value.1);
      if ds < 50 then None else Some(LossOf(dr, ds))
  }

  /** The estimate after a run of (received, sent) reports. */
  ghost function AfterReports(rs: seq<(nat, nat)>): Est {
    if rs == [] then Unprimed
    else
      var r := rs[|rs| - 1];
      Update(AfterReports(rs[..|rs| - 1]), r.0, r.1)
  }

  /** Every sample of the run lies in the band. */
  ghost predicate SamplesIn(rs: seq<(nat, nat)>, lo: real, hi: real) {
    if rs == [] then true
    else
      var front, r := rs[..|rs| - 1], rs[|rs| - 1];
      var x := SampleTaken(AfterReports(front), r.0, r.1);
      SamplesIn(front, lo, hi) && (x.Some? ==> lo <= x.value <= hi)
  }

  /** Over every run the estimate stays within any band that holds all interval
      losses, and within 0 and 0.9 in any case: old intervals cannot push it out. */
  lemma {:induction false} EstimateStaysInBand(rs: seq<(nat, nat)>, lo: real, hi: real)
    ensures 0.0 <= AfterReports(rs).ewma <= 0.9
    ensures AfterReports(rs).primed && SamplesIn(rs, lo, hi) ==> lo <= AfterReports(rs).ewma <= hi
    ensures !AfterReports(rs).primed ==> AfterReports(rs).ewma == 0.0
  {
    if rs != [] {
      EstimateStaysInBand(rs[..|rs| - 1], lo, hi);
    }
  }

  /** A report of fewer than 50 further packets is merged into the next one; any other
      becomes the start of the next interval. */
  lemma SmallIntervalsMerge(e: Est, received: nat, sent: nat)
    ensures e.last.Some? && sent < e.last.value.1 + 50 ==> Update(e, received, sent) == e
    ensures e.last.None? || sent >= e.last.value.1 + 50 ==> Update(e, received, sent).last == Some((received, sent))
  {
  }

  /** 0.7^n * x. */
  function Fading(x: real, n: nat): real {
    if n == 0 then x else 0.7 * Fading(x, n - 1)
  }

  /** Consecutive reports are 50 packets or more apart and each interval between them
      shows the loss `x`. */
  ghost predicate ShowsLoss(rs: seq<(nat, nat)>, x: real) {
    forall i | 0 < i < |rs| ::
      && rs[i].1 >= rs[i - 1].1 + 50
      && LossOf(Monus(rs[i].0, rs[i - 1].0), rs[i].1 - rs[i - 1].1) == x
  }

  /** Under intervals of equal loss the estimate closes in on it: after n of them
      exactly 0.7^n of the first report's error is left. */
  lemma {:induction false} EstimateClosesIn(rs: seq<(nat, nat)>, x: real)
    requires rs != [] && rs[0].1 > 0 && ShowsLoss(rs, x)
    ensures var e := AfterReports(rs);
            && e.primed && e.last == Some(rs[|rs| - 1])
            && e.ewma - x == Fading(LossOf(rs[0].0, rs[0].1) - x, |rs| - 1)
  {
    var n := |rs| - 1;
    if n > 0 {
      EstimateClosesIn(rs[..n], x);
      assert rs[..n][n - 1] == rs[n - 1];
    } else {
      assert rs[..0] == [] && AfterReports([]) == Unprimed;
    }
  }

  // ----- what the first round absorbs ------------------------------------------------

  /** Of the symbols of the first round, when the path loses a fraction `p`, at
      least `k` survive. */
  ghost predicate Absorbs(e: Est, cliFrac: real, p: real, k: nat) {
    (k + RepairCount(e, cliFrac, 0, k)) as real * (1.0 - p) >= k as real
  }

  /** What arrives per source symbol with overhead `f` and loss `p`. */
  function Surviving(f: real, p: real): real {
    (1.0 + f) * (1.0 - p)
  }

  /** The overhead makes up for the loss. */
  predicate Covers(f: real, p: real) {
    Surviving(f, p) >= 1.0
  }

  lemma ShareBarelyAbove(k: nat, f: real)
    requires f >= 0.0
    ensures Share(k, f) as real <= k as real * f + 1.0
  {
    var x := k as real * f;
    assert x >= 0.0;
    assert Ceil(x) as real <= x + 1.0;
    assert Share(k, f) == Ceil(x);
  }

  lemma Enough(k: real, n: real, f: real, q: real)
    requires k >= 0.0 && n >= k * f && q >= 0.0 && (1.0 + f) * q >= 1.0
    ensures (k + n) * q >= k
  {
    assert (k + n) * q >= (k + k * f) * q;
    assert (k + k * f) * q == k * ((1.0 + f) * q);
    Scaled(k, 1.0, (1.0 + f) * q, (1.0 + f) * q);
  }

  lemma Associate(k: real, a: real, q: real)
    ensures (k * a) * q == k * (a * q)
  {
  }

  lemma AssociateNamed(k: real, a: real, q: real, y: real)
    requires y == a * q
    ensures (k * a) * q == k * y
  {
    Associate(k, a, q);
  }

  lemma Times(x: real, x': real, q: real)
    requires q >= 0.0 && x <= x'
    ensures x * q <= x' * q
  {
  }

  lemma TwoMore(x: real, q: real)
    ensures (x + 2.0) * q == x * q + 2.0 * q
  {
  }

  lemma Survivors(k: real, n: real, f: real, q: real, y: real)
    requires n <= k * f + 2.0 && q >= 0.0 && y == (1.0 + f) * q
    ensures (k + n) * q <= k * y + 2.0 * q
  {
    var a := 1.0 + f;
    var ka := k * a;
    assert ka == k + k * f;
    Times(k + n, ka + 2.0, q);
    TwoMore(ka, q);
    AssociateNamed(k, a, q, y);
  }

  lemma BelowByGap(k: real, survivors: real, y: real, q: real)
    requires survivors <= k * y + 2.0 * q && k * (1.0 - y) > 2.0 * q
    ensures survivors < k
  {
    assert k * (1.0 - y) == k - k * y;
  }

  lemma TooFew(k: real, n: real, f: real, q: real, y: real)
    requires n <= k * f + 2.0 && q >= 0.0 && y == (1.0 + f) * q && k * (1.0 - y) > 2.0 * q
    ensures (k + n) * q < k
  {
    Survivors(k, n, f, q, y);
    BelowByGap(k, (k + n) * q, y, q);
  }

  lemma CountBarelyAbove(e: Est, cliFrac: real, k: nat)
    ensures RepairCount(e, cliFrac, 0, k) as real <= k as real * Round0Frac(e, cliFrac) + 2.0
  {
    var f := Round0Frac(e, cliFrac);
    ShareBarelyAbove(k, f);
    Scaled(k as real, 0.0, f, f);
  }

  /** Where the fraction is too small the round falls short for every block that is
      large enough for the gap to outweigh rounding and the minimum of two. */
  lemma FirstRoundFallsShort(e: Est, cliFrac: real, p: real, k: nat)
    requires 0.0 <= p <= 1.0
    requires k as real * (1.0 - Surviving(Round0Frac(e, cliFrac), p)) > 2.0 * (1.0 - p)
    ensures !Absorbs(e, cliFrac, p, k)
  {
    var f := Round0Frac(e, cliFrac);
    CountBarelyAbove(e, cliFrac, k);
    TooFew(k as real, RepairCount(e, cliFrac, 0, k) as real, f, 1.0 - p, Surviving(f, p));
  }

  lemma LargeEnough(gap: real, q: real) returns (k: nat)
    requires gap > 0.0 && q >= 0.0
    ensures k as real * gap > 2.0 * q
  {
    var x := 2.0 * q / gap;
    assert x * gap == 2.0 * q && x >= 0.0;
    k := Ceil(x) + 1;
    CeilAbove(x);
    assert (k as real - x) * gap > 0.0;
  }

  /** The first round leaves enough symbols of blocks of every size if and only if
      its fraction f satisfies (1 + f)(1 - p) >= 1. */
  lemma FirstRoundAbsorbsLoss(e: Est, cliFrac: real, p: real)
    requires 0.0 <= p <= 1.0
    ensures (forall k: nat :: Absorbs(e, cliFrac, p, k)) <==> Covers(Round0Frac(e, cliFrac), p)
  {
    var f, q := Round0Frac(e, cliFrac), 1.0 - p;
    if Covers(f, p) {
      forall k: nat
        ensures Absorbs(e, cliFrac, p, k)
      {
        ShareAbove(k, f);
        Enough(k as real, RepairCount(e, cliFrac, 0, k) as real, f, q);
      }
    } else {
      var k := LargeEnough(1.0 - Surviving(f, p), q);
      FirstRoundFallsShort(e, cliFrac, p, k);
    }
  }

  lemma LargerFraction(a: real, b: real, p: real)
    requires p <= 1.0 && a <= b && Covers(a, p)
    ensures Covers(b, p)
  {
    assert (b - a) * (1.0 - p) >= 0.0;
    assert (1.0 + b) * (1.0 - p) == (1.0 + a) * (1.0 - p) + (b - a) * (1.0 - p);
  }

  lemma EitherFraction(a: real, b: real, p: real)
    requires p <= 1.0
    ensures Covers(Max(a, b), p) <==> Covers(a, p) || Covers(b, p)
    ensures Covers(Min(a, b), p) <==> Covers(a, p) && Covers(b, p)
  {
    if a <= b {
      if Covers(a, p) { LargerFraction(a, b, p); }
    } else {
      if Covers(b, p) { LargerFraction(b, a, p); }
    }
  }

  lemma AdaptiveFraction(p: real)
    ensures Covers(p * 1.5 + 0.02, p) <==> 1.5 * (p * p) <= 0.48 * p + 0.02
    ensures Covers(0.8, p) <==> 9.0 * p <= 4.0
  {
    assert (1.0 + (p * 1.5 + 0.02)) * (1.0 - p) == 1.02 + 0.48 * p - 1.5 * (p * p);
  }

  lemma FirstFraction(e: Est, cliFrac: real, p: real)
    requires e.primed && e.ewma >= 0.0 && p <= 1.0
    ensures Covers(Round0Frac(e, cliFrac), p)
            <==> Covers(0.8, p) && (Covers(cliFrac, p) || Covers(e.ewma * 1.5 + 0.02, p))
  {
    var adaptive := e.ewma * 1.5 + 0.02;
    var larger := Max(cliFrac, adaptive);
    assert Round0Frac(e, cliFrac) == Min(larger, 0.8);
    EitherFraction(larger, 0.8, p);
    EitherFraction(cliFrac, adaptive, p);
  }

  /** What that means for an estimate that is right: a path that loses a fraction p
      is absorbed, for blocks of every size, exactly when p is at most 4/9 and
      either p is at most about 0.357, where the adaptive fraction suffices, or the
      overhead asked for on the command line makes up for it. */
  lemma EstimatedLossIsAbsorbed(e: Est, cliFrac: real, p: real)
    requires e.primed && e.ewma == p && 0.0 <= p <= 1.0
    ensures (forall k: nat :: Absorbs(e, cliFrac, p, k))
            <==> 9.0 * p <= 4.0 && (1.5 * (p * p) <= 0.48 * p + 0.02 || Covers(cliFrac, p))
  {
    FirstRoundAbsorbsLoss(e, cliFrac, p);
    FirstFraction(e, cliFrac, p);
    AdaptiveFraction(p);
  }

  class LossEstimator {
    var ewma: real
    var primed: bool
    var last: Option<(nat, nat)>

    ghost function State(): Est
      reads this
    {
      Est(ewma, primed, last)
    }

    constructor ()
      ensures State() == Unprimed
    {
      ewma, primed, last := 0.0, false, None;
    }

    method UpdateStep(received: nat, sent: nat)
      modifies this
      ensures State() == Update(old(State()), received, sent)
    {
      if last.None? {
        last := Some((received, sent));
        if sent > 0 {
          ewma := LossOf(received, sent);
          primed := true;
        }
        return;
      }
      var dr := Monus(received, last.value.0);
      var ds := Monus(sent, last.value.1);
      if ds < 50 {
        return;
      }
      last := Some((received, sent));
      var sample := LossOf(dr, ds);
      if primed {
        ewma := 0.7 * ewma + 0.3 * sample;
      } else {
        ewma := sample;
        primed := true;
      }
    }
  }
}
