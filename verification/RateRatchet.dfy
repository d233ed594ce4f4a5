/**
 * The controller neither ratchets above a lossy bottleneck nor starves below it:
 * the cycle of startup, climb, cut and cooldown in closed loop with the link, in
 * numbers.
 *
 * Everything is measured from the link's random loss `p`: `e` is how far the
 * smoothed loss lies above it, `g` the floor, `l` the loss the link shows at the
 * current rate. `r` is the rate relative to the rate the floor was measured at.
 * The cycle has two regimes. The tight one belongs to links that take the starting
 * rate without congestion, the other to all links on which the floor stays bounded.
 */
module RateRatchet {
  import opened Prelude

  /** How one measurement moves the floor when the smoothed loss becomes `e`. */
  predicate Moves(g: real, e: real, g': real, cooling: bool, fast: bool) {
    if e < g then g' == 0.7 * g + 0.3 * e
    else if cooling then g' == g
    else g' == g + (if fast then 0.02 else 0.004) * Min(e - g, 0.05)
  }

  /** How growing by 1% to 5% moves the loss the link shows: by 1% only, where it
      already is at the floor. */
  predicate Grows(l: real, g: real, l': real) {
    && l <= l' <= l + 0.048
    && (l > 0.0 && l >= g ==> l' <= l + 0.01)
    && (l > 0.0 && l <= 0.262 ==> l' >= l + 0.0063)
    && (l > 0.0 && l <= 0.174 ==> l' >= l + 0.0071)
  }

  // ----- climbing -------------------------------------------------------------------------------

  /** Outside startup and cooldown. The floor is above 0.08 only as far as the loss
      at the current rate pays for it, or still on its way down from the start. */
  predicate LooseClimb(e: real, g: real, l: real) {
    || (&& 0.0 <= e < g + 0.05 && 0.0 <= g && 0.0 <= l <= g + 0.15 && l <= e + 0.1271
        && (e <= g || e <= l || e <= 0.075)
        && (g <= 0.08 || g <= 0.08 + 0.17 * (l - 0.08)))
    || (0.0 <= e <= 0.0589 && e < g + 0.05 && 0.0 <= g <= 0.0902 && 0.0 <= l <= 0.048)
  }

  /** In the tight regime the floor rises above 0.048 only for a few measurements close
      to the rate it was measured at, or slowly; or it starts low and is paid for. */
  predicate TightFloor(e: real, g: real, l: real, r: real) {
    if e < g then g <= 0.048 && r >= 1.01
    else
      || g <= 0.035 + 0.141 * Max(0.0, l - 0.035)
      || (r >= 1.01 && g <= 0.048 + 0.03 * Max(0.0, l - 0.048) + 0.1 * (Min(r, 1.06) - 1.0))
  }

  predicate TightClimb(e: real, g: real, l: real, r: real) {
    && 0.0 <= e < g + 0.05 && 0.0 <= g && 0.0 <= l <= g + 0.115 && l <= e + 0.09
    && (l <= e + 0.1284 - 0.8 * (l - g) || l <= e + 0.055)
    && (e < g || e <= l || e <= 0.035 || (e <= 0.045 && g <= 0.02 + 0.141 * l))
    && TightFloor(e, g, l, r)
  }

  predicate Climbing(tight: bool, e: real, g: real, l: real, r: real) {
    if tight then TightClimb(e, g, l, r) else LooseClimb(e, g, l)
  }

  /** The largest floor and the largest loss of each regime. */
  function FloorLimit(tight: bool): real {
    if tight then 0.059 else 0.112
  }

  function LossLimit(tight: bool): real {
    if tight then 0.174 else 0.262
  }

  lemma ClimbingBounds(tight: bool, e: real, g: real, l: real, r: real)
    requires Climbing(tight, e, g, l, r)
    ensures 0.0 <= g <= FloorLimit(tight) - 0.001 && 0.0 <= l <= LossLimit(tight)
  {
  }

  /** A climb ends in a cut that the following cooldown makes up for, and never cuts
      where the link shows no loss of its own making. */
  lemma ClimbCuts(tight: bool, e: real, g: real, g': real, l: real, e': real, r: real, fast: bool)
    requires Climbing(tight, e, g, l, r) && e' == 0.7 * e + 0.3 * l && Moves(g, e', g', false, fast)
    ensures e' - g' >= 0.05 ==> Cooling(tight, 3, e', g') && l > 0.0
    ensures 0.0 <= g' <= FloorLimit(tight)
  {
    ClimbingBounds(tight, e, g, l, r);
  }

  lemma LooseGoesOn(e: real, g: real, g': real, l: real, l': real, e': real, fast: bool)
    requires LooseClimb(e, g, l) && e' == 0.7 * e + 0.3 * l && Moves(g, e', g', false, fast)
    requires e' - g' < 0.05 && Grows(l, g', l')
    ensures LooseClimb(e', g', l')
  {
    ClimbingBounds(false, e, g, l, 0.0);
  }

  /** The lag of the smoothed loss, and with it the overshoot, stays small. */
  lemma TightLag(e: real, g: real, g': real, l: real, l': real, e': real, r: real)
    requires TightClimb(e, g, l, r) && g <= 0.058 && l <= 0.174
    requires e' == 0.7 * e + 0.3 * l && Moves(g, e', g', false, r <= 1.05)
    requires e' - g' < 0.05 && Grows(l, g', l')
    ensures 0.0 <= l' <= g' + 0.115 && l' <= e' + 0.09
    ensures l' <= e' + 0.1284 - 0.8 * (l' - g') || l' <= e' + 0.055
  {
  }

  /** What the floor gains is paid for by the loss, or by moving away from its anchor. */
  lemma TightPays(e: real, g: real, g': real, l: real, l': real, e': real, r: real, r': real)
    requires TightClimb(e, g, l, r) && g <= 0.058 && l <= 0.174
    requires e' == 0.7 * e + 0.3 * l && Moves(g, e', g', false, r <= 1.05) && Grows(l, g', l')
    requires r' >= 1.01 * (if e' < g then 1.0 else r)
    ensures e' < g' || e' <= l' || e' <= 0.035 || (e' <= 0.045 && g' <= 0.02 + 0.141 * l')
    ensures TightFloor(e', g', l', r')
  {
  }

  lemma ClimbGoesOn(tight: bool, e: real, g: real, g': real, l: real, l': real, e': real, r: real, r': real)
    requires Climbing(tight, e, g, l, r) && e' == 0.7 * e + 0.3 * l && Moves(g, e', g', false, r <= 1.05)
    requires e' - g' < 0.05 && Grows(l, g', l') && r' >= 1.01 * (if e' < g then 1.0 else r)
    ensures Climbing(tight, e', g', l', r')
  {
    ClimbingBounds(tight, e, g, l, r);
    if tight {
      TightLag(e, g, g', l, l', e', r);
      TightPays(e, g, g', l, l', e', r, r');
    } else {
      LooseGoesOn(e, g, g', l, l', e', r <= 1.05);
    }
  }

  // ----- cooldown -------------------------------------------------------------------------------

  /** After a cut, with `n` measurements of cooldown left, at a rate the link takes. */
  predicate Cooling(tight: bool, n: nat, e: real, g: real) {
    && 0.0 <= e && 0.0 <= g
    && match n
       case 3 =>
         && e <= g + 0.2
         && if tight then (e <= 0.18 && g <= 0.005) || (e <= 0.1285 && g <= 0.059) else e <= 0.2451 && g <= 0.112
       case 2 =>
         && e <= g + 0.14
         && if tight then (e <= 0.126 && g <= 0.005) || (e <= 0.08995 && g <= 0.059) else e <= 0.17157 && g <= 0.112
       case 1 =>
         && e <= g + 0.098
         && if tight then (e <= 0.0882 && g <= 0.005) || (e <= 0.062965 && g <= 0.059) else e <= 0.120099 && g <= 0.112
       case 0 =>
         && e <= g + 0.0686
         && if tight then (e <= 0.06174 && g <= 0.005) || (e <= 0.044076 && g <= 0.05453)
            else e <= 0.0840693 && g <= 0.10363
       case _ => false
  }

  lemma CoolStep(tight: bool, n: nat, e: real, g: real, g': real, fast: bool)
    requires 0 < n <= 3 && Cooling(tight, n, e, g) && Moves(g, 0.7 * e, g', true, fast)
    ensures Cooling(tight, n - 1, 0.7 * e, g')
  {
  }

  /** The first decision after a cooldown is no cut. */
  lemma CoolEnds(tight: bool, e: real, g: real, g': real, l': real, r': real, fast: bool)
    requires Cooling(tight, 0, e, g) && Moves(g, 0.7 * e, g', false, fast)
    requires 0.7 * e < g ==> r' >= 1.01
    ensures 0.7 * e - g' < 0.05 && 0.0 <= g' <= FloorLimit(tight)
    ensures 0.0 <= l' <= 0.048 ==> Climbing(tight, 0.7 * e, g', l', r')
  {
  }

  // ----- startup ----------------------------------------------------------------------------------

  /** Startup: no loss above the random one seen yet; one doubling too many; or clearly
      above the bottleneck, with the cut coming within `5 - n` measurements. On a link
      too slow for the starting rate, the first doubling from above the bottleneck. */
  ghost predicate Starting(tight: bool, e: real, g: real, l: real, r: real) {
    || (e == 0.0 && g == 0.0 && 0.0 <= l <= 0.5)
    || (0.0 <= e <= 0.0206 && 0.0 <= g <= 0.001 && 0.29 <= l <= 0.535)
    || (exists n: nat :: Overdue(n, e, g, l))
    || (!tight && 0.0 <= e == g <= 0.1118 && 0.29 <= l <= 0.5 + g / 2.0 && r > 1.05)
  }

  predicate Overdue(n: nat, e: real, g: real, l: real) {
    && 0.0666 <= l <= 0.17 && e <= l && 0.0 <= g
    && match n
       case 1 => e >= 0.02 && g <= 0.001
       case 2 => e >= 0.03398 && g <= 0.002
       case 3 => e >= 0.043766 && g <= 0.003
       case 4 => e >= 0.050616 && g <= 0.004
       case _ => false
  }

  lemma OverdueStep(tight: bool, n: nat, e: real, g: real, g': real, l: real, e': real, fast: bool)
    requires Overdue(n, e, g, l) && e' == 0.7 * e + 0.3 * l && Moves(g, e', g', false, fast)
    ensures e' - g' > 0.02 && 0.0 <= g' <= 0.005
    ensures e' - g' >= 0.05 || l - g' >= 0.15 ==> Cooling(tight, 3, e', g')
    ensures e' - g' < 0.05 ==> Overdue(n + 1, e', g', l)
  {
  }

  /** A cut or an abort leads into a cooldown the cycle can take. */
  lemma StartCuts(tight: bool, e: real, g: real, g': real, l: real, e': real, r: real)
    requires Starting(tight, e, g, l, r) && e' == 0.7 * e + 0.3 * l && Moves(g, e', g', false, r <= 1.05)
    ensures e' - g' >= 0.05 || l - g' >= 0.15 ==> Cooling(tight, 3, e', g') && l > 0.0
    ensures 0.0 <= g' <= FloorLimit(tight)
  {
    if n: nat :| Overdue(n, e, g, l) {
      OverdueStep(tight, n, e, g, g', l, e', r <= 1.05);
    }
  }

  /** Without a cut startup stays as it is, or, only without loss or a little above the
      bottleneck, may double. */
  lemma StartGoesOn(tight: bool, e: real, g: real, g': real, l: real, e': real, l': real, r: real, r': real)
    requires Starting(tight, e, g, l, r) && e' == 0.7 * e + 0.3 * l && Moves(g, e', g', false, r <= 1.05)
    requires e' - g' < 0.05 && l - g' < 0.15
    ensures e' - g' > 0.02 ==> Starting(tight, e', g', l, r')
    ensures e' - g' <= 0.02 ==> e == 0.0 && g == 0.0 && l <= 0.0685
    ensures e' - g' <= 0.02 && l == 0.0 && 0.0 <= l' <= 0.5 ==> Starting(tight, e', g', l', r')
    ensures e' - g' <= 0.02 && l > 0.0 && 0.29 <= l' <= 0.535 ==> Starting(tight, e', g', l', r')
  {
    if n: nat :| Overdue(n, e, g, l) {
      OverdueStep(tight, n, e, g, g', l, e', r <= 1.05);
    } else if e == 0.0 && g == 0.0 && e' - g' > 0.02 {
      assert Overdue(1, e', g', l);
    }
  }
}
