/**
 * The adaptive rate controller.
 *
 * `Ctl` is the controller as a value and `OnReport` what one receiver report
 * does to it; the class below is the imperative controller, proved to follow
 * it. The value keeps every delivery sample ever taken: the windowed maximum
 * is defined on that whole history, and the class's trimmed deque is proved to
 * give the same answer.
 *
 * Rates, losses and times are exact reals; the constants are the source's
 * decimals. Rates are in bytes per second.
 */
module Rate {
  import opened Prelude

  const START_RATE: real := 12500000.0
  const MIN_RATE: real := 625000.0
  const MIN_SAMPLE_DT: real := 0.05
  const APP_LIMITED_FRAC: real := 0.7
  const GROW_EVIDENCE_FRAC: real := 0.9
  const LOSS_EWMA_ALPHA: real := 0.3
  const FLOOR_FALL: real := 0.3
  const FLOOR_RELAX: real := 0.02
  const FLOOR_RELAX_SLOW: real := 0.004
  const FLOOR_RATE_TOL: real := 1.05
  const DELIVERED_WINDOW_MS: nat := 2500
  const CLEAN_EXCESS: real := 0.02
  const CUT_EXCESS: real := 0.05
  const CUT_COOLDOWN: nat := 3
  const CUT_MIN_FACTOR: real := 0.9
  const GROWTH_STARTUP: real := 2.0
  const GROWTH_STEADY: real := 1.05
  const GROWTH_SLOW: real := 1.01
  const STARTUP_GROWTH_MIN: real := 1.1
  const STARTUP_STAGNANT_EXIT: nat := 3
  const STARTUP_ABORT_EXCESS: real := 0.15

  /** Cumulative counters as of one report. */
  datatype Snap = Snap(pkts: nat, span: nat, bytes: nat, tMs: nat)

  /** The loss floor and the pacing rate at which it was measured. */
  datatype Floor = Floor(loss: real, anchor: real)

  /** One delivery sample: receiver time in ms, delivered bytes per second. */
  datatype Delivery = Delivery(tMs: nat, rate: real)

  datatype Report = Report(pkts: nat, span: Option<nat>, bytesSent: nat, tMs: nat)

  datatype Ctl = Ctl(rate: real, max: real, seg: nat, startup: bool, best: real, stagnant: nat,
                     cooldown: nat, ewma: Option<real>, floor: Option<Floor>,
                     history: seq<Delivery>, last: Option<Snap>)

  function New(seg: nat, maxRateMbps: real): Ctl {
    var max := Max(maxRateMbps * 1000000.0 / 8.0, MIN_RATE);
    Ctl(Min(START_RATE, max), max, seg, true, 0.0, 0, 0, None, None, [], None)
  }

  // ----- what a report measures -------------------------------------------------

  /** Raw interval loss, delivered rate and sent rate of one interval. */
  datatype Sample = Sample(raw: real, delivered: real, sent: real, tMs: nat)

  function SpanOf(c: Ctl, r: Report): nat
    requires c.seg > 0
  {
    if r.span.Some? then r.span.value else r.bytesSent / c.seg
  }

  function SnapOf(c: Ctl, r: Report): Snap
    requires c.seg > 0
  {
    Snap(r.pkts, SpanOf(c, r), r.bytesSent, r.tMs)
  }

  function Elapsed(last: Snap, r: Report): real {
    Monus(r.tMs, last.tMs) as real / 1000.0
  }

  /** The report is the first one, or closes an interval long enough to count. */
  predicate Closes(c: Ctl, r: Report) {
    c.last.None? || Elapsed(c.last.value, r) >= MIN_SAMPLE_DT
  }

  /** The measurement a report yields; none for the first report, for an
      interval that is merged into the next, and for an idle one. */
  function Measure(c: Ctl, r: Report): (m: Option<Sample>)
    requires c.seg > 0
    ensures m.Some? ==> 0.0 <= m.value.raw <= 1.0 && m.value.delivered > 0.0 && m.value.sent >= 0.0
    ensures m.Some? ==> m.value.tMs == r.tMs && c.last.Some? && c.last.value.tMs < r.tMs
  {
    if c.last.None? || !Closes(c, r) then None
    else
      var last, dt := c.last.value, Elapsed(c.last.value, r);
      var dpkts, dspan := Monus(r.pkts, last.pkts), Monus(SpanOf(c, r), last.span);
      var dbytes := Monus(r.bytesSent, last.bytes);
      if dspan == 0 || dpkts == 0 then None
      else
        Some(SampleOf(dpkts, dspan, dbytes, c.seg, dt, r.tMs))
  }

  /** Loss, delivered rate and sent rate of an interval of `dt` seconds. */
  function SampleOf(dpkts: nat, dspan: nat, dbytes: nat, seg: nat, dt: real, tMs: nat): (m: Sample)
    requires dpkts > 0 && dspan > 0 && seg > 0 && dt > 0.0
    ensures 0.0 <= m.raw <= 1.0 && m.delivered > 0.0 && m.sent >= 0.0 && m.tMs == tMs
  {
    Positive(dpkts as real, seg as real, dt);
    Sample(Clamp(1.0 - dpkts as real / dspan as real, 0.0, 1.0),
           dpkts as real * seg as real / dt,
           dbytes as real / dt,
           tMs)
  }

  /** The sample means what it says: lost over span (nothing, when stragglers make
      up for more than the span grew), bytes delivered and bytes sent per second. */
  lemma SampleMeans(dpkts: nat, dspan: nat, dbytes: nat, seg: nat, dt: real, tMs: nat)
    requires dpkts > 0 && dspan > 0 && seg > 0 && dt > 0.0
    ensures var m := SampleOf(dpkts, dspan, dbytes, seg, dt, tMs);
            && m.raw * dspan as real == Monus(dspan, dpkts) as real
            && m.delivered * dt == dpkts as real * seg as real
            && m.sent * dt == dbytes as real
  {
    var p, s := dpkts as real, dspan as real;
    assert p / s * s == p;
    Fraction(p / s, p, s);
  }

  lemma Fraction(q: real, p: real, s: real)
    requires s > 0.0 && p >= 0.0 && q * s == p
    ensures q >= 0.0 && (q <= 1.0 <==> p <= s)
    ensures (1.0 - q) * s == s - p
  {
    Cancel(q, 0.0, s);
    Cancel(1.0, q, s);
    Cancel(q, 1.0, s);
  }

  lemma Positive(x: real, y: real, z: real)
    requires x > 0.0 && y > 0.0 && z > 0.0
    ensures x * y / z > 0.0
  {
  }

  // ----- what a measurement does ------------------------------------------------

  function Smooth(ewma: Option<real>, raw: real): real {
    if ewma.None? then raw else (1.0 - LOSS_EWMA_ALPHA) * ewma.value + LOSS_EWMA_ALPHA * raw
  }

  /** How far one sample may lift the floor, as a fraction of the gap. */
  function Relax(f: Floor, rate: real): real {
    if rate <= f.anchor * FLOOR_RATE_TOL then FLOOR_RELAX else FLOOR_RELAX_SLOW
  }

  function NextFloor(floor: Option<Floor>, loss: real, rate: real, cooldown: nat): Floor {
    if floor.None? then Floor(loss, rate)
    else
      var f := floor.value;
      if loss >= f.loss then
        if cooldown > 0 then f
        else Floor(f.loss + Relax(f, rate) * (Min(loss, f.loss + CUT_EXCESS) - f.loss), f.anchor)
      else Floor(f.loss + FLOOR_FALL * (loss - f.loss), rate)
  }

  /** The largest delivery sample taken no earlier than 2500 ms before `now`. */
  function MaxDelivered(history: seq<Delivery>, now: nat): real {
    if history == [] then 0.0
    else
      var d := history[|history| - 1];
      var rest := MaxDelivered(history[..|history| - 1], now);
      if d.tMs + DELIVERED_WINDOW_MS < now then rest else Max(rest, d.rate)
  }

  /** The decision taken outside cooldown, with loss and floor already updated. */
  function Decide(c: Ctl, m: Sample, loss: real, floor: real, maxDelivered: real): Ctl {
    var excess := loss - floor;
    var saturated := m.sent >= GROW_EVIDENCE_FRAC * c.rate;
    if excess >= CUT_EXCESS || (c.startup && m.raw - floor >= STARTUP_ABORT_EXCESS) then
      c.(startup := false, rate := CutRate(c.rate, maxDelivered), cooldown := CUT_COOLDOWN)
    else if excess <= CLEAN_EXCESS && saturated then
      if !c.startup && c.rate >= maxDelivered / (1.0 - Min(floor, 0.5)) then
        c.(rate := Min(c.rate * GROWTH_SLOW, c.max))
      else if c.startup then
        if m.delivered > c.best * STARTUP_GROWTH_MIN then
          c.(best := m.delivered, stagnant := 0, rate := Min(c.rate * GROWTH_STARTUP, c.max))
        else if c.stagnant + 1 >= STARTUP_STAGNANT_EXIT then
          c.(stagnant := c.stagnant + 1, startup := false,
             rate := Clamp(maxDelivered, MIN_RATE, Max(c.rate, MIN_RATE)))
        else
          c.(stagnant := c.stagnant + 1)
      else
        c.(rate := Min(c.rate * GROWTH_STEADY, c.max))
    else if !c.startup && excess < CUT_EXCESS && saturated then
      c.(rate := Min(c.rate * GROWTH_SLOW, c.max))
    else
      c
  }

  function CutRate(rate: real, maxDelivered: real): real {
    Clamp(maxDelivered, MIN_RATE, Max(rate * CUT_MIN_FACTOR, MIN_RATE))
  }

  predicate AppLimited(c: Ctl, m: Sample) {
    m.sent < APP_LIMITED_FRAC * c.rate
  }

  /** Loss and floor are updated by every measurement ... */
  function Track(c: Ctl, m: Sample): Ctl {
    var loss := Smooth(c.ewma, m.raw);
    c.(ewma := Some(loss), floor := Some(NextFloor(c.floor, loss, c.rate, c.cooldown)))
  }

  /** ... a delivery sample is taken unless the sender was app-limited, and a
      decision follows unless a cut is still cooling down. */
  function Apply(c: Ctl, m: Sample): Ctl {
    var t := Track(c, m);
    if AppLimited(c, m) then t
    else
      var d := t.(history := t.history + [Delivery(m.tMs, m.delivered)]);
      if d.cooldown > 0 then d.(cooldown := d.cooldown - 1)
      else Decide(d, m, d.ewma.value, d.floor.value.loss, MaxDelivered(d.history, m.tMs))
  }

  /** The counters the next interval starts from. */
  function NextLast(c: Ctl, r: Report): Option<Snap>
    requires c.seg > 0
  {
    if Closes(c, r) then Some(SnapOf(c, r)) else c.last
  }

  /** One report. */
  function OnReport(c: Ctl, r: Report): Ctl
    requires c.seg > 0
  {
    var c' := c.(last := NextLast(c, r));
    var m := Measure(c, r);
    if m.None? then c' else Apply(c', m.value)
  }

  // ----- reports in their own terms ---------------------------------------------

  /** `span` is what a report says was sent: the receiver's count, or without one the
      whole datagrams in the bytes sent. */
  ghost predicate Counts(c: Ctl, r: Report, span: nat) {
    if r.span.Some? then span == r.span.value else span * c.seg <= r.bytesSent < (span + 1) * c.seg
  }

  lemma WholeDatagrams(bytes: nat, seg: nat, span: nat)
    requires seg > 0 && span * seg <= bytes < (span + 1) * seg
    ensures bytes / seg == span
  {
    var q := bytes / seg;
    assert bytes == q * seg + bytes % seg;
    assert (span + 1) * seg == span * seg + seg;
    assert (q - span) * seg == q * seg - span * seg;
    NoMultiple(q - span, seg);
  }

  lemma NoMultiple(x: int, seg: nat)
    requires -(seg as int) < x * seg < seg
    ensures x == 0
  {
  }

  lemma SpanCounts(c: Ctl, r: Report, span: nat)
    requires c.seg > 0 && Counts(c, r, span)
    ensures SpanOf(c, r) == span
  {
    if r.span.None? {
      WholeDatagrams(r.bytesSent, c.seg, span);
    }
  }

  /** The sample tells of an interval of `ms` milliseconds in which `dspan` datagrams and
      `dbytes` bytes were sent and `dpkts` datagrams of `seg` bytes arrived. */
  ghost predicate Describes(m: Sample, dpkts: nat, dspan: nat, dbytes: nat, seg: nat, ms: nat) {
    && m.raw * dspan as real == Monus(dspan, dpkts) as real
    && m.delivered * ms as real == 1000.0 * (dpkts as real * seg as real)
    && m.sent * ms as real == 1000.0 * dbytes as real
  }

  lemma SampleInMs(dpkts: nat, dspan: nat, dbytes: nat, seg: nat, ms: nat, tMs: nat)
    requires dpkts > 0 && dspan > 0 && seg > 0 && ms > 0
    ensures Describes(SampleOf(dpkts, dspan, dbytes, seg, ms as real / 1000.0, tMs), dpkts, dspan, dbytes, seg, ms)
  {
    var m := SampleOf(dpkts, dspan, dbytes, seg, ms as real / 1000.0, tMs);
    SampleMeans(dpkts, dspan, dbytes, seg, ms as real / 1000.0, tMs);
    PerSecond(m.delivered, ms as real);
    PerSecond(m.sent, ms as real);
  }

  lemma PerSecond(x: real, ms: real)
    ensures x * ms == 1000.0 * (x * (ms / 1000.0))
  {
  }

  lemma MeasuredWhen(c: Ctl, r: Report, span: nat)
    requires c.seg > 0 && span == SpanOf(c, r)
    ensures Measure(c, r).Some?
            <==> && c.last.Some? && r.tMs >= c.last.value.tMs + 50
                 && r.pkts > c.last.value.pkts && span > c.last.value.span
    ensures Measure(c, r).Some? ==>
              var last := c.last.value;
              Measure(c, r).value
              == SampleOf(r.pkts - last.pkts, span - last.span, Monus(r.bytesSent, last.bytes), c.seg,
                          (r.tMs - last.tMs) as real / 1000.0, r.tMs)
  {
  }

  /** A report is measured exactly when 50 ms or more have passed since the last one
      that counted and both counters have grown. Its loss is then the share of what was
      sent in between that has not arrived, and its rates are the bytes that arrived
      and that were sent in between, per second. */
  lemma MeasurementMeans(c: Ctl, r: Report, span: nat)
    requires c.seg > 0 && Counts(c, r, span)
    ensures Measure(c, r).Some?
            <==> && c.last.Some? && r.tMs >= c.last.value.tMs + 50
                 && r.pkts > c.last.value.pkts && span > c.last.value.span
    ensures Measure(c, r).Some? ==>
              var m, last := Measure(c, r).value, c.last.value;
              && m.tMs == r.tMs
              && Describes(m, r.pkts - last.pkts, span - last.span, Monus(r.bytesSent, last.bytes), c.seg,
                           r.tMs - last.tMs)
  {
    SpanCounts(c, r, span);
    MeasuredWhen(c, r, span);
    if Measure(c, r).Some? {
      var last := c.last.value;
      SampleInMs(r.pkts - last.pkts, span - last.span, Monus(r.bytesSent, last.bytes), c.seg, r.tMs - last.tMs, r.tMs);
    }
  }

  /** A report less than 50 ms after the last one that counted changes nothing, so the
      next interval still starts there; any other starts the next interval, whether or
      not it is measured. */
  lemma ShortReportsMerge(c: Ctl, r: Report, span: nat)
    requires c.seg > 0 && Counts(c, r, span)
    ensures c.last.Some? && r.tMs < c.last.value.tMs + 50 ==> OnReport(c, r) == c
    ensures c.last.None? || r.tMs >= c.last.value.tMs + 50 ==>
              OnReport(c, r).last == Some(Snap(r.pkts, span, r.bytesSent, r.tMs))
  {
    SpanCounts(c, r, span);
  }

  // ----- samples inside the window ----------------------------------------------

  /** Times strictly increase. */
  ghost predicate Chronological(h: seq<Delivery>) {
    forall i, j | 0 <= i < j < |h| :: h[i].tMs < h[j].tMs
  }

  /** The samples of `h` that are still inside the window at time `now`. */
  function InWindow(h: seq<Delivery>, now: nat): seq<Delivery> {
    if h == [] then []
    else
      var rest := InWindow(h[..|h| - 1], now);
      if h[|h| - 1].tMs + DELIVERED_WINDOW_MS < now then rest else rest + [h[|h| - 1]]
  }

  /** Largest rate of a list of samples, at least 0. */
  function Largest(h: seq<Delivery>): real {
    if h == [] then 0.0 else Max(Largest(h[..|h| - 1]), h[|h| - 1].rate)
  }

  lemma {:induction false} MaxIsLargestInWindow(h: seq<Delivery>, now: nat)
    ensures Largest(InWindow(h, now)) == MaxDelivered(h, now)
  {
    if h != [] {
      MaxIsLargestInWindow(h[..|h| - 1], now);
      var rest := InWindow(h[..|h| - 1], now);
      assert (rest + [h[|h| - 1]])[..|rest|] == rest;
    }
  }

  /** The windowed maximum over the whole history: no sample of the last 2500 ms
      exceeds it, and unless it is zero one of them attains it. */
  lemma {:induction false} MaxDeliveredIsMaximum(h: seq<Delivery>, now: nat)
    ensures forall i | 0 <= i < |h| && h[i].tMs + DELIVERED_WINDOW_MS >= now :: h[i].rate <= MaxDelivered(h, now)
    ensures MaxDelivered(h, now) >= 0.0
    ensures MaxDelivered(h, now) > 0.0 ==>
              exists i :: 0 <= i < |h| && h[i].tMs + DELIVERED_WINDOW_MS >= now && h[i].rate == MaxDelivered(h, now)
  {
    if h != [] {
      var front := h[..|h| - 1];
      MaxDeliveredIsMaximum(front, now);
      assert forall i | 0 <= i < |front| :: front[i] == h[i];
      if MaxDelivered(h, now) == MaxDelivered(front, now) && MaxDelivered(h, now) > 0.0 {
        var i :| && 0 <= i < |front| && front[i].tMs + DELIVERED_WINDOW_MS >= now
                 && front[i].rate == MaxDelivered(front, now);
        assert h[i].rate == MaxDelivered(h, now);
      }
    }
  }

  lemma SuffixSnoc(h: seq<Delivery>, k: nat)
    requires k < |h|
    ensures h[k..] == h[..|h| - 1][k..] + [h[|h| - 1]]
  {
  }

  /** In a chronological history the samples inside the window are a suffix. */
  lemma {:induction false} WindowIsSuffix(h: seq<Delivery>, now: nat, k: nat)
    requires Chronological(h) && k <= |h|
    requires forall i | 0 <= i < k :: h[i].tMs + DELIVERED_WINDOW_MS < now
    requires k < |h| ==> h[k].tMs + DELIVERED_WINDOW_MS >= now
    ensures InWindow(h, now) == h[k..]
  {
    if k < |h| {
      WindowIsSuffix(h[..|h| - 1], now, k);
      SuffixSnoc(h, k);
    } else if h != [] {
      WindowIsSuffix(h[..|h| - 1], now, k - 1);
    }
  }

  /** Where that suffix starts. */
  lemma {:induction false} WindowStart(h: seq<Delivery>, now: nat) returns (k: nat)
    requires Chronological(h)
    ensures k <= |h| && InWindow(h, now) == h[k..]
    ensures forall i | 0 <= i < k :: h[i].tMs + DELIVERED_WINDOW_MS < now
    ensures k < |h| ==> h[k].tMs + DELIVERED_WINDOW_MS >= now
  {
    k := 0;
    while k < |h| && h[k].tMs + DELIVERED_WINDOW_MS < now
      invariant k <= |h|
      invariant forall i | 0 <= i < k :: h[i].tMs + DELIVERED_WINDOW_MS < now
    {
      k := k + 1;
    }
    WindowIsSuffix(h, now, k);
  }

  /** Expired samples at the front do not matter. */
  lemma DropExpired(h: seq<Delivery>, now: nat, k: nat)
    requires Chronological(h) && k <= |h|
    requires forall i | 0 <= i < k :: h[i].tMs + DELIVERED_WINDOW_MS < now
    ensures InWindow(h[k..], now) == InWindow(h, now)
  {
    var j := WindowStart(h[k..], now);
    WindowIsSuffix(h, now, k + j);
    assert h[k..][j..] == h[k + j..];
  }

  /** Every sample was taken before `t`. */
  ghost predicate Before(h: seq<Delivery>, t: nat) {
    forall i | 0 <= i < |h| :: h[i].tMs < t
  }

  lemma ChronologicalSnoc(h: seq<Delivery>, d: Delivery)
    requires Chronological(h) && Before(h, d.tMs)
    ensures Chronological(h + [d])
  {
  }

  lemma ChronologicalDrop(h: seq<Delivery>, k: nat)
    requires Chronological(h) && k <= |h|
    ensures Chronological(h[k..])
  {
  }

  /** The first `k` samples have expired at `t`. */
  ghost predicate Expired(h: seq<Delivery>, k: nat, t: nat) {
    k <= |h| && forall i | 0 <= i < k :: h[i].tMs + DELIVERED_WINDOW_MS < t
  }

  lemma StillExpired(h: seq<Delivery>, k: nat, t: nat, d: Delivery)
    requires Expired(h, k, t) && t <= d.tMs
    ensures Expired(h + [d], k, d.tMs) && h[k..] + [d] == (h + [d])[k..]
  {
  }

  lemma DropExpiredFront(h: seq<Delivery>, k: nat, t: nat)
    requires Chronological(h) && Expired(h, k, t)
    ensures Chronological(h[k..]) && InWindow(h[k..], t) == InWindow(h, t)
  {
    ChronologicalDrop(h, k);
    DropExpired(h, t, k);
  }

  /** `q` holds the samples of `h` inside the window that ended at the last one. */
  ghost predicate Trimmed(h: seq<Delivery>, q: seq<Delivery>) {
    q == if h == [] then [] else InWindow(h, h[|h| - 1].tMs)
  }

  /** Pushing a newer sample on the deque and on the history gives the same window. */
  lemma PushKeepsWindow(h: seq<Delivery>, q: seq<Delivery>, d: Delivery)
    requires Chronological(h) && Before(h, d.tMs)
    requires Trimmed(h, q)
    ensures Chronological(h + [d]) && Chronological(q + [d])
    ensures InWindow(q + [d], d.tMs) == InWindow(h + [d], d.tMs)
  {
    ChronologicalSnoc(h, d);
    if h != [] {
      var t := h[|h| - 1].tMs;
      var k := WindowStart(h, t);
      StillExpired(h, k, t, d);
      DropExpiredFront(h + [d], k, d.tMs);
    }
  }

  lemma StillBefore(h: seq<Delivery>, h': seq<Delivery>, d: Delivery)
    requires Before(h, d.tMs) && (h' == h || h' == h + [d])
    ensures Before(h', d.tMs + 1)
  {
  }

  /** The pop-front loop: drops expired samples while they stand first. */
  method TrimFront(samples: seq<Delivery>, now: nat) returns (q: seq<Delivery>)
    requires Chronological(samples)
    ensures q == InWindow(samples, now)
  {
    q := samples;
    ghost var k := 0;
    while |q| > 0 && q[0].tMs + DELIVERED_WINDOW_MS < now
      invariant 0 <= k <= |samples| && q == samples[k..]
      invariant forall i | 0 <= i < k :: samples[i].tMs + DELIVERED_WINDOW_MS < now
    {
      q := q[1..];
      k := k + 1;
    }
    WindowIsSuffix(samples, now, k);
  }

  method MaxRate(q: seq<Delivery>) returns (m: real)
    ensures m == Largest(q)
  {
    m := 0.0;
    for i := 0 to |q|
      invariant m == Largest(q[..i])
    {
      m := Max(m, q[i].rate);
      assert q[..i + 1][..i] == q[..i];
    }
    assert q[..|q|] == q;
  }

  // ----- the controller as an object ----------------------------------------------

  class RateController {
    var rate: real
    const max: real
    const seg: nat
    var startup: bool
    var best: real
    var stagnant: nat
    var cooldown: nat
    var ewma: Option<real>
    var floor: Option<Floor>
    /** The deque: samples of the window that ended at the last push. */
    var delivered: seq<Delivery>
    var last: Option<Snap>
    /** Every sample ever pushed. */
    ghost var history: seq<Delivery>

    ghost predicate Valid()
      reads this
    {
      && seg > 0
      && Chronological(history)
      && (history != [] ==> last.Some? && Before(history, last.value.tMs + 1))
      && Trimmed(history, delivered)
    }

    ghost function State(): Ctl
      reads this
    {
      Ctl(rate, max, seg, startup, best, stagnant, cooldown, ewma, floor, history, last)
    }

    constructor (segBytes: nat, maxRateMbps: real)
      requires segBytes > 0
      ensures Valid()
      ensures State() == New(segBytes, maxRateMbps)
    {
      var cap := Max(maxRateMbps * 1000000.0 / 8.0, MIN_RATE);
      rate, max, seg := Min(START_RATE, cap), cap, segBytes;
      startup, best, stagnant, cooldown := true, 0.0, 0, 0;
      ewma, floor, delivered, last, history := None, None, [], None, [];
    }

    /** Feeds one report; returns the new pacing rate when it changed. */
    method OnReportStep(r: Report) returns (changed: Option<real>)
      requires Valid()
      modifies this
      ensures Valid()
      ensures State() == OnReport(old(State()), r)
      ensures changed == if rate == old(rate) then None else Some(rate)
    {
      var m := CloseInterval(r);
      if m.None? {
        return None;
      }
      ghost var before := history;
      changed := ApplyStep(m.value);
      StillBefore(before, history, Delivery(m.value.tMs, m.value.delivered));
    }

    /** Closes the interval since the last report and measures it. */
    method CloseInterval(r: Report) returns (m: Option<Sample>)
      requires seg > 0
      modifies this`last
      ensures m == Measure(old(State()), r)
      ensures last == NextLast(old(State()), r)
    {
      var span := if r.span.Some? then r.span.value else r.bytesSent / seg;
      if last.None? {
        last := Some(Snap(r.pkts, span, r.bytesSent, r.tMs));
        return None;
      }
      var prev := last.value;
      var dt := Monus(r.tMs, prev.tMs) as real / 1000.0;
      if dt < MIN_SAMPLE_DT {
        return None;
      }
      var dpkts := Monus(r.pkts, prev.pkts);
      var dspan := Monus(span, prev.span);
      var dbytes := Monus(r.bytesSent, prev.bytes);
      last := Some(Snap(r.pkts, span, r.bytesSent, r.tMs));
      if dspan == 0 || dpkts == 0 {
        return None;
      }
      m := Some(SampleOf(dpkts, dspan, dbytes, seg, dt, r.tMs));
    }

    /** Feeds one measurement to the loss signal, the window and the decision. */
    method ApplyStep(m: Sample) returns (changed: Option<real>)
      requires seg > 0 && Chronological(history)
      requires Before(history, m.tMs)
      requires Trimmed(history, delivered)
      modifies this`rate, this`startup, this`best, this`stagnant, this`cooldown, this`ewma, this`floor,
               this`delivered, this`history
      ensures State() == Apply(old(State()), m)
      ensures Chronological(history) && Trimmed(history, delivered)
      ensures history == old(history) || history == old(history) + [Delivery(m.tMs, m.delivered)]
      ensures changed == if rate == old(rate) then None else Some(rate)
    {
      var loss, f := TrackLoss(m);
      if m.sent < APP_LIMITED_FRAC * rate {
        return None;
      }
      var maxDelivered := PushDelivered(m.tMs, m.delivered);
      if cooldown > 0 {
        cooldown := cooldown - 1;
        return None;
      }
      var before := rate;
      DecideStep(m, loss, f, maxDelivered);
      changed := if rate != before then Some(rate) else None;
    }

    /** Updates the smoothed loss and the floor. */
    method TrackLoss(m: Sample) returns (loss: real, f: real)
      modifies this`ewma, this`floor
      ensures State() == Track(old(State()), m)
      ensures ewma == Some(loss) && floor.Some? && f == floor.value.loss
    {
      loss := m.raw;
      if ewma.Some? {
        loss := (1.0 - LOSS_EWMA_ALPHA) * ewma.value + LOSS_EWMA_ALPHA * m.raw;
      }
      ewma := Some(loss);
      f := UpdateFloor(loss);
    }

    method UpdateFloor(loss: real) returns (f: real)
      modifies this`floor
      ensures floor == Some(NextFloor(old(floor), loss, rate, cooldown))
      ensures f == floor.value.loss
    {
      if floor.None? {
        floor := Some(Floor(loss, rate));
        return loss;
      }
      var Floor(fl, fr) := floor.value;
      if loss >= fl && cooldown > 0 {
        return fl;
      }
      if loss >= fl {
        var relax := if rate <= fr * FLOOR_RATE_TOL then FLOOR_RELAX else FLOOR_RELAX_SLOW;
        var nf := fl + relax * (Min(loss, fl + CUT_EXCESS) - fl);
        floor := Some(Floor(nf, fr));
        return nf;
      }
      f := fl + FLOOR_FALL * (loss - fl);
      floor := Some(Floor(f, rate));
    }

    /** Pushes one sample, drops the expired ones from the front, and returns
        the maximum of the rest. */
    method PushDelivered(tMs: nat, got: real) returns (maxDelivered: real)
      requires Chronological(history) && Before(history, tMs)
      requires Trimmed(history, delivered)
      modifies this`delivered, this`history
      ensures history == old(history) + [Delivery(tMs, got)] && Chronological(history)
      ensures Trimmed(history, delivered)
      ensures maxDelivered == MaxDelivered(history, tMs)
    {
      PushKeepsWindow(history, delivered, Delivery(tMs, got));
      delivered := delivered + [Delivery(tMs, got)];
      history := history + [Delivery(tMs, got)];
      delivered := TrimFront(delivered, tMs);
      maxDelivered := MaxRate(delivered);
      MaxIsLargestInWindow(history, tMs);
    }

    /** The three bands: cut, grow, probe. */
    method DecideStep(m: Sample, loss: real, f: real, maxDelivered: real)
      modifies this`rate, this`startup, this`best, this`stagnant, this`cooldown
      ensures State() == Decide(old(State()), m, loss, f, maxDelivered)
    {
      var excess := loss - f;
      var saturated := m.sent >= GROW_EVIDENCE_FRAC * rate;
      var startupAbort := startup && m.raw - f >= STARTUP_ABORT_EXCESS;
      if excess >= CUT_EXCESS || startupAbort {
        startup := false;
        var ceiling := Max(rate * CUT_MIN_FACTOR, MIN_RATE);
        rate := Clamp(maxDelivered, MIN_RATE, ceiling);
        cooldown := CUT_COOLDOWN;
      } else if excess <= CLEAN_EXCESS && saturated {
        var anchor := maxDelivered / (1.0 - Min(f, 0.5));
        if !startup && rate >= anchor {
          rate := Min(rate * GROWTH_SLOW, max);
        } else if startup {
          if m.delivered > best * STARTUP_GROWTH_MIN {
            best := m.delivered;
            stagnant := 0;
            rate := Min(rate * GROWTH_STARTUP, max);
          } else {
            stagnant := stagnant + 1;
            if stagnant >= STARTUP_STAGNANT_EXIT {
              startup := false;
              rate := Clamp(maxDelivered, MIN_RATE, Max(rate, MIN_RATE));
            }
          }
        } else {
          rate := Min(rate * GROWTH_STEADY, max);
        }
      } else if !startup && excess < CUT_EXCESS && saturated {
        rate := Min(rate * GROWTH_SLOW, max);
      }
    }
  }
}
