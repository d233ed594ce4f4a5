/**
 * Controller and pacer over whole runs of feedback: what the adaptive ceiling
 * does to the rate on the wire, and when it does nothing.
 */
module PacedRuns {
  import opened Prelude
  import opened Rate
  import opened RateRuns
  import opened Pacing
  import opened FeedbackLoop
  import Repair

  // ----- the pacer follows the controller --------------------------------------------

  /** The adaptive sender at the start: the pacer at 100 Mbit/s, a fresh controller. */
  function Adaptive(seg: nat, capMbps: real, numBlocks: nat): Fb {
    Fb(seq(numBlocks, _ => false), 0, Repair.Unprimed, Some(New(seg, capMbps)), START_RATE)
  }

  /** One drain of the run: what it finds and the sender's counters at that time. */
  datatype Poll = Poll(queue: seq<Feedback>, packetsSent: nat, bytesSent: nat)

  /** The state after a whole run of drains. */
  ghost function AfterPolls(s: Fb, polls: seq<Poll>): (s': Fb)
    requires Ready(s)
    ensures Ready(s')
  {
    if polls == [] then s
    else
      var p := polls[|polls| - 1];
      Drain(AfterPolls(s, polls[..|polls| - 1]), p.queue, p.packetsSent, p.bytesSent).0
  }

  /** The reports among the messages of a queue that are handled. */
  ghost function QueueReports(queue: seq<Feedback>, bytesSent: nat): seq<Rate.Report> {
    if queue == [] || queue[0].Done? || queue[0].Closed? then []
    else
      var rest := QueueReports(queue[1..], bytesSent);
      if queue[0].Progress? && queue[0].pkts > 0 then
        [Rate.Report(queue[0].pkts, queue[0].span, bytesSent, queue[0].tMs)] + rest
      else rest
  }

  /** The reports of a whole run of drains. */
  ghost function PollReports(polls: seq<Poll>): seq<Rate.Report> {
    if polls == [] then []
    else
      var p := polls[|polls| - 1];
      PollReports(polls[..|polls| - 1]) + QueueReports(p.queue, p.bytesSent)
  }

  /** The pacer's rate after a run of reports: set whenever the controller's changes. */
  ghost function Paced(c: Ctl, start: real, rs: seq<Rate.Report>): real
    requires c.seg > 0
  {
    if rs == [] then start
    else
      var front := rs[..|rs| - 1];
      if RunReports(c, rs).rate != RunReports(c, front).rate then RunReports(c, rs).rate else Paced(c, start, front)
  }

  lemma {:induction false} ReportsInTurn(c: Ctl, start: real, first: seq<Rate.Report>, rs: seq<Rate.Report>)
    requires c.seg > 0
    ensures RunReports(c, first + rs) == RunReports(RunReports(c, first), rs)
    ensures Paced(c, start, first + rs) == Paced(RunReports(c, first), Paced(c, start, first), rs)
  {
    if rs == [] {
      assert first + rs == first;
    } else {
      assert (first + rs)[..|first + rs| - 1] == first + rs[..|rs| - 1];
      ReportsInTurn(c, start, first, rs[..|rs| - 1]);
    }
  }

  lemma FirstReport(c: Ctl, start: real, r: Rate.Report)
    requires c.seg > 0
    ensures RunReports(c, [r]) == OnReport(c, r)
    ensures Paced(c, start, [r]) == if OnReport(c, r).rate != c.rate then OnReport(c, r).rate else start
  {
    assert [r][..0] == [];
    assert RunReports(c, []) == c && Paced(c, start, []) == start;
  }

  /** Controller and pacer see nothing of a drain but its reports. */
  lemma {:induction false} DrainIsReports(s: Fb, queue: seq<Feedback>, packetsSent: nat, bytesSent: nat)
    requires Ready(s) && s.ctrl.Some?
    ensures var s', rs := Drain(s, queue, packetsSent, bytesSent).0, QueueReports(queue, bytesSent);
            s'.ctrl == Some(RunReports(s.ctrl.value, rs)) && s'.pacerRate == Paced(s.ctrl.value, s.pacerRate, rs)
    decreases |queue|
  {
    if queue != [] && !queue[0].Done? && !queue[0].Closed? {
      var t, f := Handle(s, queue[0], packetsSent, bytesSent), queue[0];
      DrainIsReports(t, queue[1..], packetsSent, bytesSent);
      if f.Progress? && f.pkts > 0 {
        var r := Rate.Report(f.pkts, f.span, bytesSent, f.tMs);
        FirstReport(s.ctrl.value, s.pacerRate, r);
        ReportsInTurn(s.ctrl.value, s.pacerRate, [r], QueueReports(queue[1..], bytesSent));
      }
    }
  }

  /** Over a whole run of drains controller and pacer are where the reports of the
      run bring them, so every theorem on runs of reports is one on runs of drains. */
  lemma {:induction false} PollsAreReports(s: Fb, polls: seq<Poll>)
    requires Ready(s) && s.ctrl.Some?
    ensures AfterPolls(s, polls).ctrl == Some(RunReports(s.ctrl.value, PollReports(polls)))
    ensures AfterPolls(s, polls).pacerRate == Paced(s.ctrl.value, s.pacerRate, PollReports(polls))
  {
    if polls != [] {
      var front, p := polls[..|polls| - 1], polls[|polls| - 1];
      PollsAreReports(s, front);
      DrainIsReports(AfterPolls(s, front), p.queue, p.packetsSent, p.bytesSent);
      ReportsInTurn(s.ctrl.value, s.pacerRate, PollReports(front), QueueReports(p.queue, p.bytesSent));
    }
  }

  ghost function PollLosses(polls: seq<Poll>): seq<(nat, nat)> {
    if polls == [] then []
    else
      var p := polls[|polls| - 1];
      PollLosses(polls[..|polls| - 1]) + LossReports(p.queue, p.packetsSent)
  }

  /** Over a whole run of drains the loss estimate is where the run's reports lead it,
      so what holds of runs of reports holds of runs of drains; and a sender at a fixed
      rate keeps that rate. */
  lemma {:induction false} PollsFeedEstimate(s: Fb, polls: seq<Poll>)
    requires Ready(s) && s.loss == Repair.Unprimed
    ensures AfterPolls(s, polls).loss == Repair.AfterReports(PollLosses(polls))
    ensures s.ctrl.None? ==> AfterPolls(s, polls).ctrl.None? && AfterPolls(s, polls).pacerRate == s.pacerRate
  {
    if polls != [] {
      var front, p := polls[..|polls| - 1], polls[|polls| - 1];
      PollsFeedEstimate(s, front);
      DrainFeedsEstimate(AfterPolls(s, front), PollLosses(front), p.queue, p.packetsSent, p.bytesSent);
    }
  }

  lemma {:induction false} PacedFromRate(c: Ctl, rs: seq<Rate.Report>)
    requires c.seg > 0
    ensures Paced(c, c.rate, rs) == RunReports(c, rs).rate
  {
    if rs != [] {
      PacedFromRate(c, rs[..|rs| - 1]);
    }
  }

  /** The pacer goes at the controller's rate at every point of every run if and
      only if the cap is at least 100 Mbit/s. */
  lemma {:induction false} PacerFollowsController(seg: nat, capMbps: real, numBlocks: nat)
    requires seg > 0
    ensures (forall polls: seq<Poll> :: var s := AfterPolls(Adaptive(seg, capMbps, numBlocks), polls);
                                        s.ctrl.Some? && s.pacerRate == s.ctrl.value.rate)
            <==> capMbps >= 100.0
  {
    var s := Adaptive(seg, capMbps, numBlocks);
    assert AfterPolls(s, []) == s;
    if capMbps >= 100.0 {
      forall polls: seq<Poll>
        ensures var s' := AfterPolls(s, polls); s'.ctrl.Some? && s'.pacerRate == s'.ctrl.value.rate
      {
        PollsAreReports(s, polls);
        PacedFromRate(s.ctrl.value, PollReports(polls));
      }
    }
  }

  /** The rate in force on the wire stays between the minimum and the cap, over
      every run of feedback, whenever the cap is at least 100 Mbit/s. */
  lemma {:induction false} PacerStaysWithinCap(seg: nat, capMbps: real, numBlocks: nat, polls: seq<Poll>)
    requires seg > 0 && capMbps >= 100.0
    ensures MIN_RATE <= AfterPolls(Adaptive(seg, capMbps, numBlocks), polls).pacerRate <= capMbps * 1000000.0 / 8.0
  {
    PollsAreReports(Adaptive(seg, capMbps, numBlocks), polls);
    PacedFromRate(New(seg, capMbps), PollReports(polls));
    RateStaysInRange(seg, capMbps, PollReports(polls));
  }

  /** The ceiling caps pacing, at every point of every run, if and only if it is at
      least 100 Mbit/s: below that the pacer starts above it. */
  lemma {:induction false} CapIsKeptExactly(seg: nat, capMbps: real, numBlocks: nat)
    requires seg > 0
    ensures (forall polls: seq<Poll> ::
               AfterPolls(Adaptive(seg, capMbps, numBlocks), polls).pacerRate
               <= Max(capMbps * 1000000.0 / 8.0, MIN_RATE))
            <==> capMbps >= 100.0
  {
    var s := Adaptive(seg, capMbps, numBlocks);
    assert AfterPolls(s, []) == s;
    if capMbps >= 100.0 {
      forall polls: seq<Poll>
        ensures AfterPolls(s, polls).pacerRate <= Max(capMbps * 1000000.0 / 8.0, MIN_RATE)
      {
        PacerStaysWithinCap(seg, capMbps, numBlocks, polls);
      }
    }
  }

  /** The cap holds on the wire: when every pace call runs at the rate the pacer
      had after some point of the feedback, the bytes flushed in any window are at
      most cap times the window plus the burst, plus one super-buffer. */
  lemma {:induction false} CapHoldsOnTheWire(seg: nat, capMbps: real, numBlocks: nat, polls: seq<Poll>, at: seq<nat>,
                          calls: seq<Call>, sentAt: seq<real>, i: nat, cap: real, window: real, batch: nat)
    requires seg > 0 && capMbps >= 100.0 && cap == capMbps * 1000000.0 / 8.0
    requires |at| == |calls| == |sentAt| && i < |calls| && Sequential(calls)
    requires forall k | 0 <= k < |calls| ::
               && at[k] <= |polls|
               && calls[k].rate == AfterPolls(Adaptive(seg, capMbps, numBlocks), polls[..at[k]]).pacerRate
    requires forall k | 0 <= k < |calls| :: sentAt[k] <= calls[k].start && calls[k].len <= batch
    requires forall k | 0 < k < |calls| :: calls[k - 1].end <= sentAt[k]
    requires sentAt[|calls| - 1] - sentAt[i] + MAX_BURST <= window
    ensures Pacing.Bytes(calls, i) as real <= cap * window + batch as real
  {
    forall k | 0 <= k < |calls|
      ensures 0.0 < calls[k].rate <= cap
    {
      PacerStaysWithinCap(seg, capMbps, numBlocks, polls[..at[k]]);
    }
    FlushedWithinCap(calls, sentAt, i, cap, window, batch);
  }

  // ----- a low cap is not enforced ---------------------------------------------------

  lemma {:induction false} MeasuredPrefix(c: Ctl, rs: seq<Rate.Report>)
    requires c.seg > 0 && rs != []
    ensures Measured(c, rs[..|rs| - 1]) <= Measured(c, rs)
  {
  }

  /** Reports that never move the rate never reach the pacer. */
  lemma {:induction false} PacerUntouched(c: Ctl, start: real, rs: seq<Rate.Report>, lo: real, hi: real)
    requires c.seg > 0 && Sane(c) && Banded(c, lo, hi) && hi <= lo + CUT_EXCESS && c.rate == c.max
    requires forall i | 0 <= i < |Measured(c, rs)| ::
               lo <= Measured(c, rs)[i].raw <= hi && Measured(c, rs)[i].delivered >= c.max
    ensures RunReports(c, rs).rate == c.max && Paced(c, start, rs) == start
  {
    if rs != [] {
      MeasuredPrefix(c, rs);
      PacerUntouched(c, start, rs[..|rs| - 1], lo, hi);
    }
    ReportsAreMeasurements(c, rs);
    StaysAtCap(c, Measured(c, rs), lo, hi);
  }

  /** A cap below 100 Mbit/s is not enforced later either: as long as the raw losses
      stay within a 5% band, at any level, and the path delivers at least the cap,
      the controller sits at the cap and never reports a change, so the pacer keeps
      its 100 Mbit/s for the whole transfer, however long. */
  lemma {:induction false} LowCapIsExceededThroughout(seg: nat, capMbps: real, numBlocks: nat, polls: seq<Poll>,
                                                     lo: real, hi: real)
    requires seg > 0 && capMbps < 100.0 && lo <= hi <= lo + CUT_EXCESS
    requires forall m | m in Measured(New(seg, capMbps), PollReports(polls)) ::
               lo <= m.raw <= hi && m.delivered >= New(seg, capMbps).max
    ensures var s := AfterPolls(Adaptive(seg, capMbps, numBlocks), polls);
            && s.ctrl.Some? && s.ctrl.value.rate == Max(capMbps * 1000000.0 / 8.0, MIN_RATE)
            && s.pacerRate == START_RATE > s.ctrl.value.rate
  {
    var c := New(seg, capMbps);
    NewIsSane(seg, capMbps);
    PollsAreReports(Adaptive(seg, capMbps, numBlocks), polls);
    PacerUntouched(c, START_RATE, PollReports(polls), lo, hi);
  }

  function Sum(x: nat, n: nat): nat {
    if n == 0 then 0 else Sum(x, n - 1) + x
  }

  /** The n-th report of a clean transfer: every `step` milliseconds another `burst`
      packets of together `load` bytes, all received. */
  function SteadyPoll(burst: nat, load: nat, step: nat, n: nat): Poll {
    Poll([Progress(Sum(burst, n), Some(Sum(burst, n)), Sum(step, n))], Sum(burst, n), Sum(load, n))
  }

  function Steady(burst: nat, load: nat, step: nat, n: nat): (polls: seq<Poll>)
    ensures |polls| == n
  {
    if n == 0 then [] else Steady(burst, load, step, n - 1) + [SteadyPoll(burst, load, step, n)]
  }

  lemma OneReport(pkts: nat, tMs: nat, bytes: nat)
    requires pkts > 0
    ensures QueueReports([Progress(pkts, Some(pkts), tMs)], bytes) == [Rate.Report(pkts, Some(pkts), bytes, tMs)]
  {
    assert [Progress(pkts, Some(pkts), tMs)][1..] == [];
  }

  lemma SteadyReport(burst: nat, load: nat, step: nat, n: nat)
    requires n > 0 && burst > 0
    ensures PollReports(Steady(burst, load, step, n))
            == PollReports(Steady(burst, load, step, n - 1))
               + [Rate.Report(Sum(burst, n), Some(Sum(burst, n)), Sum(load, n), Sum(step, n))]
  {
    assert Steady(burst, load, step, n)[..n - 1] == Steady(burst, load, step, n - 1);
    OneReport(Sum(burst, n), Sum(step, n), Sum(load, n));
  }

  /** Nothing lost, and bytes sent and delivered at exactly 100 Mbit/s. */
  ghost predicate AtStartRate(m: Sample) {
    m.raw == 0.0 && m.delivered == m.sent == START_RATE
  }

  lemma SelfQuotient(b: real)
    requires b > 0.0
    ensures b / b == 1.0
  {
  }

  lemma StartQuotient(t: real)
    requires t > 0.0
    ensures (12500.0 * t) / (t / 1000.0) == START_RATE
  {
    var u := t / 1000.0;
    assert 12500.0 * t == 12500000.0 * u;
    SelfQuotient(u);
  }

  lemma {:induction false} RealProduct(a: nat, b: nat)
    ensures a as real * b as real == (a * b) as real
  {
    if a > 0 {
      RealProduct(a - 1, b);
      assert a * b == (a - 1) * b + b;
      assert a as real * b as real == (a - 1) as real * b as real + b as real;
    }
  }

  /** `12500 * k` packets of `seg` bytes in `seg * k` milliseconds go out at 100 Mbit/s. */
  lemma StartRateSample(k: nat, seg: nat, tMs: nat)
    requires seg > 0 && k > 0
    ensures seg * k > 0
    ensures AtStartRate(SampleOf(12500 * k, 12500 * k, 12500 * k * seg, seg, (seg * k) as real / 1000.0, tMs))
  {
    var burst, t := 12500 * k, (seg * k) as real;
    assert burst * seg == 12500 * (seg * k);
    RealProduct(burst, seg);
    StartQuotient(t);
    SelfQuotient(burst as real);
  }

  /** One such interval between two reports. */
  lemma SteadyInterval(c: Ctl, last: Snap, k: nat, r: Rate.Report)
    requires c.seg > 0 && k > 0 && c.seg * k >= 50 && c.last == Some(last) && last.span == last.pkts
    requires r.pkts == last.pkts + 12500 * k && r.span == Some(r.pkts)
    requires r.bytesSent == last.bytes + 12500 * k * c.seg && r.tMs == last.tMs + c.seg * k
    ensures Closes(c, r) && Measure(c, r).Some? && AtStartRate(Measure(c, r).value)
  {
    StartRateSample(k, c.seg, r.tMs);
    assert Elapsed(last, r) == (c.seg * k) as real / 1000.0;
    assert Measure(c, r)
        == Some(SampleOf(12500 * k, 12500 * k, 12500 * k * c.seg, c.seg, (c.seg * k) as real / 1000.0, r.tMs));
  }

  lemma ReportSnoc(c: Ctl, rs: seq<Rate.Report>, r: Rate.Report)
    requires c.seg > 0
    ensures var d := RunReports(c, rs);
            && RunReports(c, rs + [r]).last == NextLast(d, r)
            && Measured(c, rs + [r])
               == if Measure(d, r).None? then Measured(c, rs) else Measured(c, rs) + [Measure(d, r).value]
  {
    assert (rs + [r])[..|rs|] == rs;
  }

  lemma {:induction false} SteadyMeasures(c: Ctl, k: nat, burst: nat, load: nat, step: nat, n: nat)
    requires c.seg > 0 && c.last.None? && k > 0
    requires burst == 12500 * k && load == burst * c.seg && step == c.seg * k >= 50
    ensures var rs := PollReports(Steady(burst, load, step, n));
            && RunReports(c, rs).last
               == (if n == 0 then None else Some(Snap(Sum(burst, n), Sum(burst, n), Sum(load, n), Sum(step, n))))
            && |Measured(c, rs)| == Monus(n, 1)
            && forall m | m in Measured(c, rs) :: AtStartRate(m)
  {
    if n > 0 {
      SteadyMeasures(c, k, burst, load, step, n - 1);
      SteadyReport(burst, load, step, n);
      var front := PollReports(Steady(burst, load, step, n - 1));
      var d, r := RunReports(c, front), Rate.Report(Sum(burst, n), Some(Sum(burst, n)), Sum(load, n), Sum(step, n));
      ReportSnoc(c, front, r);
      if n > 1 {
        SteadyInterval(d, d.last.value, k, r);
      }
    }
  }

  /** Such transfers exist for every low cap and every length, at the pacer's own rate:
      whenever packets go out at 100 Mbit/s and all arrive, the cap is never enforced. */
  lemma {:induction false} LowCapWitness(seg: nat, capMbps: real, numBlocks: nat, k: nat, n: nat)
    returns (polls: seq<Poll>)
    requires seg > 0 && capMbps < 100.0 && seg * k >= 50
    ensures |Measured(New(seg, capMbps), PollReports(polls))| == n
    ensures forall m | m in Measured(New(seg, capMbps), PollReports(polls)) :: AtStartRate(m)
    ensures AfterPolls(Adaptive(seg, capMbps, numBlocks), polls).pacerRate == START_RATE
            > Max(capMbps * 1000000.0 / 8.0, MIN_RATE)
  {
    polls := Steady(12500 * k, 12500 * k * seg, seg * k, n + 1);
    SteadyMeasures(New(seg, capMbps), k, 12500 * k, 12500 * k * seg, seg * k, n + 1);
    LowCapIsExceededThroughout(seg, capMbps, numBlocks, polls, 0.0, 0.0);
  }
}
