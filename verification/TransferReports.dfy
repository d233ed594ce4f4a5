/**
 * What the receiver's reports say, over every run: each is true of the state it was
 * written in, and two of them bound what the sender can conclude about losses.
 */
module TransferReports {
  import opened Prelude
  import opened Replay
  import opened Transfer
  import opened TransferSafety
  import opened TransferProgress

  // ----- one report ---------------------------------------------------------------------

  /** The report tells what was received in this state: the packets opened and, sealed,
      one more than the highest number accepted, so that the difference is what is
      missing below it. */
  ghost predicate TrueOf(cfg: Config, f: Frame, rx: Receiver) {
    && f.Progress? && f.pkts == rx.pkts > 0
    && if cfg.sealed then
         && f.span.Some? && f.span.value > 0 && IsHighest(rx.accepted, f.span.value - 1)
         && f.pkts == |rx.accepted| && f.span.value - f.pkts == |Below(f.span.value) - rx.accepted|
       else f.span == None
  }

  /** A tick writes one report, true of the receiver as it stands, and changes nothing else. */
  lemma TickWritesTruth(cfg: Config, s: State, span: Option<nat>)
    requires WellFormed(cfg) && SizesOk(cfg, s) && Numbered(s) && Opened(cfg, s) && Enabled(cfg, s, Tick(span))
    ensures var s' := Do(cfg, s, Tick(span));
            && |s'.ctl| == |s.ctl| + 1 && s.ctl <= s'.ctl && TrueOf(cfg, s'.ctl[|s.ctl|], s.rx)
            && s'.tx == s.tx && s'.rx == s.rx && s'.log == s.log && s'.wire == s.wire
  {
    if cfg.sealed {
      TickIsExact(cfg, s, span.value);
    }
  }

  /** Only ticks write reports, and the control stream only grows. */
  lemma OnlyTicksReport(cfg: Config, s: State, step: Step)
    requires WellFormed(cfg) && SizesOk(cfg, s) && Enabled(cfg, s, step)
    ensures var s' := Do(cfg, s, step);
            && s.ctl <= s'.ctl && |s'.ctl| <= |s.ctl| + 1
            && (!step.Tick? ==> forall i | |s.ctl| <= i < |s'.ctl| :: !s'.ctl[i].Progress?)
  {
    if OfSender(step) {
      SizesSender(cfg, s, step);
    }
  }

  lemma {:induction false} ControlGrows(cfg: Config, steps: seq<Step>, k: nat)
    requires WellFormed(cfg) && Run(cfg, steps).Some? && k <= |steps|
    ensures Run(cfg, steps[..k]).Some? && Run(cfg, steps[..k]).value.ctl <= Run(cfg, steps).value.ctl
    decreases |steps|
  {
    if k == |steps| {
      assert steps[..k] == steps;
    } else {
      var front := steps[..|steps| - 1];
      assert front[..k] == steps[..k];
      ControlGrows(cfg, front, k);
      OnlyTicksReport(cfg, Run(cfg, front).value, steps[|steps| - 1]);
    }
  }

  /** Over every run each report on the control stream is true of the receiver at the
      step that wrote it, which is step `k` of the run. */
  lemma {:induction false} ReportsAreTrue(cfg: Config, steps: seq<Step>, i: nat) returns (k: nat)
    requires WellFormed(cfg) && Run(cfg, steps).Some?
    requires i < |Run(cfg, steps).value.ctl| && Run(cfg, steps).value.ctl[i].Progress?
    ensures k < |steps| && steps[k].Tick? && Run(cfg, steps[..k]).Some?
    ensures |Run(cfg, steps[..k]).value.ctl| == i
    ensures TrueOf(cfg, Run(cfg, steps).value.ctl[i], Run(cfg, steps[..k]).value.rx)
  {
    var front, step := steps[..|steps| - 1], steps[|steps| - 1];
    var s := Run(cfg, front).value;
    OnlyTicksReport(cfg, s, step);
    if i < |s.ctl| {
      k := ReportsAreTrue(cfg, front, i);
      assert front[..k] == steps[..k];
    } else {
      k := |steps| - 1;
      SequenceAccounting(cfg, front);
      TickWritesTruth(cfg, s, step.span);
    }
  }

  // ----- packets opened and late ------------------------------------------------------------

  /** The step opens a datagram. */
  predicate Opens(step: Step) {
    step.Recv? || step.RecvForged?
  }

  /** ... of a block that is already complete. */
  predicate OpensLate(s: State, step: Step) {
    && ((step.Recv? && step.index < |s.log|) || step.RecvForged?)
    && var b := if step.Recv? then s.log[step.index].block else step.block;
       b < |s.rx.blocks| && s.rx.blocks[b].Complete?
  }

  ghost function CountOpened(steps: seq<Step>): nat {
    if steps == [] then 0 else CountOpened(steps[..|steps| - 1]) + (if Opens(steps[|steps| - 1]) then 1 else 0)
  }

  ghost function CountLate(cfg: Config, steps: seq<Step>): nat
    requires WellFormed(cfg) && Run(cfg, steps).Some?
  {
    if steps == [] then 0
    else
      var front := steps[..|steps| - 1];
      CountLate(cfg, front) + (if OpensLate(Run(cfg, front).value, steps[|steps| - 1]) then 1 else 0)
  }

  lemma CountStep(cfg: Config, s: State, step: Step)
    requires WellFormed(cfg) && SizesOk(cfg, s) && Enabled(cfg, s, step)
    ensures Do(cfg, s, step).rx.pkts == s.rx.pkts + (if Opens(step) then 1 else 0)
    ensures Do(cfg, s, step).rx.late == s.rx.late + (if OpensLate(s, step) then 1 else 0)
  {
    if OfSender(step) {
      SizesSender(cfg, s, step);
    }
  }

  /** Over every run the receiver's counters are the datagrams opened, whatever block
      they name, and those of them that came for a complete block. */
  lemma {:induction false} OpenedAndLate(cfg: Config, steps: seq<Step>)
    requires WellFormed(cfg) && Run(cfg, steps).Some?
    ensures Run(cfg, steps).value.rx.pkts == CountOpened(steps)
    ensures Run(cfg, steps).value.rx.late == CountLate(cfg, steps)
  {
    if steps != [] {
      OpenedAndLate(cfg, steps[..|steps| - 1]);
      CountStep(cfg, Run(cfg, steps[..|steps| - 1]).value, steps[|steps| - 1]);
    }
  }

  // ----- two reports ----------------------------------------------------------------------------

  /** What was accepted stays accepted. */
  lemma {:induction false} AcceptedGrows(cfg: Config, steps: seq<Step>, k: nat)
    requires WellFormed(cfg) && Run(cfg, steps).Some? && k <= |steps|
    ensures Run(cfg, steps[..k]).Some?
    ensures Run(cfg, steps[..k]).value.rx.accepted <= Run(cfg, steps).value.rx.accepted
    decreases |steps|
  {
    if k == |steps| {
      assert steps[..k] == steps;
    } else {
      var front, step := steps[..|steps| - 1], steps[|steps| - 1];
      assert front[..k] == steps[..k];
      AcceptedGrows(cfg, front, k);
      var s := Run(cfg, front).value;
      if step.Recv? {
        CollectCounts(cfg, s.rx, s.log[step.index].block, s.log[step.index].pkt, step.write);
      } else if step.RecvForged? {
        CollectCounts(cfg, s.rx, step.block, step.pkt, step.write);
      } else {
        CountsKept(cfg, s, step);
      }
    }
  }

  lemma Parts(whole: set<nat>, x: set<nat>, y: set<nat>)
    requires whole == x + y && x !! y
    ensures |whole| == |x| + |y|
  {
  }

  /** What is missing of `all`, in terms of an earlier look at a part of it. */
  lemma MissingSplit(early: set<nat>, now: set<nat>, part: set<nat>, all: set<nat>)
    requires part <= all && early <= now
    ensures |all - now| == |part - early| - |(now - early) * part| + |all - part - now|
  {
    Parts(all - now, part - now, all - part - now);
    Parts(part - early, part - now, (now - early) * part);
  }

  /** Two counts against what is accepted at the end; `part` and `all` are the numbers
      below the two spans. */
  lemma LossBetween(early: set<nat>, now: set<nat>, end: set<nat>, part: set<nat>, all: set<nat>, a: nat, b: nat)
    requires early <= now <= end && part <= all
    requires a - |early| == |part - early| && b - |now| == |all - now|
    ensures (b - a) - (|now| - |early|)
            == |(all - part) - end| + |(end - now) * (all - part)| - |(now - early) * part|
  {
    MissingSplit(early, now, part, all);
    SplitLate(all - part, now, end);
    assert all - part - now == (all - part) - now;
  }

  lemma SplitLate(interval: set<nat>, now: set<nat>, end: set<nat>)
    requires now <= end
    ensures |interval - now| == |interval - end| + |(end - now) * interval|
  {
    Parts(interval - now, interval - end, (end - now) * interval);
  }

  /** What a sender computes from two reports `i` and `j` of a run: the growth of the span
      minus the growth of the count is the number of datagrams of the interval lost,
      judged from the end of the run, plus those of the interval still under way at the
      second report, less the stragglers of earlier intervals that came in between. So
      it is the interval's real loss if and only if the latter two are equally many.
      The reports were written at steps `p` and `q`. */
  lemma {:induction false} IntervalLossIsExact(cfg: Config, steps: seq<Step>, i: nat, j: nat) returns (p: nat, q: nat)
    requires WellFormed(cfg) && cfg.sealed && Run(cfg, steps).Some?
    requires i < j < |Run(cfg, steps).value.ctl|
    requires Run(cfg, steps).value.ctl[i].Progress? && Run(cfg, steps).value.ctl[j].Progress?
    ensures p < q < |steps| && Run(cfg, steps[..p]).Some? && Run(cfg, steps[..q]).Some?
    ensures var s, t, u := Run(cfg, steps[..p]).value.rx, Run(cfg, steps[..q]).value.rx, Run(cfg, steps).value;
            && TrueOf(cfg, u.ctl[i], s) && TrueOf(cfg, u.ctl[j], t)
            && var f, g := u.ctl[i], u.ctl[j];
               var interval := Below(g.span.value) - Below(f.span.value);
               var lost, late := interval - u.rx.accepted, (u.rx.accepted - t.accepted) * interval;
               var stragglers := (t.accepted - s.accepted) * Below(f.span.value);
               var measured := (g.span.value - f.span.value) - (g.pkts - f.pkts);
               && f.span.value <= g.span.value && f.pkts <= g.pkts
               && measured == |lost| + |late| - |stragglers|
               && (measured == |lost| <==> |late| == |stragglers|)
  {
    p := ReportsAreTrue(cfg, steps, i);
    q := ReportsAreTrue(cfg, steps, j);
    if q <= p {
      assert steps[..p][..q] == steps[..q];
      ControlGrows(cfg, steps[..p], q);
      assert false;
    }
    assert steps[..q][..p] == steps[..p];
    AcceptedGrows(cfg, steps[..q], p);
    AcceptedGrows(cfg, steps, q);
    var s, t, u := Run(cfg, steps[..p]).value.rx, Run(cfg, steps[..q]).value.rx, Run(cfg, steps).value;
    SubsetSize(s.accepted, t.accepted);
    var a, b := u.ctl[i].span.value, u.ctl[j].span.value;
    LossBetween(s.accepted, t.accepted, u.rx.accepted, Below(a), Below(b), a, b);
  }
}
