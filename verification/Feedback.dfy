/**
 * The sender's handling of receiver feedback: acknowledgements, the loss
 * estimate, and in adaptive mode the rate controller that drives the pacer.
 */
module FeedbackLoop {
  import opened Prelude
  import opened Rate
  import opened Pacing
  import Repair

  datatype Feedback =
    | Decoded(index: nat)
    | Progress(pkts: nat, span: Option<nat>, tMs: nat)
    | Done(ok: bool)
    | Closed

  /** Sender state that feedback touches. `ctrl` is absent at a fixed rate. */
  datatype Fb = Fb(acked: seq<bool>, ackedCount: nat, loss: Repair.Est, ctrl: Option<Ctl>, pacerRate: real)

  /** What draining ended with: nothing left, the receiver's verdict, or a lost connection. */
  datatype Drained = Empty | Finished(ok: bool) | Lost

  function Ack(s: Fb, index: nat): Fb {
    if index < |s.acked| && !s.acked[index] then
      s.(acked := s.acked[index := true], ackedCount := s.ackedCount + 1)
    else s
  }

  function Learn(s: Fb, f: Feedback, packetsSent: nat, bytesSent: nat): Fb
    requires f.Progress? && (s.ctrl.Some? ==> s.ctrl.value.seg > 0)
  {
    if f.pkts == 0 then s
    else
      var s' := s.(loss := Repair.Update(s.loss, f.pkts, if f.span.Some? then f.span.value else packetsSent));
      if s.ctrl.None? then s'
      else
        var c := OnReport(s.ctrl.value, Rate.Report(f.pkts, f.span, bytesSent, f.tMs));
        s'.(ctrl := Some(c), pacerRate := if c.rate != s.ctrl.value.rate then c.rate else s.pacerRate)
  }

  predicate Ready(s: Fb) {
    s.ctrl.Some? ==> s.ctrl.value.seg > 0
  }

  /** One message that does not end the draining. */
  function Handle(s: Fb, f: Feedback, packetsSent: nat, bytesSent: nat): (s': Fb)
    requires Ready(s)
    ensures Ready(s')
  {
    match f
    case Decoded(index) => Ack(s, index)
    case Progress(_, _, _) => Learn(s, f, packetsSent, bytesSent)
    case Done(_) => s
    case Closed => s
  }

  function Verdict(f: Feedback): Drained {
    match f
    case Done(ok) => Finished(ok)
    case Closed => Lost
    case _ => Empty
  }

  /** Handles a whole queue, stopping at the first message that ends the transfer. */
  function Drain(s: Fb, queue: seq<Feedback>, packetsSent: nat, bytesSent: nat): (r: (Fb, Drained))
    requires Ready(s)
    ensures Ready(r.0)
    decreases |queue|
  {
    if queue == [] then (s, Empty)
    else if queue[0].Done? || queue[0].Closed? then (s, Verdict(queue[0]))
    else Drain(Handle(s, queue[0], packetsSent, bytesSent), queue[1..], packetsSent, bytesSent)
  }

  /** The state after `k` polls, the k-th of which finds `arrivals(k - 1)`. */
  ghost function Polled(s: Fb, arrivals: nat -> seq<Feedback>, k: nat, packetsSent: nat, bytesSent: nat): (s': Fb)
    requires Ready(s)
    ensures Ready(s')
  {
    if k == 0 then s
    else Drain(Polled(s, arrivals, k - 1, packetsSent, bytesSent), arrivals(k - 1), packetsSent, bytesSent).0
  }

  /** After poll `k` the settle loop polls again: no verdict yet, a new
      acknowledgement, and some block still without one. */
  ghost predicate GoesOn(s: Fb, arrivals: nat -> seq<Feedback>, k: nat, packetsSent: nat, bytesSent: nat)
    requires Ready(s)
  {
    var before := Polled(s, arrivals, k, packetsSent, bytesSent);
    var (after, verdict) := Drain(before, arrivals(k), packetsSent, bytesSent);
    verdict == Empty && before.ackedCount != after.ackedCount && after.ackedCount != |after.acked|
  }

  /** The first `k` polls all went on. */
  ghost predicate WentOn(s: Fb, arrivals: nat -> seq<Feedback>, k: nat, packetsSent: nat, bytesSent: nat)
    requires Ready(s)
  {
    k == 0
    || (WentOn(s, arrivals, k - 1, packetsSent, bytesSent) && GoesOn(s, arrivals, k - 1, packetsSent, bytesSent))
  }

  lemma NextPoll(s: Fb, arrivals: nat -> seq<Feedback>, k: nat, packetsSent: nat, bytesSent: nat, before: Fb, after: Fb,
                 r: Drained)
    requires Ready(s) && before == Polled(s, arrivals, k, packetsSent, bytesSent)
    requires (after, r) == Drain(before, arrivals(k), packetsSent, bytesSent)
    ensures Polled(s, arrivals, k + 1, packetsSent, bytesSent) == after
    ensures GoesOn(s, arrivals, k, packetsSent, bytesSent)
            <==> r == Empty && before.ackedCount != after.ackedCount && after.ackedCount != |after.acked|
  {
  }

  // ----- acknowledgement bookkeeping -----------------------------------------------

  ghost predicate Counted(s: Fb) {
    s.ackedCount == CountTrue(s.acked)
  }

  /** The messages before the one that ends the draining. */
  ghost function Handled(queue: seq<Feedback>): seq<Feedback> {
    if queue == [] || queue[0].Done? || queue[0].Closed? then [] else [queue[0]] + Handled(queue[1..])
  }

  lemma AckCounts(s: Fb, index: nat)
    requires Counted(s)
    ensures Counted(Ack(s, index)) && |Ack(s, index).acked| == |s.acked|
    ensures s.ackedCount <= Ack(s, index).ackedCount <= |s.acked|
    ensures forall i | 0 <= i < |s.acked| :: Ack(s, index).acked[i] <==> s.acked[i] || i == index
  {
    if index < |s.acked| && !s.acked[index] {
      CountTrueSet(s.acked, index);
    }
    CountTrueBound(Ack(s, index).acked);
  }

  /** Over any feedback, duplicate and out-of-range indices included, the counter
      equals the number of acknowledged blocks, never decreases and never exceeds
      the number of blocks; a block is acknowledged exactly when it was before or
      a message naming it came before the end. */
  lemma {:induction false} DrainCounts(s: Fb, queue: seq<Feedback>, packetsSent: nat, bytesSent: nat)
    requires Ready(s) && Counted(s)
    ensures var s' := Drain(s, queue, packetsSent, bytesSent).0;
            && Counted(s') && |s'.acked| == |s.acked|
            && s.ackedCount <= s'.ackedCount <= |s.acked|
            && (forall i | 0 <= i < |s.acked| :: s'.acked[i] <==> s.acked[i] || Feedback.Decoded(i) in Handled(queue))
    decreases |queue|
  {
    CountTrueBound(s.acked);
    if queue != [] && !queue[0].Done? && !queue[0].Closed? {
      var t := Handle(s, queue[0], packetsSent, bytesSent);
      if queue[0].Decoded? {
        AckCounts(s, queue[0].index);
      }
      DrainCounts(t, queue[1..], packetsSent, bytesSent);
      assert Handled(queue) == [queue[0]] + Handled(queue[1..]);
    }
  }

  // ----- how draining ends --------------------------------------------------------------

  /** Draining ends with the first verdict or loss of the connection in the queue and
      tells them apart; what comes after it is not looked at. Without either the queue
      is empty. */
  lemma {:induction false} DrainEndsAtVerdict(s: Fb, queue: seq<Feedback>, packetsSent: nat, bytesSent: nat, n: nat)
    requires Ready(s) && n <= |queue|
    requires forall i | 0 <= i < n :: !queue[i].Done? && !queue[i].Closed?
    requires n < |queue| ==> queue[n].Done? || queue[n].Closed?
    ensures var (s', r) := Drain(s, queue, packetsSent, bytesSent);
            && (r == Empty <==> n == |queue|)
            && (r == Lost <==> n < |queue| && queue[n].Closed?)
            && (forall ok :: r == Finished(ok) <==> n < |queue| && queue[n] == Done(ok))
            && Drain(s, queue[..n], packetsSent, bytesSent) == (s', Empty)
    decreases n
  {
    if n > 0 {
      DrainEndsAtVerdict(Handle(s, queue[0], packetsSent, bytesSent), queue[1..], packetsSent, bytesSent, n - 1);
      assert queue[..n][0] == queue[0] && queue[..n][1..] == queue[1..][..n - 1];
    }
  }

  /** What the loss estimate is fed: of every report that tells of packets, their number
      and the receiver's span, or without one the packets sent. */
  ghost function LossReports(queue: seq<Feedback>, packetsSent: nat): seq<(nat, nat)> {
    if queue == [] || queue[0].Done? || queue[0].Closed? then []
    else
      var rest := LossReports(queue[1..], packetsSent);
      if queue[0].Progress? && queue[0].pkts > 0 then
        [(queue[0].pkts, if queue[0].span == None then packetsSent else queue[0].span.value)] + rest
      else rest
  }

  lemma AfterOneMore(before: seq<(nat, nat)>, r: (nat, nat))
    ensures Repair.AfterReports(before + [r]) == Repair.Update(Repair.AfterReports(before), r.0, r.1)
  {
    assert (before + [r])[..|before|] == before;
  }

  /** The loss estimate after a drain is the one its reports lead to; at a fixed rate
      the pacer stays as it is. */
  lemma {:induction false} DrainFeedsEstimate(s: Fb, before: seq<(nat, nat)>, queue: seq<Feedback>, packetsSent: nat,
                                             bytesSent: nat)
    requires Ready(s) && s.loss == Repair.AfterReports(before)
    ensures var s' := Drain(s, queue, packetsSent, bytesSent).0;
            && s'.loss == Repair.AfterReports(before + LossReports(queue, packetsSent))
            && (s.ctrl.None? ==> s'.ctrl.None? && s'.pacerRate == s.pacerRate)
    decreases |queue|
  {
    if queue == [] || queue[0].Done? || queue[0].Closed? {
      assert before + [] == before;
    } else {
      var t, f := Handle(s, queue[0], packetsSent, bytesSent), queue[0];
      if f.Progress? && f.pkts > 0 {
        var r := (f.pkts, if f.span == None then packetsSent else f.span.value);
        AfterOneMore(before, r);
        DrainFeedsEstimate(t, before + [r], queue[1..], packetsSent, bytesSent);
        assert before + [r] + LossReports(queue[1..], packetsSent) == before + LossReports(queue, packetsSent);
      } else {
        DrainFeedsEstimate(t, before, queue[1..], packetsSent, bytesSent);
      }
    }
  }

  // ----- the sender's object -------------------------------------------------------------

  class FeedbackState {
    const acked: array<bool>
    var ackedCount: nat
    const loss: Repair.LossEstimator
    const ctrl: RateController?
    const pacer: Pacer

    ghost predicate Valid()
      reads this, acked, loss, ctrl, pacer
    {
      && ackedCount == CountTrue(acked[..])
      && (ctrl != null ==> ctrl.Valid())
    }

    ghost function State(): Fb
      reads this, acked, loss, ctrl, pacer
    {
      Fb(acked[..], ackedCount, loss.State(), if ctrl == null then None else Some(ctrl.State()), pacer.bytesPerSec)
    }

    constructor (numBlocks: nat, controller: RateController?, p: Pacer)
      requires controller != null ==> controller.Valid()
      ensures Valid() && fresh(acked) && fresh(loss) && ctrl == controller && pacer == p
      ensures State() == Fb(seq(numBlocks, _ => false), 0, Repair.Unprimed,
                            if controller == null then None else Some(controller.State()), p.bytesPerSec)
    {
      acked := new bool[numBlocks](_ => false);
      loss := new Repair.LossEstimator();
      ctrl, pacer, ackedCount := controller, p, 0;
      new;
      assert acked[..] == seq(numBlocks, _ => false);
      AllFalse(numBlocks);
    }

    /** Drains pending feedback without blocking. */
    method DrainFeedback(queue: seq<Feedback>, packetsSent: nat, bytesSent: nat) returns (r: Drained)
      requires Valid()
      modifies this, acked, loss, ctrl, pacer
      ensures Valid()
      ensures (State(), r) == Drain(old(State()), queue, packetsSent, bytesSent)
    {
      var i := 0;
      while i < |queue|
        invariant 0 <= i <= |queue| && Valid() && Ready(State())
        invariant Drain(State(), queue[i..], packetsSent, bytesSent)
                  == Drain(old(State()), queue, packetsSent, bytesSent)
      {
        ghost var rest := queue[i..];
        assert rest[0] == queue[i] && rest[1..] == queue[i + 1..];
        match queue[i] {
          case Done(ok) =>
            return Finished(ok);
          case Closed =>
            return Lost;
          case Decoded(index) =>
            AckBlock(index);
          case Progress(pkts, span, tMs) =>
            TakeReport(queue[i], packetsSent, bytesSent);
        }
        i := i + 1;
      }
      r := Empty;
    }

    method AckBlock(index: nat)
      requires Valid()
      modifies this, acked
      ensures Valid() && State() == Ack(old(State()), index)
    {
      ghost var before := acked[..];
      if index < acked.Length && !acked[index] {
        acked[index] := true;
        ackedCount := ackedCount + 1;
        CountTrueSet(before, index);
        assert acked[..] == before[index := true];
      }
    }

    method TakeReport(f: Feedback, packetsSent: nat, bytesSent: nat)
      requires Valid() && f.Progress?
      modifies loss, ctrl, pacer
      ensures Valid() && State() == Learn(old(State()), f, packetsSent, bytesSent)
    {
      if f.pkts > 0 {
        loss.UpdateStep(f.pkts, if f.span.Some? then f.span.value else packetsSent);
        if ctrl != null {
          var changed := ctrl.OnReportStep(Rate.Report(f.pkts, f.span, bytesSent, f.tMs));
          if changed.Some? {
            pacer.SetRate(changed.value);
          }
        }
      }
    }

    method PollOnce(queue: seq<Feedback>, packetsSent: nat, bytesSent: nat) returns (r: Drained)
      requires Valid()
      modifies this, acked, loss, ctrl, pacer
      ensures Valid() && Ready(State())
      ensures (State(), r) == Drain(old(State()), queue, packetsSent, bytesSent)
      ensures old(ackedCount) <= ackedCount <= acked.Length
    {
      ghost var s := State();
      r := DrainFeedback(queue, packetsSent, bytesSent);
      DrainCounts(s, queue, packetsSent, bytesSent);
    }

    /** The ack-settle loop: polls until a poll brings no new acknowledgement or
        every block is acknowledged, or a poll brings the verdict, and not longer.
        `arrivals(k)` is what the k-th poll finds.
        It ends after at most one poll per outstanding block and one more. */
    method Settle(arrivals: nat -> seq<Feedback>, packetsSent: nat, bytesSent: nat) returns (r: Drained, polls: nat)
      requires Valid()
      modifies this, acked, loss, ctrl, pacer
      ensures Valid()
      ensures 1 <= polls <= acked.Length - old(ackedCount) + 1
      ensures State() == Polled(old(State()), arrivals, polls, packetsSent, bytesSent)
      ensures r == Drain(Polled(old(State()), arrivals, polls - 1, packetsSent, bytesSent),
                         arrivals(polls - 1), packetsSent, bytesSent).1
      ensures WentOn(old(State()), arrivals, polls - 1, packetsSent, bytesSent)
      ensures !GoesOn(old(State()), arrivals, polls - 1, packetsSent, bytesSent)
    {
      ghost var s0 := State();
      polls := 0;
      CountTrueBound(acked[..]);
      r := Empty;
      while true
        invariant Valid() && r == Empty
        invariant State() == Polled(s0, arrivals, polls, packetsSent, bytesSent)
        invariant s0.ackedCount + polls <= ackedCount <= acked.Length
        invariant WentOn(s0, arrivals, polls, packetsSent, bytesSent)
        decreases acked.Length - ackedCount
      {
        var before := ackedCount;
        ghost var s := State();
        r := PollOnce(arrivals(polls), packetsSent, bytesSent);
        NextPoll(s0, arrivals, polls, packetsSent, bytesSent, s, State(), r);
        polls := polls + 1;
        if r != Empty || ackedCount == before || ackedCount == acked.Length {
          return;
        }
      }
    }
  }
}
