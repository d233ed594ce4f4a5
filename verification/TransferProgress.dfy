/**
 * Fresh symbols, sequence numbers and decoding progress over every run of the
 * transfer.
 */
module TransferProgress {
  import opened Prelude
  import opened Blocks
  import opened Replay
  import opened Transfer
  import opened TransferSafety
  import Repair
  import Sealed

  // ----- no symbol is sprayed twice -----------------------------------------------------

  /** Blocks of the current round still to come. */
  function Remaining(phase: Phase): seq<nat> {
    if phase.NextBlock? || phase.Spray? || phase.AfterBlock? then phase.rest else []
  }

  ghost predicate Unsprayed(log: seq<Dgram>, b: nat) {
    forall i | 0 <= i < |log| :: log[i].block != b
  }

  /** All symbol ids made for a block so far are below this. */
  ghost function IdLimit(cfg: Config, tx: Sender, b: nat): nat
    requires WellFormed(cfg) && IsBlock(cfg, b) && |tx.nextRepair| == cfg.layout.numBlocks
  {
    SourceCount(cfg, b) + tx.nextRepair[b]
  }

  ghost predicate Increasing(s: seq<nat>) {
    forall i, j | 0 <= i < j < |s| :: s[i] < s[j]
  }

  /** Every datagram made so far carries a symbol below the limit of its block, and
      no two carry the same symbol. */
  ghost predicate LogFresh(cfg: Config, s: State)
    requires WellFormed(cfg) && SizesOk(cfg, s)
  {
    && (forall i | 0 <= i < |s.log| ::
          IsBlock(cfg, s.log[i].block) && s.log[i].pkt.id < IdLimit(cfg, s.tx, s.log[i].block))
    && (forall i, j | 0 <= i < j < |s.log| ::
          s.log[i].block == s.log[j].block ==> s.log[i].pkt.id != s.log[j].pkt.id)
  }

  /** The packets waiting to be sprayed are newer than all sprayed ones of their block. */
  ghost predicate QueueFresh(cfg: Config, s: State)
    requires WellFormed(cfg) && SizesOk(cfg, s)
  {
    s.tx.phase.Spray? ==>
      var q, b := s.tx.phase.queue, s.tx.phase.block;
      && b !in s.tx.phase.rest
      && (forall i, j | 0 <= i < j < |q| :: q[i].id < q[j].id)
      && (forall i | 0 <= i < |q| :: q[i].id < IdLimit(cfg, s.tx, b))
      && (forall i, j | 0 <= i < |s.log| && 0 <= j < |q| && s.log[i].block == b :: s.log[i].pkt.id < q[j].id)
  }

  /** In round 0 the blocks still to come have not been sprayed at all. */
  ghost predicate RoundFresh(s: State) {
    && Increasing(Remaining(s.tx.phase))
    && (s.tx.phase.Settling? ==> s.tx.round > 0)
    && (s.tx.round == 0 ==>
          && ((s.tx.phase.Top? || s.tx.phase.WaitDone?) ==> s.log == [])
          && forall i | 0 <= i < |Remaining(s.tx.phase)| :: Unsprayed(s.log, Remaining(s.tx.phase)[i]))
  }

  ghost predicate Fresh(cfg: Config, s: State)
    requires WellFormed(cfg) && SizesOk(cfg, s)
  {
    LogFresh(cfg, s) && QueueFresh(cfg, s) && RoundFresh(s)
  }

  lemma FreshStart(cfg: Config, s: State)
    requires WellFormed(cfg) && SizesOk(cfg, s) && Fresh(cfg, s) && s.tx.phase.NextBlock?
    ensures var s' := s.(tx := StartBlock(cfg, s.tx)); SizesOk(cfg, s') && Fresh(cfg, s')
  {
    var s', rest := s.(tx := StartBlock(cfg, s.tx)), s.tx.phase.rest;
    if rest != [] {
      var b := rest[0];
      assert IsBlock(cfg, b);
      assert forall i | 0 <= i < |rest[1..]| :: rest[1..][i] == rest[i + 1];
      if !s.tx.acked[b] {
        assert s.tx.round == 0 ==> Unsprayed(s.log, b);
      }
    }
  }

  lemma FreshSend(cfg: Config, s: State, drop: bool)
    requires WellFormed(cfg) && SizesOk(cfg, s) && Fresh(cfg, s) && Enabled(cfg, s, Send(drop))
    ensures var s' := SenderStep(cfg, s, Send(drop)); SizesOk(cfg, s') && Fresh(cfg, s')
  {
    var s', q := SenderStep(cfg, s, Send(drop)), s.tx.phase.queue;
    assert forall i | 0 <= i < |q[1..]| :: q[1..][i] == q[i + 1];
  }

  /** Steps that make and queue nothing. */
  lemma FreshFrame(cfg: Config, s: State, s': State)
    requires WellFormed(cfg) && SizesOk(cfg, s) && SizesOk(cfg, s') && Fresh(cfg, s)
    requires s'.log == s.log && s'.tx.nextRepair == s.tx.nextRepair
    requires (s'.tx.phase == s.tx.phase && s'.tx.round == s.tx.round) || (!s'.tx.phase.Spray? && RoundFresh(s'))
    ensures Fresh(cfg, s')
  {
    assert forall b: nat | IsBlock(cfg, b) :: IdLimit(cfg, s'.tx, b) == IdLimit(cfg, s.tx, b);
  }

  lemma RoundFreshStep(cfg: Config, s: State, step: Step)
    requires WellFormed(cfg) && SizesOk(cfg, s) && Enabled(cfg, s, step) && RoundFresh(s)
    requires OfSender(step) && !step.Start? && !step.Send?
    ensures var s' := SenderStep(cfg, s, step);
            && s'.log == s.log && s'.tx.nextRepair == s.tx.nextRepair && RoundFresh(s')
            && (s'.tx.phase.Spray? ==> s'.tx.phase == s.tx.phase && s'.tx.round == s.tx.round)
  {
    if step.Leave? {
      OutstandingExact(s.tx.acked);
    }
  }

  lemma FreshStep(cfg: Config, s: State, step: Step)
    requires WellFormed(cfg) && SizesOk(cfg, s) && Enabled(cfg, s, step) && Fresh(cfg, s)
    ensures SizesOk(cfg, Do(cfg, s, step)) && Fresh(cfg, Do(cfg, s, step))
  {
    if !OfSender(step) {
      SizesReceiver(cfg, s, step);
      FreshFrame(cfg, s, ReceiverStep(cfg, s, step));
    } else if step.Start? {
      FreshStart(cfg, s);
    } else if step.Send? {
      FreshSend(cfg, s, step.drop);
    } else {
      SizesSender(cfg, s, step);
      RoundFreshStep(cfg, s, step);
      FreshFrame(cfg, s, SenderStep(cfg, s, step));
    }
  }

  lemma {:induction false} FreshRun(cfg: Config, steps: seq<Step>)
    requires WellFormed(cfg) && Run(cfg, steps).Some?
    ensures Fresh(cfg, Run(cfg, steps).value)
  {
    if steps != [] {
      FreshRun(cfg, steps[..|steps| - 1]);
      FreshStep(cfg, Run(cfg, steps[..|steps| - 1]).value, steps[|steps| - 1]);
    }
  }

  /** Over all rounds no symbol of a block is put into a datagram twice. */
  lemma {:induction false} NoSymbolTwice(cfg: Config, steps: seq<Step>)
    requires WellFormed(cfg) && Run(cfg, steps).Some?
    ensures var log := Run(cfg, steps).value.log;
            forall i, j | 0 <= i < j < |log| :: log[i].block != log[j].block || log[i].pkt.id != log[j].pkt.id
  {
    FreshRun(cfg, steps);
  }

  // ----- what reaches the wire -------------------------------------------------------------

  predicate InRound(phase: Phase) {
    phase.NextBlock? || phase.Spray? || phase.AfterBlock?
  }

  /** Batches stay within bounds and are empty outside a spray; only encoded
      datagrams reach the wire; none is left behind unless sending failed; and
      once the receiver's socket is gone nothing more is sprayed. */
  ghost predicate Flushing(cfg: Config, s: State) {
    && |s.tx.batch| <= cfg.maxSegs
    && (s.tx.phase.Spray? || s.tx.phase.Failed? || s.tx.batch == [])
    && (forall d | d in s.tx.batch || d in s.wire :: d in s.log)
    && (s.tx.gone || s.tx.phase.Failed? || forall i | 0 <= i < |s.log| :: s.log[i] in s.wire || s.log[i] in s.tx.batch)
    && (s.tx.gone ==> !InRound(s.tx.phase))
  }

  lemma FlushingSend(cfg: Config, s: State, drop: bool)
    requires WellFormed(cfg) && SizesOk(cfg, s) && Enabled(cfg, s, Send(drop)) && Flushing(cfg, s)
    ensures Flushing(cfg, SenderStep(cfg, s, Send(drop)))
  {
    var s' := SenderStep(cfg, s, Send(drop));
    if !drop {
      var d := s'.log[|s.log|];
      assert s'.log == s.log + [d] && s'.tx.batch == s.tx.batch + [d];
      assert d in s'.tx.batch;
      assert forall x | x in s.tx.batch :: x in s'.tx.batch;
    }
  }

  lemma FlushingFlush(cfg: Config, s: State, result: FlushResult)
    requires WellFormed(cfg) && SizesOk(cfg, s) && Enabled(cfg, s, FlushBatch(result)) && Flushing(cfg, s)
    ensures Flushing(cfg, SenderStep(cfg, s, FlushBatch(result)))
  {
    if !result.Flushed? {
      var part := s.tx.batch[..MinNat(result.kept, |s.tx.batch|)];
      assert forall d | d in part :: d in s.tx.batch;
    }
  }

  lemma FlushingStep(cfg: Config, s: State, step: Step)
    requires WellFormed(cfg) && SizesOk(cfg, s) && Enabled(cfg, s, step) && Flushing(cfg, s)
    ensures Flushing(cfg, Do(cfg, s, step))
  {
    if !OfSender(step) {
      SizesReceiver(cfg, s, step);
    } else {
      match step {
        case Send(drop) => FlushingSend(cfg, s, drop);
        case FlushBatch(result) => FlushingFlush(cfg, s, result);
        case _ =>
      }
    }
  }

  /** Over every run: as long as the socket is there and nothing failed, every
      datagram encoded so far is on the wire whenever the sender is not in the
      middle of a block; after the socket is gone nothing more is sprayed. */
  lemma {:induction false} NothingIsLeftBehind(cfg: Config, steps: seq<Step>)
    requires WellFormed(cfg) && Run(cfg, steps).Some?
    ensures var s := Run(cfg, steps).value;
            && Flushing(cfg, s)
            && (!s.tx.gone && !s.tx.phase.Failed? && !s.tx.phase.Spray? ==> s.wire == set d | d in s.log)
  {
    if steps != [] {
      NothingIsLeftBehind(cfg, steps[..|steps| - 1]);
      FlushingStep(cfg, Run(cfg, steps[..|steps| - 1]).value, steps[|steps| - 1]);
    }
  }

  // ----- acknowledged blocks cost nothing more -------------------------------------------------

  /** Block `b` is acknowledged and not being sprayed. */
  ghost predicate Settled(s: State, b: nat) {
    b < |s.tx.acked| && s.tx.acked[b] && !(s.tx.phase.Spray? && s.tx.phase.block == b)
  }

  lemma SettledStep(cfg: Config, s: State, step: Step, b: nat)
    requires WellFormed(cfg) && SizesOk(cfg, s) && Enabled(cfg, s, step) && Settled(s, b)
    ensures var s' := Do(cfg, s, step);
            && Settled(s', b) && s.log <= s'.log
            && forall i | |s.log| <= i < |s'.log| :: s'.log[i].block != b
  {
    if !OfSender(step) {
      SizesReceiver(cfg, s, step);
    }
  }

  /** From then on no further datagram of the block is made, however long the run. */
  lemma {:induction false} NoRepairAfterAck(cfg: Config, steps: seq<Step>, k: nat, b: nat)
    requires WellFormed(cfg) && Run(cfg, steps).Some? && k <= |steps|
    ensures Run(cfg, steps[..k]).Some?
    ensures var s, t := Run(cfg, steps[..k]).value, Run(cfg, steps).value;
            Settled(s, b) ==>
              && Settled(t, b) && s.log <= t.log
              && forall i | |s.log| <= i < |t.log| :: t.log[i].block != b
    decreases |steps|
  {
    if k == |steps| {
      assert steps[..k] == steps;
    } else {
      var front := steps[..|steps| - 1];
      assert front[..k] == steps[..k];
      NoRepairAfterAck(cfg, front, k, b);
      if Settled(Run(cfg, front).value, b) {
        SettledStep(cfg, Run(cfg, front).value, steps[|steps| - 1], b);
      }
    }
  }

  // ----- repair rounds --------------------------------------------------------------------

  /** The least number of new symbols a repair round makes for a block of k source symbols. */
  function RoundMinimum(k: nat): nat {
    MaxNat(8, DivCeil(k, 16))
  }

  lemma OneMoreRound(rounds: nat, minimum: nat, symbols: nat, extra: nat)
    requires rounds * minimum <= symbols && minimum <= extra
    ensures (rounds + 1) * minimum <= symbols + extra
  {
    assert (rounds + 1) * minimum == rounds * minimum + minimum;
  }

  /** Every completed or started repair round of a block has made at least
      max(8, k/16) symbols for it, each of them new. */
  ghost predicate Productive(cfg: Config, tx: Sender)
    requires WellFormed(cfg) && |tx.nextRepair| == |tx.repairRounds| == cfg.layout.numBlocks
  {
    forall b: nat | IsBlock(cfg, b) :: tx.repairRounds[b] * RoundMinimum(SourceCount(cfg, b)) <= tx.nextRepair[b]
  }

  lemma ProductiveStart(cfg: Config, s: State)
    requires WellFormed(cfg) && SizesOk(cfg, s) && Productive(cfg, s.tx) && s.tx.phase.NextBlock?
    ensures Productive(cfg, StartBlock(cfg, s.tx))
  {
    var rest := s.tx.phase.rest;
    if rest != [] {
      assert IsBlock(cfg, rest[0]);
      var b, k := rest[0], SourceCount(cfg, rest[0]);
      if s.tx.round > 0 {
        Repair.RepairRoundSize(s.tx.loss, cfg.cliFrac, s.tx.round, k);
        OneMoreRound(s.tx.repairRounds[b], RoundMinimum(k), s.tx.nextRepair[b],
                     Repair.RepairCount(s.tx.loss, cfg.cliFrac, s.tx.round, k));
      }
    }
  }

  lemma {:induction false} ProductiveRun(cfg: Config, steps: seq<Step>)
    requires WellFormed(cfg) && Run(cfg, steps).Some?
    ensures Productive(cfg, Run(cfg, steps).value.tx)
  {
    if steps != [] {
      ProductiveRun(cfg, steps[..|steps| - 1]);
      var s, step := Run(cfg, steps[..|steps| - 1]).value, steps[|steps| - 1];
      if step.Start? {
        ProductiveStart(cfg, s);
      } else {
        RepairTablesKept(cfg, s, step);
      }
    }
  }

  lemma RepairTablesKept(cfg: Config, s: State, step: Step)
    requires WellFormed(cfg) && SizesOk(cfg, s) && Enabled(cfg, s, step) && !step.Start?
    ensures Do(cfg, s, step).tx.nextRepair == s.tx.nextRepair
    ensures Do(cfg, s, step).tx.repairRounds == s.tx.repairRounds
  {
  }

  // ----- sequence numbers -------------------------------------------------------------------

  ghost predicate Carried(log: seq<Dgram>, seqno: nat) {
    exists i :: 0 <= i < |log| && log[i].seqno == seqno
  }

  /** The sealer's counter equals the packets sent (burned numbers included), and
      numbers are handed out in order. */
  ghost predicate Numbered(s: State) {
    && s.tx.nextSeq == s.tx.packetsSent
    && (forall i | 0 <= i < |s.log| :: s.log[i].seqno < s.tx.nextSeq)
    && (forall i, j | 0 <= i < j < |s.log| :: s.log[i].seqno < s.log[j].seqno)
  }

  /** Everything opened was sent, and in sealed mode the receiver has counted
      exactly the numbers it accepted. */
  ghost predicate Opened(cfg: Config, s: State) {
    && (forall q | q in s.rx.accepted :: Carried(s.log, q))
    && (cfg.sealed ==> s.rx.pkts == |s.rx.accepted|)
  }

  /** Every report on the control stream is consistent with what was sent. */
  ghost predicate Reported(s: State) {
    forall i | 0 <= i < |s.ctl| && s.ctl[i].Progress? && s.ctl[i].span.Some? ::
      0 < s.ctl[i].pkts <= s.ctl[i].span.value <= s.tx.packetsSent
  }

  lemma NumberedStep(cfg: Config, s: State, step: Step)
    requires WellFormed(cfg) && SizesOk(cfg, s) && Enabled(cfg, s, step) && Numbered(s)
    ensures var s' := Do(cfg, s, step);
            && Numbered(s') && s.log <= s'.log
            && s.tx.packetsSent <= s'.tx.packetsSent <= s.tx.packetsSent + 1
  {
    if !OfSender(step) {
      SizesReceiver(cfg, s, step);
    }
  }

  lemma CarriedGrows(log: seq<Dgram>, log': seq<Dgram>, q: nat)
    requires log <= log' && Carried(log, q)
    ensures Carried(log', q)
  {
    var i :| 0 <= i < |log| && log[i].seqno == q;
    assert log'[i].seqno == q;
  }

  lemma OpenedGrows(cfg: Config, s: State, s': State)
    requires Opened(cfg, s) && s.log <= s'.log
    requires forall q | q in s'.rx.accepted && q !in s.rx.accepted :: Carried(s'.log, q)
    requires cfg.sealed ==> s'.rx.pkts == |s'.rx.accepted|
    ensures Opened(cfg, s')
  {
    forall q | q in s'.rx.accepted
      ensures Carried(s'.log, q)
    {
      if q in s.rx.accepted {
        CarriedGrows(s.log, s'.log, q);
      }
    }
  }

  lemma CollectCounts(cfg: Config, rx: Receiver, b: nat, pkt: Packet, w: WriteResult)
    requires WellFormed(cfg) && |rx.blocks| == cfg.layout.numBlocks && |rx.file| == cfg.layout.fileSize
    ensures Collect(cfg, rx, b, pkt, w).pkts == rx.pkts + 1
    ensures Collect(cfg, rx, b, pkt, w).accepted == rx.accepted
  {
  }

  /** Only opening a datagram touches the accepted numbers and the count. */
  lemma CountsKept(cfg: Config, s: State, step: Step)
    requires WellFormed(cfg) && SizesOk(cfg, s) && Enabled(cfg, s, step) && !step.Recv? && !step.RecvForged?
    ensures Do(cfg, s, step).rx.accepted == s.rx.accepted && Do(cfg, s, step).rx.pkts == s.rx.pkts
  {
    if OfSender(step) {
      SizesSender(cfg, s, step);
    }
  }

  lemma OpenedRecv(cfg: Config, s: State, index: nat, w: WriteResult)
    requires WellFormed(cfg) && SizesOk(cfg, s) && Enabled(cfg, s, Recv(index, w)) && Opened(cfg, s)
    ensures Opened(cfg, ReceiverStep(cfg, s, Recv(index, w)))
  {
    var d := s.log[index];
    CollectCounts(cfg, s.rx, d.block, d.pkt, w);
    assert Carried(s.log, d.seqno);
    OpenedGrows(cfg, s, ReceiverStep(cfg, s, Recv(index, w)));
  }

  lemma OpenedStep(cfg: Config, s: State, step: Step)
    requires WellFormed(cfg) && SizesOk(cfg, s) && Enabled(cfg, s, step) && Numbered(s) && Opened(cfg, s)
    ensures Opened(cfg, Do(cfg, s, step))
  {
    if step.Recv? {
      OpenedRecv(cfg, s, step.index, step.write);
    } else {
      if step.RecvForged? {
        CollectCounts(cfg, s.rx, step.block, step.pkt, step.write);
      } else {
        CountsKept(cfg, s, step);
      }
      NumberedStep(cfg, s, step);
      OpenedGrows(cfg, s, Do(cfg, s, step));
    }
  }

  /** The span a report carries, minus what it says was received, is exactly the
      number of datagrams below the span that have not been accepted by then. */
  lemma TickIsExact(cfg: Config, s: State, span: nat)
    requires WellFormed(cfg) && Numbered(s) && Opened(cfg, s) && cfg.sealed && Enabled(cfg, s, Tick(Some(span)))
    ensures 0 < s.rx.pkts <= span <= s.tx.packetsSent
    ensures |Below(span) - s.rx.accepted| == span - s.rx.pkts
  {
    LostBelowSpan(s.rx.accepted, span - 1);
    assert Carried(s.log, span - 1);
  }

  lemma ReportedStep(cfg: Config, s: State, step: Step)
    requires WellFormed(cfg) && SizesOk(cfg, s) && Enabled(cfg, s, step)
    requires Numbered(s) && Opened(cfg, s) && Reported(s)
    ensures Reported(Do(cfg, s, step))
  {
    NumberedStep(cfg, s, step);
    if OfSender(step) {
      SizesSender(cfg, s, step);
    } else if step.Tick? && cfg.sealed {
      TickIsExact(cfg, s, step.span.value);
    }
  }

  /** Over every run: one number per packet, and pkts <= span <= packets sent in
      every report. */
  lemma {:induction false} SequenceAccounting(cfg: Config, steps: seq<Step>)
    requires WellFormed(cfg) && Run(cfg, steps).Some?
    ensures var s := Run(cfg, steps).value;
            Numbered(s) && Opened(cfg, s) && Reported(s) && s.tx.packetsSent <= |steps|
  {
    if steps != [] {
      SequenceAccounting(cfg, steps[..|steps| - 1]);
      var s, step := Run(cfg, steps[..|steps| - 1]).value, steps[|steps| - 1];
      NumberedStep(cfg, s, step);
      OpenedStep(cfg, s, step);
      ReportedStep(cfg, s, step);
    }
  }

  // ----- decoding --------------------------------------------------------------------------------

  /** A pending block has been fed every datagram opened for it, and its decoder
      has not produced the block yet (unless writing it failed). */
  ghost predicate Fed(cfg: Config, s: State)
    requires WellFormed(cfg) && SizesOk(cfg, s)
  {
    forall b: nat | IsBlock(cfg, b) && s.rx.blocks[b].Pending? ::
      && (s.rx.blocks[b].fed == [] || s.rx.ioErr
          || cfg.codec.decode(|Slice(cfg, cfg.data, b)|, s.rx.blocks[b].fed).None?)
      && (forall i | 0 <= i < |s.log| && s.log[i].block == b && s.log[i].seqno in s.rx.accepted ::
            s.log[i].pkt in s.rx.blocks[b].fed)
  }

  lemma FedRecv(cfg: Config, s: State, index: nat, w: WriteResult)
    requires WellFormed(cfg) && SizesOk(cfg, s) && Enabled(cfg, s, Recv(index, w)) && Numbered(s) && Fed(cfg, s)
    requires IsBlock(cfg, s.log[index].block)
    ensures var s' := ReceiverStep(cfg, s, Recv(index, w)); SizesOk(cfg, s') && Fed(cfg, s')
  {
    var d, s' := s.log[index], ReceiverStep(cfg, s, Recv(index, w));
    BlockBounds(cfg.layout, d.block);
    forall b: nat, i: nat |
      && IsBlock(cfg, b) && s'.rx.blocks[b].Pending? && i < |s.log|
      && s.log[i].block == b && s.log[i].seqno in s'.rx.accepted
      ensures s.log[i].pkt in s'.rx.blocks[b].fed
    {
      if s.log[i].seqno == d.seqno {
        assert i == index;
      }
    }
  }

  /** Without forgeries only `Recv` feeds a block. */
  lemma FedFrame(cfg: Config, s: State, step: Step)
    requires WellFormed(cfg) && SizesOk(cfg, s) && Enabled(cfg, s, step) && Numbered(s) && Opened(cfg, s) && Fed(cfg, s)
    requires !cfg.forging && !step.Recv?
    ensures SizesOk(cfg, Do(cfg, s, step)) && Fed(cfg, Do(cfg, s, step))
  {
    SizesStep(cfg, s, step);
    NumberedStep(cfg, s, step);
    BlocksKept(cfg, s, step);
    if step.Send? {
      forall q | q in s.rx.accepted
        ensures q < s.tx.nextSeq
      {
        assert Carried(s.log, q);
      }
    }
  }

  lemma BlocksKept(cfg: Config, s: State, step: Step)
    requires WellFormed(cfg) && SizesOk(cfg, s) && Enabled(cfg, s, step) && !step.Recv? && !step.RecvForged?
    ensures var s' := Do(cfg, s, step);
            && s'.rx.blocks == s.rx.blocks && s'.rx.ioErr == s.rx.ioErr && s'.rx.accepted == s.rx.accepted
            && (!step.Send? ==> s'.log == s.log)
            && (step.Send? ==> forall i | |s.log| <= i < |s'.log| :: s'.log[i].seqno == s.tx.nextSeq)
  {
    if OfSender(step) {
      SizesSender(cfg, s, step);
    }
  }

  lemma {:induction false} FedRun(cfg: Config, steps: seq<Step>)
    requires WellFormed(cfg) && !cfg.forging && Run(cfg, steps).Some?
    ensures Fed(cfg, Run(cfg, steps).value)
  {
    if steps != [] {
      var front, step := steps[..|steps| - 1], steps[|steps| - 1];
      FedRun(cfg, front);
      SequenceAccounting(cfg, front);
      FreshRun(cfg, front);
      var s := Run(cfg, front).value;
      if step.Recv? {
        FedRecv(cfg, s, step.index, step.write);
      } else {
        FedFrame(cfg, s, step);
      }
    }
  }

  lemma {:induction false} ImageSize(ids: seq<nat>, indices: set<nat>)
    requires forall i | i in indices :: i < |ids|
    requires forall i, j | i in indices && j in indices && i != j :: ids[i] != ids[j]
    ensures |set i | i in indices :: ids[i]| == |indices|
    decreases |indices|
  {
    var image := set i | i in indices :: ids[i];
    if indices == {} {
      assert image == {};
    } else {
      var x :| x in indices;
      var rest := indices - {x};
      ImageSize(ids, rest);
      assert image == (set i | i in rest :: ids[i]) + {ids[x]};
    }
  }

  lemma DistinctIds(cfg: Config, s: State, b: nat, indices: set<nat>)
    requires WellFormed(cfg) && SizesOk(cfg, s) && LogFresh(cfg, s)
    requires forall i | i in indices :: i < |s.log| && s.log[i].block == b
    ensures |set i | i in indices :: s.log[i].pkt.id| == |indices|
  {
    var ids := seq(|s.log|, i requires 0 <= i < |s.log| => s.log[i].pkt.id);
    forall i, j | i in indices && j in indices && i != j
      ensures ids[i] != ids[j]
    {
      assert i < j || j < i;
    }
    ImageSize(ids, indices);
    assert (set i | i in indices :: s.log[i].pkt.id) == set i | i in indices :: ids[i];
  }

  lemma IdsCovered(log: seq<Dgram>, indices: set<nat>, fed: seq<Packet>)
    requires forall i | i in indices :: i < |log| && log[i].pkt in fed
    ensures |set i | i in indices :: log[i].pkt.id| <= |Ids(fed)|
  {
    var ids := set i | i in indices :: log[i].pkt.id;
    assert ids <= Ids(fed);
    SubsetSize(ids, Ids(fed));
  }

  /** With a decoder that succeeds on `threshold` distinct symbols, a block is
      complete as soon as that many of its datagrams have been opened, whichever
      they are: no opened datagram is ever redundant, because no symbol is sent
      twice. The one exception is a receiver whose disk failed. */
  lemma {:induction false} DecodesAtThreshold(cfg: Config, steps: seq<Step>, threshold: nat -> nat, b: nat,
                                              indices: set<nat>)
    requires WellFormed(cfg) && Honest(cfg) && Decodes(cfg.codec, threshold) && Run(cfg, steps).Some?
    requires IsBlock(cfg, b) && 0 < threshold(|Slice(cfg, cfg.data, b)|) <= |indices|
    requires forall i | i in indices ::
               && i < |Run(cfg, steps).value.log|
               && Run(cfg, steps).value.log[i].block == b
               && Run(cfg, steps).value.log[i].seqno in Run(cfg, steps).value.rx.accepted
    ensures Run(cfg, steps).value.rx.blocks[b].Complete? || Run(cfg, steps).value.rx.ioErr
  {
    FedRun(cfg, steps);
    FreshRun(cfg, steps);
    ContentsRun(cfg, steps);
    var s, x := Run(cfg, steps).value, Slice(cfg, cfg.data, b);
    if s.rx.blocks[b].Pending? {
      var fed := s.rx.blocks[b].fed;
      DistinctIds(cfg, s, b, indices);
      IdsCovered(s.log, indices, fed);
      assert Genuine(cfg.codec, x, fed);
      assert Ids([]) == {};
    }
  }

  // ----- the bytes on the wire --------------------------------------------------------------------

  /** The datagrams of the log as the sealer sees them; `ser` serializes a packet. */
  ghost function SentOf(log: seq<Dgram>, ser: Packet -> seq<byte>): (sent: seq<Sealed.Sent>)
    ensures |sent| == |log|
    ensures forall i | 0 <= i < |log| :: sent[i] == Sealed.Sent(log[i].seqno, log[i].block, ser(log[i].pkt))
  {
    seq(|log|, i requires 0 <= i < |log| => Sealed.Sent(log[i].seqno, log[i].block, ser(log[i].pkt)))
  }

  /** In sealed mode, among all byte strings an adversary may deliver, exactly those
      open that are the sealed form of a datagram of the log whose number is still
      acceptable; they are the deliveries the state machine calls `Recv`, with the
      block and packet of that datagram. */
  lemma {:induction false} DeliveredBytesAreRecv(cfg: Config, steps: seq<Step>, c: Sealed.Cipher, tag: nat,
                              ser: Packet -> seq<byte>, buf: seq<byte>, i: nat)
    requires WellFormed(cfg) && Run(cfg, steps).Some? && |steps| < U64_LIMIT - 1
    requires Sealed.WellFormed(c) && tag < U64_LIMIT && i < |Run(cfg, steps).value.log|
    ensures var s := Run(cfg, steps).value;
            Sealed.Hit(c, tag, SentOf(s.log, ser), s.rx.accepted, buf) == Some(i)
            <==> buf == Sealed.Wire(c, tag, SentOf(s.log, ser)[i]) && Acceptable(s.rx.accepted, s.log[i].seqno)
  {
    SequenceAccounting(cfg, steps);
    FreshRun(cfg, steps);
    var s := Run(cfg, steps).value;
    var session := Sealed.Session(s.tx.nextSeq, SentOf(s.log, ser), s.rx.accepted);
    forall q | q in s.rx.accepted
      ensures Sealed.Carried(session.sent, q)
    {
      assert Carried(s.log, q);
      var j :| 0 <= j < |s.log| && s.log[j].seqno == q;
      assert session.sent[j].seqno == q;
    }
    Sealed.OpenExact(c, tag, session, buf, i);
  }
}
