/**
 * No dead ends: as long as neither side has given up, any run of a transfer can
 * be continued to success. A schedule is chosen step by step and a rank goes
 * down with every step of it.
 */
module TransferLiveness {
  import opened Prelude
  import opened Blocks
  import opened Replay
  import opened Transfer
  import opened TransferSafety
  import opened TransferProgress

  ghost function End(cfg: Config, run: seq<Step>): (s: State)
    requires WellFormed(cfg) && Run(cfg, run).Some?
    ensures SizesOk(cfg, s)
  {
    Run(cfg, run).value
  }

  lemma Extend(cfg: Config, run: seq<Step>, step: Step)
    requires WellFormed(cfg) && Run(cfg, run).Some? && Enabled(cfg, End(cfg, run), step)
    ensures Run(cfg, run + [step]).Some? && End(cfg, run + [step]) == Do(cfg, End(cfg, run), step)
  {
    assert (run + [step])[..|run|] == run;
  }

  // ----- what is lost for good -----------------------------------------------------------

  /** The sender has failed, or the receiver has stopped or is about to. */
  predicate Lost(s: State) {
    s.tx.phase.Failed? || s.rx.mode.Stopped? || (s.rx.ioErr && s.rx.mode.Batch?)
  }

  lemma LostStep(cfg: Config, s: State, step: Step)
    requires WellFormed(cfg) && SizesOk(cfg, s) && Enabled(cfg, s, step) && Lost(s)
    ensures Lost(Do(cfg, s, step))
  {
  }

  /** Once a side has given up, no continuation of the run ends in success. */
  lemma {:induction false} LostStaysLost(cfg: Config, run: seq<Step>, more: seq<Step>)
    requires WellFormed(cfg) && Run(cfg, run).Some? && Run(cfg, run + more).Some? && Lost(End(cfg, run))
    ensures Lost(End(cfg, run + more)) && !End(cfg, run + more).tx.phase.Finished?
    decreases |more|
  {
    if more == [] {
      assert run + more == run;
    } else {
      var front := more[..|more| - 1];
      assert (run + more)[..|run + more| - 1] == run + front;
      LostStaysLost(cfg, run, front);
      LostStep(cfg, End(cfg, run + front), more[|more| - 1]);
    }
    SafeRun(cfg, run + more);
  }

  // ----- further invariants ----------------------------------------------------------------

  ghost predicate OnWire(wire: set<Dgram>, seqno: nat) {
    exists d :: d in wire && d.seqno == seqno
  }

  /** What was opened was on the wire; a batch ends with the newest datagram, which
      is not on the wire yet; a disk error is only there until the batch ends; and
      a verdict that was read ended the sender. */
  ghost predicate Underway(s: State) {
    && (forall q | q in s.rx.accepted :: OnWire(s.wire, q))
    && (s.tx.batch != [] ==>
          && s.log != [] && s.tx.batch[|s.tx.batch| - 1] == s.log[|s.log| - 1]
          && s.log[|s.log| - 1] !in s.wire
          && (s.tx.phase.Spray? ==> s.log[|s.log| - 1].block == s.tx.phase.block))
    && (s.rx.ioErr ==> s.rx.mode.Batch? || s.rx.mode.Stopped?)
    && (forall i | 0 <= i < s.tx.read <= |s.ctl| && s.ctl[i].Done? :: s.tx.phase.Finished?)
  }

  lemma OnWireGrows(s: State, s': State)
    requires forall q | q in s.rx.accepted :: OnWire(s.wire, q)
    requires s.wire <= s'.wire
    requires forall q | q in s'.rx.accepted && q !in s.rx.accepted :: OnWire(s'.wire, q)
    ensures forall q | q in s'.rx.accepted :: OnWire(s'.wire, q)
  {
    forall q | q in s'.rx.accepted && q in s.rx.accepted
      ensures OnWire(s'.wire, q)
    {
      var d :| d in s.wire && d.seqno == q;
      assert d in s'.wire;
    }
  }

  lemma UnderwaySend(cfg: Config, s: State, drop: bool)
    requires WellFormed(cfg) && SizesOk(cfg, s) && Enabled(cfg, s, Send(drop))
    requires Underway(s) && Flushing(cfg, s) && Numbered(s)
    ensures Underway(SenderStep(cfg, s, Send(drop)))
  {
  }

  lemma UnderwaySender(cfg: Config, s: State, step: Step)
    requires WellFormed(cfg) && SizesOk(cfg, s) && Enabled(cfg, s, step) && OfSender(step) && !step.Send?
    requires Underway(s) && Flushing(cfg, s)
    ensures Underway(SenderStep(cfg, s, step))
  {
    OnWireGrows(s, SenderStep(cfg, s, step));
  }

  lemma UnderwayReceiver(cfg: Config, s: State, step: Step)
    requires WellFormed(cfg) && SizesOk(cfg, s) && Enabled(cfg, s, step) && !OfSender(step)
    requires Underway(s)
    ensures Underway(ReceiverStep(cfg, s, step))
  {
    SizesReceiver(cfg, s, step);
    if step.Recv? {
      assert OnWire(s.wire, s.log[step.index].seqno);
    }
    OnWireGrows(s, ReceiverStep(cfg, s, step));
  }

  lemma {:induction false} UnderwayRun(cfg: Config, run: seq<Step>)
    requires WellFormed(cfg) && Run(cfg, run).Some?
    ensures Underway(End(cfg, run))
  {
    if run != [] {
      var front, step := run[..|run| - 1], run[|run| - 1];
      UnderwayRun(cfg, front);
      NothingIsLeftBehind(cfg, front);
      SequenceAccounting(cfg, front);
      if step.Send? {
        UnderwaySend(cfg, End(cfg, front), step.drop);
      } else if OfSender(step) {
        UnderwaySender(cfg, End(cfg, front), step);
      } else {
        UnderwayReceiver(cfg, End(cfg, front), step);
      }
    }
  }

  /** Packet `p` was opened from a datagram of block `b`. */
  ghost predicate CameFrom(log: seq<Dgram>, accepted: set<nat>, b: nat, p: Packet) {
    exists i :: 0 <= i < |log| && log[i].block == b && log[i].pkt == p && log[i].seqno in accepted
  }

  ghost predicate FedFromLog(s: State) {
    forall b: nat, p | b < |s.rx.blocks| && s.rx.blocks[b].Pending? && p in s.rx.blocks[b].fed ::
      CameFrom(s.log, s.rx.accepted, b, p)
  }

  lemma FedFromLogStep(cfg: Config, s: State, step: Step)
    requires WellFormed(cfg) && !cfg.forging && SizesOk(cfg, s) && Enabled(cfg, s, step)
    requires FedFromLog(s) && Numbered(s)
    ensures FedFromLog(Do(cfg, s, step))
  {
    var s' := Do(cfg, s, step);
    NumberedStep(cfg, s, step);
    if step.Recv? {
      var d := s.log[step.index];
      assert CameFrom(s'.log, s'.rx.accepted, d.block, d.pkt);
    } else {
      BlocksKept(cfg, s, step);
    }
    forall b: nat, p | b < |s.rx.blocks| && s.rx.blocks[b].Pending? && p in s.rx.blocks[b].fed
      ensures CameFrom(s'.log, s'.rx.accepted, b, p)
    {
      var i :| 0 <= i < |s.log| && s.log[i].block == b && s.log[i].pkt == p && s.log[i].seqno in s.rx.accepted;
      assert s'.log[i] == s.log[i];
    }
  }

  lemma {:induction false} FedFromLogRun(cfg: Config, run: seq<Step>)
    requires WellFormed(cfg) && !cfg.forging && Run(cfg, run).Some?
    ensures FedFromLog(End(cfg, run))
  {
    if run != [] {
      FedFromLogRun(cfg, run[..|run| - 1]);
      SequenceAccounting(cfg, run[..|run| - 1]);
      FedFromLogStep(cfg, End(cfg, run[..|run| - 1]), run[|run| - 1]);
    }
  }

  // ----- the block worked on ------------------------------------------------------------------

  /** The first block that is not complete, or the number of blocks. */
  function FirstPending(blocks: seq<Block>): (b: nat)
    ensures b <= |blocks| && (b < |blocks| ==> blocks[b].Pending?)
    ensures forall i | 0 <= i < b :: blocks[i].Complete?
  {
    if blocks == [] || blocks[0].Pending? then 0 else 1 + FirstPending(blocks[1..])
  }

  function Target(s: State): nat {
    FirstPending(s.rx.blocks)
  }

  /** While a block is missing the target is one, and the sender knows it is. */
  lemma TargetIsOutstanding(cfg: Config, run: seq<Step>)
    requires WellFormed(cfg) && Run(cfg, run).Some?
    ensures var s := End(cfg, run);
            && s.rx.decoded <= cfg.layout.numBlocks
            && (s.rx.decoded < cfg.layout.numBlocks <==> IsBlock(cfg, Target(s)))
            && (IsBlock(cfg, Target(s)) ==> !s.tx.acked[Target(s)])
  {
    SafeRun(cfg, run);
    AcksFollowDecoding(cfg, run);
    var s := End(cfg, run);
    CountTrueBound(Flags(s.rx.blocks));
    assert forall b: nat | IsBlock(cfg, b) :: Flags(s.rx.blocks)[b] == s.rx.blocks[b].Complete?;
  }

  /** The newest datagram is on the wire, unopened, and belongs to the target. */
  predicate Useful(s: State) {
    && s.log != []
    && var d := s.log[|s.log| - 1];
       d in s.wire && d.seqno !in s.rx.accepted && d.block == Target(s)
  }

  /** The newest number is acceptable if it was not accepted yet. */
  lemma NewestIsAcceptable(cfg: Config, run: seq<Step>)
    requires WellFormed(cfg) && Run(cfg, run).Some? && Useful(End(cfg, run))
    ensures var s := End(cfg, run); Acceptable(s.rx.accepted, s.log[|s.log| - 1].seqno)
  {
    SequenceAccounting(cfg, run);
    var s := End(cfg, run);
    forall h: nat | IsHighest(s.rx.accepted, h)
      ensures h <= s.log[|s.log| - 1].seqno
    {
      assert Carried(s.log, h);
    }
  }

  /** If no symbol is in the log twice, the last one was not fed before it was opened. */
  lemma LastIsNew(log: seq<Dgram>, accepted: set<nat>, fed: seq<Packet>)
    requires log != [] && log[|log| - 1].seqno !in accepted
    requires forall i, j | 0 <= i < j < |log| :: log[i].block != log[j].block || log[i].pkt.id != log[j].pkt.id
    requires forall p | p in fed :: CameFrom(log, accepted, log[|log| - 1].block, p)
    ensures log[|log| - 1].pkt.id !in Ids(fed)
  {
    var d := log[|log| - 1];
    forall p | p in fed
      ensures p.id != d.pkt.id
    {
      var i :| 0 <= i < |log| && log[i].block == d.block && log[i].pkt == p && log[i].seqno in accepted;
    }
  }

  /** The newest datagram carries a symbol the target has not been fed. */
  lemma NewestIsNew(cfg: Config, run: seq<Step>)
    requires WellFormed(cfg) && !cfg.forging && Run(cfg, run).Some? && Useful(End(cfg, run))
    requires IsBlock(cfg, Target(End(cfg, run)))
    ensures var s := End(cfg, run); s.log[|s.log| - 1].pkt.id !in Ids(s.rx.blocks[Target(s)].fed)
  {
    FedFromLogRun(cfg, run);
    NoSymbolTwice(cfg, run);
    var s := End(cfg, run);
    LastIsNew(s.log, s.rx.accepted, s.rx.blocks[Target(s)].fed);
  }

  /** Symbols the target still lacks. */
  ghost function Deficit(cfg: Config, s: State, threshold: nat -> nat): nat
    requires WellFormed(cfg) && SizesOk(cfg, s)
  {
    if IsBlock(cfg, Target(s)) then
      Monus(threshold(|Slice(cfg, cfg.data, Target(s))|), |Ids(s.rx.blocks[Target(s)].fed)|)
    else 0
  }

  lemma IdsSnoc(ps: seq<Packet>, p: Packet)
    ensures p.id !in Ids(ps) ==> |Ids(ps + [p])| == |Ids(ps)| + 1
  {
    assert Ids(ps + [p]) == Ids(ps) + {p.id};
  }

  /** Feeding a new symbol completes a block or makes it lack less. */
  lemma FeedNew(cfg: Config, rx: Receiver, b: nat, pkt: Packet, threshold: nat -> nat)
    requires WellFormed(cfg) && Decodes(cfg.codec, threshold)
    requires |rx.blocks| == cfg.layout.numBlocks && |rx.file| == cfg.layout.fileSize
    requires IsBlock(cfg, b) && rx.blocks[b].Pending? && pkt.id !in Ids(rx.blocks[b].fed)
    requires Genuine(cfg.codec, Slice(cfg, cfg.data, b), rx.blocks[b].fed + [pkt])
    ensures var r, n := Collect(cfg, rx, b, pkt, Wrote), threshold(|Slice(cfg, cfg.data, b)|);
            && r.mode == rx.mode && r.ioErr == rx.ioErr && |r.blocks| == |rx.blocks|
            && (|| (r.decoded == rx.decoded + 1)
                || (r.decoded == rx.decoded && r.blocks == rx.blocks[b := Pending(rx.blocks[b].fed + [pkt])]
                    && Monus(n, |Ids(rx.blocks[b].fed + [pkt])|) < Monus(n, |Ids(rx.blocks[b].fed)|)))
  {
    IdsSnoc(rx.blocks[b].fed, pkt);
    BlockBounds(cfg.layout, b);
  }

  lemma FedIsGenuine(cfg: Config, run: seq<Step>)
    requires WellFormed(cfg) && Honest(cfg) && Run(cfg, run).Some? && Useful(End(cfg, run))
    requires IsBlock(cfg, Target(End(cfg, run)))
    ensures var s := End(cfg, run);
            Genuine(cfg.codec, Slice(cfg, cfg.data, Target(s)), s.rx.blocks[Target(s)].fed + [s.log[|s.log| - 1].pkt])
  {
    ContentsRun(cfg, run);
  }

  lemma TargetKept(blocks: seq<Block>, fed: seq<Packet>)
    requires FirstPending(blocks) < |blocks|
    ensures FirstPending(blocks[FirstPending(blocks) := Pending(fed)]) == FirstPending(blocks)
  {
    var b := FirstPending(blocks);
    var c := FirstPending(blocks[b := Pending(fed)]);
    assert blocks[b := Pending(fed)][b].Pending?;
  }

  /** The receiver can open the newest datagram, and it adds to the target. */
  ghost predicate Feedable(cfg: Config, s: State)
    requires WellFormed(cfg) && SizesOk(cfg, s) && Useful(s) && IsBlock(cfg, Target(s))
  {
    var pkt, fed := s.log[|s.log| - 1].pkt, s.rx.blocks[Target(s)].fed;
    && Enabled(cfg, s, Recv(|s.log| - 1, Wrote))
    && pkt.id !in Ids(fed)
    && Genuine(cfg.codec, Slice(cfg, cfg.data, Target(s)), fed + [pkt])
  }

  lemma NewestIsFeedable(cfg: Config, run: seq<Step>)
    requires WellFormed(cfg) && Honest(cfg) && Run(cfg, run).Some? && End(cfg, run).rx.mode.Batch?
    requires Useful(End(cfg, run)) && IsBlock(cfg, Target(End(cfg, run)))
    ensures Feedable(cfg, End(cfg, run))
  {
    NewestIsAcceptable(cfg, run);
    NewestIsNew(cfg, run);
    FedIsGenuine(cfg, run);
  }

  // ----- the sender's way to a useful datagram ---------------------------------------------------

  /** The target comes up again in this round, or its packets are going out. */
  predicate Ahead(s: State) {
    || Target(s) in Remaining(s.tx.phase)
    || (s.tx.phase.Spray? && s.tx.phase.block == Target(s) && (s.tx.phase.queue != [] || s.tx.batch != []))
  }

  function Kind(phase: Phase): nat {
    match phase
    case Spray(_, _, _) => 4
    case AfterBlock(_) => 3
    case NextBlock(_) => 2
    case Settling => 1
    case _ => 0
  }

  function SprayWork(tx: Sender): nat {
    if tx.phase.Spray? then 2 * |tx.phase.queue| + |tx.batch| else 0
  }

  function SprayNext(tx: Sender, maxSegs: nat): Step
    requires tx.phase.Spray?
  {
    if tx.batch != [] && (|tx.batch| == maxSegs || tx.phase.queue == []) then FlushBatch(Flushed)
    else if tx.phase.queue != [] then Send(false)
    else EndBlock
  }

  /** What the sender does next when it finds no feedback and every flush succeeds. */
  function SenderNext(tx: Sender, maxSegs: nat): Step {
    match tx.phase
    case Spray(_, _, _) => SprayNext(tx, maxSegs)
    case NextBlock(_) => Start
    case WaitDone => Wait
    case _ => Leave
  }

  /** Without a verdict, and with blocks missing, the sender is in its round loop. */
  lemma SenderIsBusy(cfg: Config, run: seq<Step>)
    requires WellFormed(cfg) && Run(cfg, run).Some? && !Lost(End(cfg, run)) && !End(cfg, run).tx.gone
    requires !End(cfg, run).rx.mode.Verified? && IsBlock(cfg, Target(End(cfg, run)))
    ensures InRound(End(cfg, run).tx.phase) || End(cfg, run).tx.phase.Top? || End(cfg, run).tx.phase.Settling?
  {
    SafeRun(cfg, run);
    TargetIsOutstanding(cfg, run);
  }

  /** Flushing packets of the target makes the newest datagram useful. */
  lemma FlushIsUseful(cfg: Config, s: State)
    requires WellFormed(cfg) && SizesOk(cfg, s) && Enabled(cfg, s, FlushBatch(Flushed))
    requires Underway(s) && Flushing(cfg, s) && Numbered(s) && s.tx.phase.block == Target(s)
    ensures Useful(Do(cfg, s, FlushBatch(Flushed)))
  {
  }

  /** The sender is nearer to a useful datagram in `t` than in `s`. */
  predicate Closer(t: State, s: State) {
    || (Ahead(t) && !Ahead(s))
    || (&& Ahead(t) == Ahead(s)
        && (|| |Remaining(t.tx.phase)| < |Remaining(s.tx.phase)|
            || (&& |Remaining(t.tx.phase)| == |Remaining(s.tx.phase)|
                && (|| Kind(t.tx.phase) < Kind(s.tx.phase)
                    || (Kind(t.tx.phase) == Kind(s.tx.phase) && SprayWork(t.tx) < SprayWork(s.tx))))))
  }

  lemma LeaveAdvances(cfg: Config, s: State)
    requires WellFormed(cfg) && SizesOk(cfg, s) && AtDrain(s.tx.phase) && !s.tx.gone
    requires IsBlock(cfg, Target(s)) && !s.tx.acked[Target(s)]
    ensures Closer(s.(tx := LeaveDrain(s.tx)), s)
  {
    OutstandingMember(s.tx.acked, Target(s));
  }

  lemma StartAdvances(cfg: Config, s: State)
    requires WellFormed(cfg) && SizesOk(cfg, s) && s.tx.phase.NextBlock?
    requires IsBlock(cfg, Target(s)) && !s.tx.acked[Target(s)]
    ensures Closer(s.(tx := StartBlock(cfg, s.tx)), s)
  {
    var rest := s.tx.phase.rest;
    if rest != [] {
      assert IsBlock(cfg, rest[0]);
      assert rest == [rest[0]] + rest[1..];
    }
  }

  lemma SprayAdvances(cfg: Config, s: State)
    requires WellFormed(cfg) && SizesOk(cfg, s) && s.tx.phase.Spray?
    requires Underway(s) && Flushing(cfg, s) && Numbered(s)
    ensures var step := SprayNext(s.tx, cfg.maxSegs);
            && Enabled(cfg, s, step)
            && (Useful(Do(cfg, s, step)) || Closer(Do(cfg, s, step), s))
  {
    if SprayNext(s.tx, cfg.maxSegs).FlushBatch? && s.tx.phase.block == Target(s) {
      FlushIsUseful(cfg, s);
    }
  }

  lemma SenderAdvances(cfg: Config, s: State)
    requires WellFormed(cfg) && SizesOk(cfg, s) && Underway(s) && Flushing(cfg, s) && Numbered(s) && !s.tx.gone
    requires InRound(s.tx.phase) || s.tx.phase.Top? || s.tx.phase.Settling?
    requires IsBlock(cfg, Target(s)) && !s.tx.acked[Target(s)]
    ensures var step := SenderNext(s.tx, cfg.maxSegs);
            && Enabled(cfg, s, step)
            && var t := Do(cfg, s, step);
               t.rx == s.rx && !t.tx.phase.Failed? && !t.tx.gone && (Useful(t) || Closer(t, s))
  {
    match s.tx.phase {
      case Spray(_, _, _) => SprayAdvances(cfg, s);
      case NextBlock(_) => StartAdvances(cfg, s);
      case _ => LeaveAdvances(cfg, s);
    }
  }

  // ----- the schedule ------------------------------------------------------------------------------

  /** Steps the receiver takes before it opens the newest datagram, or before it
      waits for the sender. */
  function ReceiverWork(s: State): nat {
    if Useful(s) then
      match s.rx.mode
      case Flush => |s.rx.pendingAcks| + 2
      case Select => 1
      case _ => 0
    else
      match s.rx.mode
      case Batch => |s.rx.pendingAcks| + 2
      case Flush => |s.rx.pendingAcks| + 1
      case _ => 0
  }

  /** Neither side has given up, and the sender is still there if it is needed. */
  ghost predicate Live(cfg: Config, s: State) {
    !Lost(s) && (!s.tx.gone || s.rx.decoded == cfg.layout.numBlocks)
  }

  ghost predicate Nearer(cfg: Config, threshold: nat -> nat, t: State, s: State)
    requires WellFormed(cfg) && SizesOk(cfg, s) && SizesOk(cfg, t)
  {
    || t.rx.decoded > s.rx.decoded
    || (&& t.rx.decoded == s.rx.decoded
        && (|| Deficit(cfg, t, threshold) < Deficit(cfg, s, threshold)
            || (&& Deficit(cfg, t, threshold) == Deficit(cfg, s, threshold)
                && (|| (Useful(t) && !Useful(s))
                    || (&& Useful(t) == Useful(s)
                        && (|| ReceiverWork(t) < ReceiverWork(s)
                            || (ReceiverWork(t) == ReceiverWork(s) && Closer(t, s))))))))
  }

  /** Opening the newest datagram completes the target or makes it lack less. */
  lemma FeedTarget(cfg: Config, s: State, t: State, threshold: nat -> nat)
    requires WellFormed(cfg) && Decodes(cfg.codec, threshold) && SizesOk(cfg, s) && SizesOk(cfg, t)
    requires Useful(s) && IsBlock(cfg, Target(s)) && Feedable(cfg, s) && !Lost(s) && !s.tx.gone
    requires t == Do(cfg, s, Recv(|s.log| - 1, Wrote))
    ensures Live(cfg, t) && Nearer(cfg, threshold, t, s)
  {
    var b, d := Target(s), s.log[|s.log| - 1];
    FeedNew(cfg, s.rx, b, d.pkt, threshold);
    TargetKept(s.rx.blocks, s.rx.blocks[b].fed + [d.pkt]);
  }

  /** The receiver opens the newest datagram. */
  lemma OpenNewest(cfg: Config, run: seq<Step>, threshold: nat -> nat) returns (step: Step)
    requires WellFormed(cfg) && Honest(cfg) && Decodes(cfg.codec, threshold) && Run(cfg, run).Some?
    requires !Lost(End(cfg, run)) && !End(cfg, run).tx.gone && End(cfg, run).rx.mode.Batch?
    requires Useful(End(cfg, run)) && IsBlock(cfg, Target(End(cfg, run)))
    ensures Run(cfg, run + [step]).Some?
    ensures Live(cfg, End(cfg, run + [step])) && Nearer(cfg, threshold, End(cfg, run + [step]), End(cfg, run))
  {
    NewestIsFeedable(cfg, run);
    step := Recv(|End(cfg, run).log| - 1, Wrote);
    Extend(cfg, run, step);
    FeedTarget(cfg, End(cfg, run), End(cfg, run + [step]), threshold);
  }

  /** The receiver ends a batch, acknowledges, or takes up a batch. */
  lemma ReceiverAdvances(cfg: Config, s: State, t: State, step: Step, threshold: nat -> nat)
    requires WellFormed(cfg) && SizesOk(cfg, s) && SizesOk(cfg, t) && Live(cfg, s) && (s.rx.ioErr ==> s.rx.mode.Batch?)
    requires || (step.EndBatch? && s.rx.mode.Batch? && !Useful(s))
             || (step.AckNext? && s.rx.mode.Flush?)
             || (step.Begin? && s.rx.mode.Select? && Useful(s) && s.rx.decoded < cfg.layout.numBlocks)
    requires t == Do(cfg, s, step)
    ensures Live(cfg, t) && Nearer(cfg, threshold, t, s)
  {
    assert Useful(t) == Useful(s) && Deficit(cfg, t, threshold) == Deficit(cfg, s, threshold);
  }

  /** The sender moves on while the receiver waits. */
  lemma SenderMoves(cfg: Config, run: seq<Step>, threshold: nat -> nat) returns (step: Step)
    requires WellFormed(cfg) && Run(cfg, run).Some? && Live(cfg, End(cfg, run))
    requires End(cfg, run).rx.mode.Select? && End(cfg, run).rx.decoded < cfg.layout.numBlocks && !Useful(End(cfg, run))
    ensures Run(cfg, run + [step]).Some?
    ensures Live(cfg, End(cfg, run + [step])) && Nearer(cfg, threshold, End(cfg, run + [step]), End(cfg, run))
  {
    TargetIsOutstanding(cfg, run);
    SenderIsBusy(cfg, run);
    UnderwayRun(cfg, run);
    NothingIsLeftBehind(cfg, run);
    SequenceAccounting(cfg, run);
    var s := End(cfg, run);
    SenderAdvances(cfg, s);
    step := SenderNext(s.tx, cfg.maxSegs);
    Extend(cfg, run, step);
  }

  /** One step of the schedule. */
  lemma Next(cfg: Config, run: seq<Step>, threshold: nat -> nat) returns (step: Step)
    requires WellFormed(cfg) && Honest(cfg) && Decodes(cfg.codec, threshold) && Run(cfg, run).Some?
    requires Live(cfg, End(cfg, run)) && !End(cfg, run).rx.mode.Verified?
    ensures Run(cfg, run + [step]).Some? && Live(cfg, End(cfg, run + [step]))
    ensures End(cfg, run + [step]).rx.mode.Verified?
            || Nearer(cfg, threshold, End(cfg, run + [step]), End(cfg, run))
  {
    TargetIsOutstanding(cfg, run);
    UnderwayRun(cfg, run);
    var s := End(cfg, run);
    if s.rx.mode.Batch? && Useful(s) {
      FreshRun(cfg, run);
      step := OpenNewest(cfg, run, threshold);
    } else if s.rx.mode.Select? && s.rx.decoded == cfg.layout.numBlocks {
      step := Verify;
      Extend(cfg, run, step);
    } else if s.rx.mode.Select? && !Useful(s) {
      step := SenderMoves(cfg, run, threshold);
    } else {
      step := if s.rx.mode.Batch? then EndBatch else if s.rx.mode.Flush? then AckNext else Begin;
      Extend(cfg, run, step);
      ReceiverAdvances(cfg, s, End(cfg, run + [step]), step, threshold);
    }
  }

  /** The file can be delivered and verified. */
  lemma {:induction false} Deliver(cfg: Config, run: seq<Step>, threshold: nat -> nat) returns (full: seq<Step>)
    requires WellFormed(cfg) && Honest(cfg) && Decodes(cfg.codec, threshold) && Run(cfg, run).Some?
    requires Live(cfg, End(cfg, run))
    ensures run <= full && Run(cfg, full).Some? && Live(cfg, End(cfg, full)) && End(cfg, full).rx.mode.Verified?
    decreases if End(cfg, run).rx.mode.Verified? then 0 else 1,
              cfg.layout.numBlocks - End(cfg, run).rx.decoded, Deficit(cfg, End(cfg, run), threshold),
              !Useful(End(cfg, run)), ReceiverWork(End(cfg, run)), !Ahead(End(cfg, run)),
              |Remaining(End(cfg, run).tx.phase)|, Kind(End(cfg, run).tx.phase), SprayWork(End(cfg, run).tx)
  {
    if End(cfg, run).rx.mode.Verified? {
      full := run;
    } else {
      TargetIsOutstanding(cfg, run);
      var step := Next(cfg, run, threshold);
      full := Deliver(cfg, run + [step], threshold);
    }
  }

  // ----- reading the verdict -------------------------------------------------------------------------

  function VerdictNext(tx: Sender, maxSegs: nat): Step {
    if AtDrain(tx.phase) then Drain else SenderNext(tx, maxSegs)
  }

  /** Steps left before the sender looks for feedback. */
  function DrainRank(phase: Phase): nat {
    if phase.NextBlock? then 2 else if phase.Spray? then 1 else 0
  }

  predicate CloserToVerdict(t: State, s: State) {
    || t.tx.read > s.tx.read
    || (&& t.tx.read == s.tx.read
        && (|| DrainRank(t.tx.phase) < DrainRank(s.tx.phase)
            || (&& DrainRank(t.tx.phase) == DrainRank(s.tx.phase)
                && (|| |Remaining(t.tx.phase)| < |Remaining(s.tx.phase)|
                    || (&& |Remaining(t.tx.phase)| == |Remaining(s.tx.phase)| && SprayWork(t.tx) < SprayWork(s.tx))))))
  }

  /** After the verdict was written the sender comes nearer to it with every step. */
  lemma VerdictComes(cfg: Config, s: State)
    requires WellFormed(cfg) && SizesOk(cfg, s) && Flushing(cfg, s)
    requires !s.tx.phase.Failed? && !s.tx.phase.Finished? && s.tx.read < |s.ctl|
    ensures var step := VerdictNext(s.tx, cfg.maxSegs);
            && Enabled(cfg, s, step)
            && var t := Do(cfg, s, step);
               t.rx == s.rx && t.ctl == s.ctl && !t.tx.phase.Failed? && CloserToVerdict(t, s)
  {
  }

  lemma {:induction false} ReadVerdict(cfg: Config, run: seq<Step>) returns (full: seq<Step>)
    requires WellFormed(cfg) && Run(cfg, run).Some?
    requires End(cfg, run).rx.mode.Verified? && !End(cfg, run).tx.phase.Failed?
    ensures run <= full && Run(cfg, full).Some? && End(cfg, full).tx.phase.Finished?
    decreases |End(cfg, run).ctl| - End(cfg, run).tx.read, DrainRank(End(cfg, run).tx.phase),
              |Remaining(End(cfg, run).tx.phase)|, SprayWork(End(cfg, run).tx)
  {
    var s := End(cfg, run);
    if s.tx.phase.Finished? {
      full := run;
    } else {
      SafeRun(cfg, run);
      UnderwayRun(cfg, run);
      NothingIsLeftBehind(cfg, run);
      VerdictComes(cfg, s);
      var step := VerdictNext(s.tx, cfg.maxSegs);
      Extend(cfg, run, step);
      full := ReadVerdict(cfg, run + [step]);
    }
  }

  /** Wherever a run has come to, as long as neither side has given up (and the
      receiver's socket has not vanished with blocks still missing), it can be
      continued so that the sender finishes with success and the file is the
      source, whatever was lost on the way. */
  lemma {:induction false} NoDeadEnd(cfg: Config, run: seq<Step>, threshold: nat -> nat) returns (full: seq<Step>)
    requires WellFormed(cfg) && Honest(cfg) && Decodes(cfg.codec, threshold) && Run(cfg, run).Some?
    requires Live(cfg, End(cfg, run))
    ensures run <= full && Run(cfg, full).Some?
    ensures End(cfg, full).tx.phase == Finished(true) && End(cfg, full).rx.file == cfg.data
  {
    full := Deliver(cfg, run, threshold);
    full := ReadVerdict(cfg, full);
    FileArrivesIntact(cfg, full);
  }
}
