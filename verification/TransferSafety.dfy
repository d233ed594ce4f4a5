/**
 * Safety of the transfer over every run: whatever is lost, reordered or
 * duplicated, and however the two loops interleave.
 */
module TransferSafety {
  import opened Prelude
  import opened Blocks
  import opened Transfer
  import FeedbackLoop

  /** The state after a run of steps; none if some step was not enabled. */
  ghost function Run(cfg: Config, steps: seq<Step>): (r: Option<State>)
    requires WellFormed(cfg)
    ensures r.Some? ==> SizesOk(cfg, r.value)
  {
    if steps == [] then Some(Init(cfg))
    else
      var r, step := Run(cfg, steps[..|steps| - 1]), steps[|steps| - 1];
      if r.None? || !Enabled(cfg, r.value, step) then None
      else
        SizesStep(cfg, r.value, step);
        Some(Do(cfg, r.value, step))
  }

  lemma {:induction false} OutstandingMember(acked: seq<bool>, b: nat)
    ensures b in Outstanding(acked) <==> b < |acked| && !acked[b]
  {
    if acked != [] {
      OutstandingMember(acked[..|acked| - 1], b);
    }
  }

  lemma {:induction false} OutstandingOrdered(acked: seq<bool>)
    ensures forall i | 0 <= i < |Outstanding(acked)| :: Outstanding(acked)[i] < |acked|
    ensures forall i, j | 0 <= i < j < |Outstanding(acked)| :: Outstanding(acked)[i] < Outstanding(acked)[j]
  {
    if acked != [] {
      OutstandingOrdered(acked[..|acked| - 1]);
    }
  }

  /** The outstanding blocks are exactly the unacknowledged ones, in order. */
  lemma {:induction false} OutstandingExact(acked: seq<bool>)
    ensures forall b: nat :: b in Outstanding(acked) <==> b < |acked| && !acked[b]
    ensures forall i | 0 <= i < |Outstanding(acked)| :: Outstanding(acked)[i] < |acked|
    ensures forall i, j | 0 <= i < j < |Outstanding(acked)| :: Outstanding(acked)[i] < Outstanding(acked)[j]
  {
    OutstandingOrdered(acked);
    forall b: nat
      ensures b in Outstanding(acked) <==> b < |acked| && !acked[b]
    {
      OutstandingMember(acked, b);
    }
  }

  /** When the feedback has gone quiet: before a round the sender waits for the verdict if
      and only if every block is acknowledged or the receiver's socket is gone, and
      otherwise starts a round over exactly the blocks not acknowledged; in a round it
      goes on with the next block; after one it starts over. */
  lemma RoundOrWait(tx: Sender)
    requires AtDrain(tx.phase)
    ensures var phase := LeaveDrain(tx).phase;
            && LeaveDrain(tx) == tx.(phase := phase)
            && (tx.phase.Top? ==> (phase == WaitDone <==> tx.gone || forall b | 0 <= b < |tx.acked| :: tx.acked[b]))
            && (tx.phase.Top? && phase != WaitDone ==>
                  phase.NextBlock? && forall b: nat :: b in phase.rest <==> b < |tx.acked| && !tx.acked[b])
            && (tx.phase.AfterBlock? ==> phase == NextBlock(tx.phase.rest))
            && (tx.phase.Settling? ==> phase == Top)
  {
    OutstandingExact(tx.acked);
    if tx.phase.Top? && Outstanding(tx.acked) != [] {
      assert Outstanding(tx.acked)[0] in Outstanding(tx.acked);
    }
  }

  /** While it waits for the verdict the sender learns nothing else: any other frame is
      read and dropped, and the round loop starts over. */
  lemma WaitDropsFeedback(tx: Sender, f: Frame)
    ensures var tx' := WaitFrame(tx, f);
            && (f.Done? ==> tx'.phase == Finished(f.ok)) && (!f.Done? ==> tx'.phase == Top)
            && tx' == tx.(phase := tx'.phase, read := tx.read + 1)
  {
  }

  lemma SizesReceiver(cfg: Config, s: State, step: Step)
    requires WellFormed(cfg) && SizesOk(cfg, s) && Enabled(cfg, s, step) && !OfSender(step)
    ensures SizesOk(cfg, ReceiverStep(cfg, s, step))
    ensures ReceiverStep(cfg, s, step).tx == s.tx
  {
  }

  lemma SizesStart(cfg: Config, s: State)
    requires WellFormed(cfg) && SizesOk(cfg, s) && s.tx.phase.NextBlock?
    ensures SizesOk(cfg, s.(tx := StartBlock(cfg, s.tx)))
  {
    var rest := s.tx.phase.rest;
    if rest != [] {
      assert forall i | 0 <= i < |rest[1..]| :: rest[1..][i] == rest[i + 1];
    }
  }

  lemma SizesLeave(cfg: Config, s: State)
    requires WellFormed(cfg) && SizesOk(cfg, s) && AtDrain(s.tx.phase)
    ensures SizesOk(cfg, s.(tx := LeaveDrain(s.tx)))
  {
    OutstandingExact(s.tx.acked);
  }

  lemma SizesSender(cfg: Config, s: State, step: Step)
    requires WellFormed(cfg) && SizesOk(cfg, s) && Enabled(cfg, s, step) && OfSender(step)
    ensures SizesOk(cfg, SenderStep(cfg, s, step))
    ensures SenderStep(cfg, s, step).rx == s.rx && SenderStep(cfg, s, step).ctl == s.ctl
  {
    match step {
      case Start => SizesStart(cfg, s);
      case Leave => SizesLeave(cfg, s);
      case _ =>
    }
  }

  lemma SizesStep(cfg: Config, s: State, step: Step)
    requires WellFormed(cfg) && SizesOk(cfg, s) && Enabled(cfg, s, step)
    ensures SizesOk(cfg, Do(cfg, s, step))
  {
    if OfSender(step) {
      SizesSender(cfg, s, step);
    } else {
      SizesReceiver(cfg, s, step);
    }
  }

  // ----- acknowledgements -------------------------------------------------------------

  /** The blocks acknowledged on the control stream, in order. */
  ghost function Decodeds(ctl: seq<Frame>): seq<nat> {
    if ctl == [] then []
    else Decodeds(ctl[..|ctl| - 1]) + (if ctl[|ctl| - 1].BlockDecoded? then [ctl[|ctl| - 1].index] else [])
  }

  lemma DecodedsSnoc(ctl: seq<Frame>, f: Frame)
    ensures Decodeds(ctl + [f]) == Decodeds(ctl) + (if f.BlockDecoded? then [f.index] else [])
  {
    assert (ctl + [f])[..|ctl|] == ctl;
  }

  ghost function Flags(blocks: seq<Block>): (f: seq<bool>)
    ensures |f| == |blocks| && forall i | 0 <= i < |f| :: f[i] == blocks[i].Complete?
  {
    seq(|blocks|, i requires 0 <= i < |blocks| => blocks[i].Complete?)
  }

  /** What the receiver has acknowledged or is about to acknowledge. */
  ghost function AckList(s: State): seq<nat> {
    Decodeds(s.ctl) + s.rx.pendingAcks
  }

  /** Complete blocks are acknowledged once each, and nothing else is. */
  ghost predicate RxAcks(cfg: Config, s: State)
    requires SizesOk(cfg, s)
  {
    && Distinct(AckList(s))
    && (forall b: nat :: b in AckList(s) <==> IsBlock(cfg, b) && s.rx.blocks[b].Complete?)
    && s.rx.decoded == CountTrue(Flags(s.rx.blocks))
    && (s.rx.mode.Select? ==> s.rx.pendingAcks == [])
  }

  lemma FlagsUpdate(blocks: seq<Block>, b: nat, x: Block)
    requires b < |blocks|
    ensures Flags(blocks[b := x]) == Flags(blocks)[b := x.Complete?]
  {
  }

  /** Completing a block adds it to the acknowledgement list. */
  lemma CompleteAcks(cfg: Config, s: State, s': State, b: nat)
    requires SizesOk(cfg, s) && SizesOk(cfg, s') && RxAcks(cfg, s) && !s'.rx.mode.Select?
    requires IsBlock(cfg, b) && s.rx.blocks[b].Pending? && s'.rx.blocks == s.rx.blocks[b := Complete]
    requires s'.ctl == s.ctl && s'.rx.pendingAcks == s.rx.pendingAcks + [b] && s'.rx.decoded == s.rx.decoded + 1
    ensures RxAcks(cfg, s')
  {
    FlagsUpdate(s.rx.blocks, b, Complete);
    CountTrueSet(Flags(s.rx.blocks), b);
    assert AckList(s') == AckList(s) + [b];
  }

  /** Feeding a datagram keeps the acknowledgement list exact. */
  lemma CollectAcks(cfg: Config, s: State, s': State, b: nat, pkt: Packet, w: WriteResult)
    requires WellFormed(cfg) && SizesOk(cfg, s) && RxAcks(cfg, s) && s.rx.mode.Batch?
    requires s'.ctl == s.ctl && s'.tx == s.tx && s'.rx == Collect(cfg, s.rx, b, pkt, w).(accepted := s'.rx.accepted)
    ensures SizesOk(cfg, s') && RxAcks(cfg, s')
  {
    assert SizesOk(cfg, s');
    if b < cfg.layout.numBlocks && s.rx.blocks[b].Pending? {
      if s'.rx.blocks[b].Complete? {
        CompleteAcks(cfg, s, s', b);
      } else {
        FlagsUpdate(s.rx.blocks, b, s'.rx.blocks[b]);
        assert Flags(s'.rx.blocks) == Flags(s.rx.blocks);
        assert AckList(s') == AckList(s);
      }
    } else {
      assert AckList(s') == AckList(s);
    }
  }

  lemma RxAcksStep(cfg: Config, s: State, step: Step)
    requires WellFormed(cfg) && SizesOk(cfg, s) && Enabled(cfg, s, step) && RxAcks(cfg, s)
    requires !OfSender(step)
    ensures SizesOk(cfg, ReceiverStep(cfg, s, step)) && RxAcks(cfg, ReceiverStep(cfg, s, step))
  {
    var s' := ReceiverStep(cfg, s, step);
    SizesReceiver(cfg, s, step);
    match step {
      case Recv(index, w) =>
        CollectAcks(cfg, s, s', s.log[index].block, s.log[index].pkt, w);
      case RecvForged(b, pkt, w) =>
        CollectAcks(cfg, s, s', b, pkt, w);
      case AckNext =>
        if s.rx.pendingAcks != [] {
          DecodedsSnoc(s.ctl, BlockDecoded(s.rx.pendingAcks[0]));
          assert AckList(s') == AckList(s);
        }
      case Tick(span) =>
        DecodedsSnoc(s.ctl, Progress(s.rx.pkts, span));
        assert AckList(s') == AckList(s);
      case Verify =>
        DecodedsSnoc(s.ctl, s'.ctl[|s.ctl|]);
        assert AckList(s') == AckList(s);
      case _ =>
    }
  }

  // ----- the sender's view of acknowledgements --------------------------------------------

  /** What the sender has read off the control stream. */
  ghost function Heard(s: State): seq<nat>
    requires s.tx.read <= |s.ctl|
  {
    Decodeds(s.ctl[..s.tx.read])
  }

  /** The sender's table never runs ahead of what it has heard, and as long as the
      receiver's socket is there it holds everything it has heard. */
  ghost predicate TxAcks(cfg: Config, s: State)
    requires SizesOk(cfg, s)
  {
    && s.tx.ackedCount == CountTrue(s.tx.acked)
    && (forall b: nat | IsBlock(cfg, b) && s.tx.acked[b] :: b in Heard(s))
    && (!s.tx.gone ==> forall b: nat | IsBlock(cfg, b) && b in Heard(s) :: s.tx.acked[b])
    && (s.tx.phase.WaitDone? ==> s.tx.gone || forall b: nat | IsBlock(cfg, b) :: s.tx.acked[b])
  }

  lemma HeardNext(s: State)
    requires s.tx.read < |s.ctl|
    ensures Decodeds(s.ctl[..s.tx.read + 1])
            == Heard(s) + (if s.ctl[s.tx.read].BlockDecoded? then [s.ctl[s.tx.read].index] else [])
  {
    assert s.ctl[..s.tx.read + 1] == s.ctl[..s.tx.read] + [s.ctl[s.tx.read]];
    DecodedsSnoc(s.ctl[..s.tx.read], s.ctl[s.tx.read]);
  }

  /** Hearing one frame, with the table updated or the frame discarded. */
  lemma TxAcksHear(cfg: Config, s: State, s': State)
    requires SizesOk(cfg, s) && SizesOk(cfg, s') && TxAcks(cfg, s) && s.tx.read < |s.ctl|
    requires s'.ctl == s.ctl && s'.tx.read == s.tx.read + 1 && s'.tx.gone == s.tx.gone
    requires s'.tx.phase.WaitDone? ==> s'.tx.phase == s.tx.phase
    requires
      || (&& s'.tx.acked == TakeFrame(s.tx, s.ctl[s.tx.read]).acked
          && s'.tx.ackedCount == TakeFrame(s.tx, s.ctl[s.tx.read]).ackedCount)
      || (s'.tx.acked == s.tx.acked && s'.tx.ackedCount == s.tx.ackedCount && s.tx.phase.WaitDone?)
    ensures TxAcks(cfg, s')
  {
    HeardNext(s);
    var f := s.ctl[s.tx.read];
    if f.BlockDecoded? && f.index < |s.tx.acked| && !s.tx.acked[f.index] {
      CountTrueSet(s.tx.acked, f.index);
    }
  }

  lemma TxAcksLeave(cfg: Config, s: State)
    requires WellFormed(cfg) && SizesOk(cfg, s) && TxAcks(cfg, s) && AtDrain(s.tx.phase)
    ensures SizesOk(cfg, s.(tx := LeaveDrain(s.tx))) && TxAcks(cfg, s.(tx := LeaveDrain(s.tx)))
  {
    OutstandingExact(s.tx.acked);
  }

  lemma TxAcksSender(cfg: Config, s: State, step: Step)
    requires WellFormed(cfg) && SizesOk(cfg, s) && Enabled(cfg, s, step) && TxAcks(cfg, s) && OfSender(step)
    ensures SizesOk(cfg, SenderStep(cfg, s, step)) && TxAcks(cfg, SenderStep(cfg, s, step))
  {
    SizesSender(cfg, s, step);
    var s' := SenderStep(cfg, s, step);
    match step {
      case Drain => TxAcksHear(cfg, s, s');
      case Wait => TxAcksHear(cfg, s, s');
      case Leave => TxAcksLeave(cfg, s);
      case _ => assert Heard(s') == Heard(s);
    }
  }

  lemma TxAcksReceiver(cfg: Config, s: State, s': State)
    requires SizesOk(cfg, s) && SizesOk(cfg, s') && TxAcks(cfg, s) && s'.tx == s.tx && s.ctl <= s'.ctl
    ensures TxAcks(cfg, s')
  {
    assert s'.ctl[..s.tx.read] == s.ctl[..s.tx.read];
  }

  /** The feedback message a frame turns into; `tMs` is the receiver's clock. */
  function MessageOf(f: Frame, tMs: nat): FeedbackLoop.Feedback {
    match f
    case BlockDecoded(i) => FeedbackLoop.Decoded(i)
    case Progress(pkts, span) => FeedbackLoop.Progress(pkts, span, tMs)
    case Done(ok) => FeedbackLoop.Done(ok)
  }

  /** The state machine handles a frame as the sender's drain loop does. */
  lemma FramesAreFeedback(tx: Sender, f: Frame, fb: FeedbackLoop.Fb, tMs: nat, bytesSent: nat)
    requires FeedbackLoop.Ready(fb)
    requires fb.acked == tx.acked && fb.ackedCount == tx.ackedCount && fb.loss == tx.loss
    ensures var fb' := FeedbackLoop.Drain(fb, [MessageOf(f, tMs)], tx.packetsSent, bytesSent);
            && fb'.0.acked == TakeFrame(tx, f).acked && fb'.0.ackedCount == TakeFrame(tx, f).ackedCount
            && fb'.0.loss == TakeFrame(tx, f).loss
            && (fb'.1.Finished? <==> f.Done?)
            && (f.Done? ==> TakeFrame(tx, f).phase == Finished(fb'.1.ok))
  {
    var m := MessageOf(f, tMs);
    assert [m][1..] == [];
    if !f.Done? {
      var next := FeedbackLoop.Handle(fb, m, tx.packetsSent, bytesSent);
      assert FeedbackLoop.Drain(next, [], tx.packetsSent, bytesSent) == (next, FeedbackLoop.Empty);
    }
  }

  // ----- the verdict ------------------------------------------------------------------------

  /** Done is the last frame ever written, after every acknowledgement, by a
      receiver that has all blocks, and it says whether the hash matched; the
      sender is finished only after reading it. */
  ghost predicate Verdict(cfg: Config, s: State) {
    && (forall i | 0 <= i < |s.ctl| && s.ctl[i].Done? :: i == |s.ctl| - 1 && s.rx.mode.Verified?)
    && (s.rx.mode.Verified? ==>
          && s.rx.decoded == cfg.layout.numBlocks && s.rx.pendingAcks == [] && |s.ctl| > 0
          && s.ctl[|s.ctl| - 1] == Done(cfg.hash(s.rx.file) == cfg.hash(cfg.data)))
    && (s.tx.phase.Finished? ==> 0 < s.tx.read == |s.ctl| && s.ctl[s.tx.read - 1] == Done(s.tx.phase.ok))
  }

  lemma VerdictSender(cfg: Config, s: State, step: Step)
    requires WellFormed(cfg) && SizesOk(cfg, s) && Enabled(cfg, s, step) && Verdict(cfg, s) && OfSender(step)
    ensures Verdict(cfg, SenderStep(cfg, s, step))
  {
    SizesSender(cfg, s, step);
  }

  lemma VerdictReceiver(cfg: Config, s: State, step: Step)
    requires WellFormed(cfg) && SizesOk(cfg, s) && Enabled(cfg, s, step) && Verdict(cfg, s) && !OfSender(step)
    requires s.rx.mode.Select? ==> s.rx.pendingAcks == []
    ensures Verdict(cfg, ReceiverStep(cfg, s, step))
    ensures s.ctl <= ReceiverStep(cfg, s, step).ctl
  {
    SizesReceiver(cfg, s, step);
  }

  // ----- contents -----------------------------------------------------------------------------

  /** Every complete block stands in the file as it stands in the source; all
      packets in flight, queued or fed are genuine. */
  ghost predicate Contents(cfg: Config, s: State)
    requires WellFormed(cfg) && SizesOk(cfg, s)
  {
    && (forall i | 0 <= i < |s.log| ::
          && IsBlock(cfg, s.log[i].block)
          && s.log[i].pkt.symbol == cfg.codec.symbol(Slice(cfg, cfg.data, s.log[i].block), s.log[i].pkt.id))
    && (s.tx.phase.Spray? ==> Genuine(cfg.codec, Slice(cfg, cfg.data, s.tx.phase.block), s.tx.phase.queue))
    && (forall b: nat | IsBlock(cfg, b) ::
          match s.rx.blocks[b]
          case Pending(fed) => Genuine(cfg.codec, Slice(cfg, cfg.data, b), fed)
          case Complete => Slice(cfg, s.rx.file, b) == Slice(cfg, cfg.data, b))
  }

  lemma RoundPacketsGenuine(cfg: Config, tx: Sender, b: nat)
    requires WellFormed(cfg) && IsBlock(cfg, b) && |tx.nextRepair| == cfg.layout.numBlocks
    ensures Genuine(cfg.codec, Slice(cfg, cfg.data, b), RoundPackets(cfg, tx, b))
  {
  }

  lemma ContentsSender(cfg: Config, s: State, step: Step)
    requires WellFormed(cfg) && SizesOk(cfg, s) && Enabled(cfg, s, step) && Contents(cfg, s) && OfSender(step)
    ensures SizesOk(cfg, Do(cfg, s, step)) && Contents(cfg, Do(cfg, s, step))
  {
    SizesSender(cfg, s, step);
    if step.Start? && s.tx.phase.rest != [] {
      RoundPacketsGenuine(cfg, s.tx, s.tx.phase.rest[0]);
    }
  }

  lemma OverwriteAway(file: seq<byte>, at: nat, bytes: seq<byte>, lo: nat, hi: nat)
    requires at + |bytes| <= |file| && lo <= hi <= |file|
    requires hi <= at || at + |bytes| <= lo
    ensures Overwrite(file, at, bytes)[lo..hi] == file[lo..hi]
  {
  }

  lemma OverwriteHere(file: seq<byte>, at: nat, bytes: seq<byte>)
    requires at + |bytes| <= |file|
    ensures Overwrite(file, at, bytes)[at..at + |bytes|] == bytes
  {
  }

  /** Writing one block, wholly or in part, leaves the others alone. */
  lemma OtherSlices(cfg: Config, file: seq<byte>, b: nat, bytes: seq<byte>, c: nat)
    requires WellFormed(cfg) && IsBlock(cfg, b) && IsBlock(cfg, c) && c != b && |file| == cfg.layout.fileSize
    requires |bytes| <= cfg.layout.End(b) - cfg.layout.Start(b)
    ensures cfg.layout.Start(b) + |bytes| <= |file|
    ensures Slice(cfg, Overwrite(file, cfg.layout.Start(b), bytes), c) == Slice(cfg, file, c)
  {
    BlockBounds(cfg.layout, b);
    BlockBounds(cfg.layout, c);
    RangesDisjoint(cfg.layout, MinNat(b, c), MaxNat(b, c));
    OverwriteAway(file, cfg.layout.Start(b), bytes, cfg.layout.Start(c), cfg.layout.End(c));
  }

  lemma CollectContents(cfg: Config, s: State, b: nat, pkt: Packet, w: WriteResult)
    requires WellFormed(cfg) && SizesOk(cfg, s) && Contents(cfg, s) && Sound(cfg.codec)
    requires IsBlock(cfg, b) && pkt.symbol == cfg.codec.symbol(Slice(cfg, cfg.data, b), pkt.id)
    ensures var s' := s.(rx := Collect(cfg, s.rx, b, pkt, w));
            SizesOk(cfg, s') && Contents(cfg, s')
  {
    var s' := s.(rx := Collect(cfg, s.rx, b, pkt, w));
    BlockBounds(cfg.layout, b);
    if s.rx.blocks[b].Pending? {
      var x, fed := Slice(cfg, cfg.data, b), s.rx.blocks[b].fed + [pkt];
      assert Genuine(cfg.codec, x, fed);
      var bytes := cfg.codec.decode(cfg.layout.BlockLen(b), fed);
      if bytes.Some? {
        assert bytes.value == x;
        var stored := if w.Wrote? then bytes.value else bytes.value[..MinNat(w.stored, |bytes.value|)];
        OverwriteHere(s.rx.file, cfg.layout.Start(b), stored);
        forall c: nat | IsBlock(cfg, c) && c != b
          ensures Slice(cfg, s'.rx.file, c) == Slice(cfg, s.rx.file, c)
        {
          OtherSlices(cfg, s.rx.file, b, stored, c);
        }
      }
    }
  }

  lemma ContentsStep(cfg: Config, s: State, step: Step)
    requires WellFormed(cfg) && Honest(cfg) && SizesOk(cfg, s) && Enabled(cfg, s, step) && Contents(cfg, s)
    ensures SizesOk(cfg, Do(cfg, s, step)) && Contents(cfg, Do(cfg, s, step))
  {
    SizesStep(cfg, s, step);
    if OfSender(step) {
      ContentsSender(cfg, s, step);
    } else if step.Recv? {
      CollectContents(cfg, s, s.log[step.index].block, s.log[step.index].pkt, step.write);
    }
  }

  // ----- whole runs -----------------------------------------------------------------------------

  ghost predicate Safe(cfg: Config, s: State)
    requires SizesOk(cfg, s)
  {
    RxAcks(cfg, s) && TxAcks(cfg, s) && Verdict(cfg, s)
  }

  lemma InitSafe(cfg: Config)
    requires WellFormed(cfg)
    ensures Safe(cfg, Init(cfg))
  {
    var n := cfg.layout.numBlocks;
    AllFalse(n);
    assert Flags(Init(cfg).rx.blocks) == seq(n, _ => false);
  }

  lemma SafeStep(cfg: Config, s: State, step: Step)
    requires WellFormed(cfg) && SizesOk(cfg, s) && Enabled(cfg, s, step) && Safe(cfg, s)
    ensures SizesOk(cfg, Do(cfg, s, step)) && Safe(cfg, Do(cfg, s, step))
  {
    if OfSender(step) {
      SizesSender(cfg, s, step);
      TxAcksSender(cfg, s, step);
      VerdictSender(cfg, s, step);
      assert AckList(SenderStep(cfg, s, step)) == AckList(s);
    } else {
      SizesReceiver(cfg, s, step);
      RxAcksStep(cfg, s, step);
      VerdictReceiver(cfg, s, step);
      TxAcksReceiver(cfg, s, ReceiverStep(cfg, s, step));
    }
  }

  lemma {:induction false} SafeRun(cfg: Config, steps: seq<Step>)
    requires WellFormed(cfg) && Run(cfg, steps).Some?
    ensures Safe(cfg, Run(cfg, steps).value)
  {
    if steps == [] {
      InitSafe(cfg);
    } else {
      SafeRun(cfg, steps[..|steps| - 1]);
      SafeStep(cfg, Run(cfg, steps[..|steps| - 1]).value, steps[|steps| - 1]);
    }
  }

  lemma {:induction false} ContentsRun(cfg: Config, steps: seq<Step>)
    requires WellFormed(cfg) && Honest(cfg) && Run(cfg, steps).Some?
    ensures Contents(cfg, Run(cfg, steps).value)
  {
    if steps != [] {
      ContentsRun(cfg, steps[..|steps| - 1]);
      ContentsStep(cfg, Run(cfg, steps[..|steps| - 1]).value, steps[|steps| - 1]);
    }
  }

  /** Frames before a heard one were written before it. */
  lemma {:induction false} DecodedsPrefix(ctl: seq<Frame>, k: nat)
    requires k <= |ctl|
    ensures Decodeds(ctl[..k]) <= Decodeds(ctl)
    decreases |ctl|
  {
    if k < |ctl| {
      assert ctl[..|ctl| - 1][..k] == ctl[..k];
      DecodedsPrefix(ctl[..|ctl| - 1], k);
    } else {
      assert ctl[..k] == ctl;
    }
  }

  lemma AllComplete(cfg: Config, s: State)
    requires SizesOk(cfg, s) && RxAcks(cfg, s) && s.rx.decoded == cfg.layout.numBlocks
    ensures forall b: nat | IsBlock(cfg, b) :: s.rx.blocks[b].Complete?
  {
    CountTrueBound(Flags(s.rx.blocks));
    assert forall b: nat | IsBlock(cfg, b) :: Flags(s.rx.blocks)[b] == s.rx.blocks[b].Complete?;
  }

  /** Acknowledgements are never ahead of decoding: what the sender holds as
      acknowledged was heard on the control stream, what is on the control stream
      is complete at the receiver, and no block is acknowledged there twice. */
  lemma {:induction false} AcksFollowDecoding(cfg: Config, steps: seq<Step>)
    requires WellFormed(cfg) && Run(cfg, steps).Some?
    ensures var s := Run(cfg, steps).value;
            && (forall b: nat | IsBlock(cfg, b) && s.tx.acked[b] :: b in Heard(s))
            && Heard(s) <= Decodeds(s.ctl) && Distinct(Decodeds(s.ctl))
            && (forall b: nat | b in Decodeds(s.ctl) :: IsBlock(cfg, b) && s.rx.blocks[b].Complete?)
            && s.tx.ackedCount == CountTrue(s.tx.acked) <= cfg.layout.numBlocks
  {
    SafeRun(cfg, steps);
    var s := Run(cfg, steps).value;
    DecodedsPrefix(s.ctl, s.tx.read);
    CountTrueBound(s.tx.acked);
    assert forall i | 0 <= i < |Decodeds(s.ctl)| :: AckList(s)[i] == Decodeds(s.ctl)[i];
    assert forall b: nat | b in Decodeds(s.ctl) :: b in AckList(s);
  }

  /** The verdict is the last frame of the control stream, and every block was
      complete and acknowledged there before it. */
  lemma {:induction false} DoneComesLast(cfg: Config, steps: seq<Step>)
    requires WellFormed(cfg) && Run(cfg, steps).Some?
    ensures var s := Run(cfg, steps).value;
            forall i | 0 <= i < |s.ctl| && s.ctl[i].Done? ::
              && i == |s.ctl| - 1 && s.rx.mode.Verified?
              && (s.ctl[i].ok <==> cfg.hash(s.rx.file) == cfg.hash(cfg.data))
              && forall b: nat | IsBlock(cfg, b) :: s.rx.blocks[b].Complete? && b in Decodeds(s.ctl[..i])
  {
    SafeRun(cfg, steps);
    var s := Run(cfg, steps).value;
    if s.rx.mode.Verified? {
      var n := |s.ctl| - 1;
      AllComplete(cfg, s);
      assert s.ctl == s.ctl[..n] + [s.ctl[n]];
      DecodedsSnoc(s.ctl[..n], s.ctl[n]);
      assert AckList(s) == Decodeds(s.ctl) + [] == Decodeds(s.ctl[..n]);
    }
  }

  /** The sender reports success only after the receiver completed every block and
      found the hash to match; and unless the receiver's socket went away first, it
      has then seen every acknowledgement. This needs nothing of the decoder and
      holds with forged datagrams too. */
  lemma {:induction false} SuccessMeansVerified(cfg: Config, steps: seq<Step>)
    requires WellFormed(cfg) && Run(cfg, steps).Some?
    requires Run(cfg, steps).value.tx.phase.Finished?
    ensures var s := Run(cfg, steps).value;
            && s.rx.mode.Verified?
            && (forall b: nat | IsBlock(cfg, b) :: s.rx.blocks[b].Complete?)
            && (s.tx.phase.ok <==> cfg.hash(s.rx.file) == cfg.hash(cfg.data))
            && (!s.tx.gone ==> forall b: nat | IsBlock(cfg, b) :: s.tx.acked[b])
  {
    SafeRun(cfg, steps);
    DoneComesLast(cfg, steps);
    var s := Run(cfg, steps).value;
    var n := |s.ctl| - 1;
    assert s.ctl[n].Done? && s.ctl[..s.tx.read] == s.ctl;
    DecodedsPrefix(s.ctl, n);
  }

  /** With nothing forged and a sound decoder, under any loss, reordering and
      duplication: every complete block stands in the file as in the source; the
      receiver's verdict is success and the whole file is then equal to the
      source; and the sender never finishes with failure. */
  lemma {:induction false} FileArrivesIntact(cfg: Config, steps: seq<Step>)
    requires WellFormed(cfg) && Honest(cfg) && Run(cfg, steps).Some?
    ensures var s := Run(cfg, steps).value;
            && (forall b: nat | IsBlock(cfg, b) && s.rx.blocks[b].Complete? ::
                  Slice(cfg, s.rx.file, b) == Slice(cfg, cfg.data, b))
            && (s.rx.mode.Verified? ==> s.rx.file == cfg.data && s.ctl != [] && s.ctl[|s.ctl| - 1] == Done(true))
            && (s.tx.phase.Finished? ==> s.tx.phase.ok && s.rx.file == cfg.data)
  {
    SafeRun(cfg, steps);
    ContentsRun(cfg, steps);
    var s := Run(cfg, steps).value;
    if s.rx.mode.Verified? {
      AllComplete(cfg, s);
      WholeFile(cfg, s.rx.file);
    }
    if s.tx.phase.Finished? {
      SuccessMeansVerified(cfg, steps);
    }
  }

  lemma WholeFile(cfg: Config, file: seq<byte>)
    requires WellFormed(cfg) && |file| == cfg.layout.fileSize
    requires forall b: nat | IsBlock(cfg, b) :: Slice(cfg, file, b) == Slice(cfg, cfg.data, b)
    ensures file == cfg.data
  {
    var l := cfg.layout;
    forall b: nat | b < l.numBlocks
      ensures l.Start(b) <= l.End(b) <= l.fileSize && file[l.Start(b)..l.End(b)] == cfg.data[l.Start(b)..l.End(b)]
    {
      BlockBounds(l, b);
      assert IsBlock(cfg, b);
      assert Slice(cfg, file, b) == Slice(cfg, cfg.data, b);
    }
    RangesDetermineFile(l, file, cfg.data);
  }
}
