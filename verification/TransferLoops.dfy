/**
 * The two hot loops of a transfer as imperative code: the sender's packet loop
 * for one block and the receiver's handling of one batch. Both are proved to
 * take exactly steps of the state machine.
 */
module TransferLoops {
  import opened Prelude
  import opened Blocks
  import opened Transfer
  import opened TransferSafety

  /** Executes steps from a given state; none if some step is not enabled. */
  ghost function Exec(cfg: Config, s: State, steps: seq<Step>): (r: Option<State>)
    requires WellFormed(cfg) && SizesOk(cfg, s)
    ensures r.Some? ==> SizesOk(cfg, r.value)
  {
    if steps == [] then Some(s)
    else
      var r, step := Exec(cfg, s, steps[..|steps| - 1]), steps[|steps| - 1];
      if r.None? || !Enabled(cfg, r.value, step) then None
      else
        SizesStep(cfg, r.value, step);
        Some(Do(cfg, r.value, step))
  }

  /** Whatever a run reaches, executing on from there is again a run. */
  lemma {:induction false} ExecContinuesRun(cfg: Config, before: seq<Step>, steps: seq<Step>)
    requires WellFormed(cfg) && Run(cfg, before).Some?
    ensures Run(cfg, before + steps) == Exec(cfg, Run(cfg, before).value, steps)
  {
    if steps == [] {
      assert before + steps == before;
    } else {
      ExecContinuesRun(cfg, before, steps[..|steps| - 1]);
      assert (before + steps)[..|before + steps| - 1] == before + steps[..|steps| - 1];
    }
  }

  lemma ExecSnoc(cfg: Config, s: State, steps: seq<Step>, step: Step)
    requires WellFormed(cfg) && SizesOk(cfg, s) && Exec(cfg, s, steps).Some?
    requires Enabled(cfg, Exec(cfg, s, steps).value, step)
    ensures Exec(cfg, s, steps + [step]) == Some(Do(cfg, Exec(cfg, s, steps).value, step))
  {
    assert (steps + [step])[..|steps|] == steps;
  }

  /** What the `Send` steps among `steps` did with their packets, in order. */
  ghost function Drops(steps: seq<Step>): seq<bool> {
    if steps == [] then []
    else
      var last := steps[|steps| - 1];
      Drops(steps[..|steps| - 1]) + (if last.Send? then [last.drop] else [])
  }

  /** How the flushes among `steps` ended, in order. */
  ghost function Results(steps: seq<Step>): seq<FlushResult> {
    if steps == [] then []
    else
      var last := steps[|steps| - 1];
      Results(steps[..|steps| - 1]) + (if last.FlushBatch? then [last.result] else [])
  }

  lemma HistorySnoc(steps: seq<Step>, step: Step)
    ensures Drops(steps + [step]) == Drops(steps) + (if step.Send? then [step.drop] else [])
    ensures Results(steps + [step]) == Results(steps) + (if step.FlushBatch? then [step.result] else [])
  {
    assert (steps + [step])[..|steps|] == steps;
  }

  /** The steps are sends and flushes only, and they went as the packet-drop and
      flush oracles say, each asked once and in order. */
  ghost predicate AsTold(steps: seq<Step>, drop: nat -> bool, result: nat -> FlushResult) {
    && (forall i | 0 <= i < |steps| :: steps[i].Send? || steps[i].FlushBatch?)
    && (forall i | 0 <= i < |Drops(steps)| :: Drops(steps)[i] == drop(i))
    && (forall i | 0 <= i < |Results(steps)| :: Results(steps)[i] == result(i))
  }

  lemma AsToldSnoc(steps: seq<Step>, step: Step, drop: nat -> bool, result: nat -> FlushResult)
    requires AsTold(steps, drop, result)
    requires step == Send(drop(|Drops(steps)|)) || step == FlushBatch(result(|Results(steps)|))
    ensures AsTold(steps + [step], drop, result)
    ensures |Drops(steps + [step])| == |Drops(steps)| + (if step.Send? then 1 else 0)
    ensures |Results(steps + [step])| == |Results(steps)| + (if step.FlushBatch? then 1 else 0)
  {
    HistorySnoc(steps, step);
  }

  /** Sprays the packets of one block: encode or drop each, flush full batches,
      flush the rest, stop when the socket is gone or broken. `drop(k)` says
      whether the k-th packet is dropped and `result(k)` how the k-th flush ends.
      The block ends regularly exactly when every flush it makes succeeds. */
  method SprayBlock(cfg: Config, s: State, drop: nat -> bool, result: nat -> FlushResult)
    returns (s': State, ghost steps: seq<Step>)
    requires WellFormed(cfg) && SizesOk(cfg, s) && s.tx.phase.Spray? && s.tx.batch == []
    ensures SizesOk(cfg, s')
    ensures Exec(cfg, s, if s'.tx.phase.AfterBlock? then steps + [EndBlock] else steps) == Some(s')
    ensures AsTold(steps, drop, result)
    ensures !s'.tx.phase.Spray?
    ensures s'.tx.phase.AfterBlock? <==> forall k | 0 <= k < |Results(steps)| :: result(k).Flushed?
    ensures s'.tx.phase.AfterBlock? ==>
              s'.tx.phase.rest == s.tx.phase.rest && s'.tx.batch == []
              && s'.tx.packetsSent == s.tx.packetsSent + |s.tx.phase.queue|
  {
    s', steps := s, [];
    var sent, flushes := 0, 0;
    while s'.tx.phase.Spray? && (s'.tx.phase.queue != [] || s'.tx.batch != [])
      invariant SizesOk(cfg, s') && Exec(cfg, s, steps) == Some(s')
      invariant AsTold(steps, drop, result) && sent == |Drops(steps)| && flushes == |Results(steps)|
      invariant |s'.tx.batch| <= cfg.maxSegs
      invariant s'.tx.phase.Spray? || s'.tx.phase.Settling? || s'.tx.phase.Failed?
      invariant s'.tx.phase.Spray? <==> forall k | 0 <= k < flushes :: result(k).Flushed?
      invariant s'.tx.phase.Spray? ==>
                  && s'.tx.phase.rest == s.tx.phase.rest
                  && s'.tx.packetsSent + |s'.tx.phase.queue| == s.tx.packetsSent + |s.tx.phase.queue|
      decreases if s'.tx.phase.Spray? then 2 * |s'.tx.phase.queue| + |s'.tx.batch| + 1 else 0
    {
      ghost var step;
      if |s'.tx.batch| == cfg.maxSegs || s'.tx.phase.queue == [] {
        step := FlushBatch(result(flushes));
        s' := FlushOne(s', result(flushes), step, cfg);
        flushes := flushes + 1;
      } else {
        step := Send(drop(sent));
        s' := SendOne(s', drop(sent), cfg);
        sent := sent + 1;
      }
      ExecSnoc(cfg, s, steps, step);
      AsToldSnoc(steps, step, drop, result);
      steps := steps + [step];
    }
    if s'.tx.phase.Spray? {
      ExecSnoc(cfg, s, steps, EndBlock);
      s' := s'.(tx := s'.tx.(phase := AfterBlock(s'.tx.phase.rest)));
    }
  }

  /** One packet of the loop. */
  method SendOne(s: State, drop: bool, ghost cfg: Config) returns (s': State)
    requires WellFormed(cfg) && SizesOk(cfg, s) && Enabled(cfg, s, Send(drop))
    ensures s' == Do(cfg, s, Send(drop)) && SizesOk(cfg, s')
    ensures s'.tx.phase == s.tx.phase.(queue := s.tx.phase.queue[1..])
    ensures |s'.tx.batch| <= |s.tx.batch| + 1 <= cfg.maxSegs
    ensures s'.tx.packetsSent == s.tx.packetsSent + 1
  {
    var tx, pkt := s.tx, s.tx.phase.queue[0];
    tx := tx.(packetsSent := tx.packetsSent + 1, phase := tx.phase.(queue := tx.phase.queue[1..]));
    var seqno := tx.nextSeq;
    tx := tx.(nextSeq := tx.nextSeq + 1);
    if drop {
      s' := s.(tx := tx);
    } else {
      var d := Dgram(seqno, tx.phase.block, pkt);
      s' := s.(tx := tx.(batch := tx.batch + [d]), log := s.log + [d]);
    }
    SizesStep(cfg, s, Send(drop));
  }

  /** One flush of the loop. */
  method FlushOne(s: State, result: FlushResult, ghost step: Step, ghost cfg: Config) returns (s': State)
    requires WellFormed(cfg) && SizesOk(cfg, s) && step == FlushBatch(result) && Enabled(cfg, s, step)
    ensures s' == Do(cfg, s, step) && SizesOk(cfg, s') && s'.tx.batch == []
    ensures s'.tx.packetsSent == s.tx.packetsSent
    ensures s'.tx.phase == if result.Flushed? then s.tx.phase else if result.Refused? then Settling else Failed
  {
    var batch := s.tx.batch;
    var out := if result.Flushed? then batch else batch[..MinNat(result.kept, |batch|)];
    s' := s.(tx := s.tx.(batch := []), wire := s.wire + set d | d in out);
    match result {
      case Flushed =>
      case Refused(_) =>
        s' := s'.(tx := s'.tx.(gone := true, phase := Settling, round := s.tx.round + 1));
      case Broken(_) =>
        s' := s'.(tx := s'.tx.(phase := Failed));
    }
    SizesStep(cfg, s, step);
  }

  /** `n` times the same step. */
  ghost function Repeat(step: Step, n: nat): (steps: seq<Step>)
    ensures |steps| == n
  {
    if n == 0 then [] else Repeat(step, n - 1) + [step]
  }

  function AckFrames(acks: seq<nat>): (frames: seq<Frame>)
    ensures |frames| == |acks| && forall i | 0 <= i < |acks| :: frames[i] == BlockDecoded(acks[i])
  {
    seq(|acks|, i requires 0 <= i < |acks| => BlockDecoded(acks[i]))
  }

  lemma {:induction false} AckSteps(cfg: Config, s: State, k: nat)
    requires WellFormed(cfg) && SizesOk(cfg, s) && s.rx.mode.Flush? && k <= |s.rx.pendingAcks|
    ensures var acks := s.rx.pendingAcks;
            Exec(cfg, s, Repeat(AckNext, k))
            == Some(s.(rx := s.rx.(pendingAcks := acks[k..]), ctl := s.ctl + AckFrames(acks)[..k]))
    decreases k
  {
    var acks := s.rx.pendingAcks;
    if k == 0 {
      assert acks[0..] == acks && s.ctl + AckFrames(acks)[..0] == s.ctl;
    } else {
      AckSteps(cfg, s, k - 1);
      ExecSnoc(cfg, s, Repeat(AckNext, k - 1), AckNext);
      assert acks[k - 1..][1..] == acks[k..];
      assert s.ctl + AckFrames(acks)[..k] == (s.ctl + AckFrames(acks)[..k - 1]) + [BlockDecoded(acks[k - 1])];
    }
  }

  /** As many `AckNext` steps as there are acknowledgements write them all, and one
      more goes back to waiting. */
  lemma AckRun(cfg: Config, s: State)
    requires WellFormed(cfg) && SizesOk(cfg, s) && s.rx.mode.Flush?
    ensures var acks := s.rx.pendingAcks;
            Exec(cfg, s, Repeat(AckNext, |acks| + 1))
            == Some(s.(rx := s.rx.(pendingAcks := [], mode := Select), ctl := s.ctl + AckFrames(acks)))
  {
    var acks := s.rx.pendingAcks;
    AckSteps(cfg, s, |acks|);
    ExecSnoc(cfg, s, Repeat(AckNext, |acks|), AckNext);
    assert AckFrames(acks)[..|acks|] == AckFrames(acks);
  }

  // ----- receiver ---------------------------------------------------------------------------

  /** The receiver's collection state, updated in place. */
  class Collector {
    const layout: Layout
    const codec: Codec
    var blocks: seq<Block>
    var decoded: nat
    var pkts: nat
    var late: nat
    var pendingAcks: seq<nat>
    var file: seq<byte>
    var ioErr: bool

    ghost predicate Valid(cfg: Config)
      reads this
    {
      && WellFormed(cfg) && cfg.layout == layout && cfg.codec == codec
      && |blocks| == layout.numBlocks && |file| == layout.fileSize
    }

    /** The receiver state these fields stand for. */
    ghost function State(mode: Mode, accepted: set<nat>): Receiver
      reads this
    {
      Receiver(mode, blocks, decoded, pkts, late, pendingAcks, file, ioErr, accepted)
    }

    constructor (cfg: Config)
      requires WellFormed(cfg)
      ensures Valid(cfg) && State(Select, {}) == Init(cfg).rx
    {
      layout, codec := cfg.layout, cfg.codec;
      blocks := seq(cfg.layout.numBlocks, _ => Pending([]));
      decoded, pkts, late, pendingAcks := 0, 0, 0, [];
      file, ioErr := seq(cfg.layout.fileSize, _ => 0), false;
    }

    /** The per-datagram closure of the collection loop. */
    method OnDatagram(b: nat, pkt: Packet, w: WriteResult, ghost cfg: Config)
      requires Valid(cfg)
      modifies this
      ensures Valid(cfg)
      ensures forall mode, accepted :: State(mode, accepted) == Collect(cfg, old(State(mode, accepted)), b, pkt, w)
    {
      pkts := pkts + 1;
      if b >= layout.numBlocks {
        return;
      }
      BlockBounds(layout, b);
      if blocks[b].Complete? {
        late := late + 1;
        return;
      }
      var fed := blocks[b].fed + [pkt];
      blocks := blocks[b := Pending(fed)];
      var bytes := codec.decode(layout.BlockLen(b), fed);
      if bytes.Some? {
        if w.WriteFailed? {
          file := Overwrite(file, layout.Start(b), bytes.value[..MinNat(w.stored, |bytes.value|)]);
          ioErr := true;
          return;
        }
        file := Overwrite(file, layout.Start(b), bytes.value);
        blocks := blocks[b := Complete];
        decoded := decoded + 1;
        pendingAcks := pendingAcks + [b];
      }
    }

    /** Writes the acknowledgements of a batch, oldest first: one `AckNext` step
        for each of them, and one more that goes back to waiting. */
    method FlushAcks(ctl: seq<Frame>, ghost cfg: Config, ghost s: State) returns (r: seq<Frame>)
      requires WellFormed(cfg) && SizesOk(cfg, s) && s.ctl == ctl && s.rx == State(Flush, s.rx.accepted)
      modifies this`pendingAcks
      ensures pendingAcks == [] && r == ctl + AckFrames(old(pendingAcks))
      ensures Exec(cfg, s, Repeat(AckNext, |old(pendingAcks)| + 1))
              == Some(s.(rx := State(Select, s.rx.accepted), ctl := r))
    {
      AckRun(cfg, s);
      r := ctl;
      ghost var k := 0;
      ghost var all := pendingAcks;
      while pendingAcks != []
        invariant 0 <= k <= |all| && pendingAcks == all[k..]
        invariant r == ctl + AckFrames(all)[..k]
        decreases |pendingAcks|
      {
        r := r + [BlockDecoded(pendingAcks[0])];
        pendingAcks := pendingAcks[1..];
        k := k + 1;
      }
    }
  }
}
