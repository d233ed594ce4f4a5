/**
 * A run in which the interval loss is not the wire loss: a datagram that is only
 * reordered past a report counts as lost there, though every datagram arrives.
 */
module LateArrival {
  import opened Prelude
  import opened Blocks
  import opened Replay
  import opened Transfer
  import opened TransferSafety
  import opened TransferLiveness

  /** A sealed transfer that flushes three datagrams at a time and needs more than
      three symbols for its first block. */
  ghost predicate Patient(cfg: Config) {
    && WellFormed(cfg) && cfg.sealed && cfg.maxSegs == 3 && IsBlock(cfg, 0)
    && forall n, ps | |ps| <= 3 :: cfg.codec.decode(n, ps).None?
  }

  /** One byte in one block, with a decoder that never has enough. */
  ghost function Smallest(): Config {
    Config(Layout(1, 1, 1, 1), [7], Codec((x: seq<byte>, id: nat) => x, (n: nat, ps: seq<Packet>) => None),
           (x: seq<byte>) => x, true, false, 0.05, 3)
  }

  lemma SmallestIsPatient()
    ensures Patient(Smallest())
  {
  }

  /** The first `n` packets of the first block are encoded, none of them flushed. */
  ghost predicate Sending(cfg: Config, s: State, n: nat) {
    && s.tx.phase.Spray? && s.tx.phase.block == 0 && |s.tx.phase.queue| >= 3 - n
    && s.tx.nextSeq == n == |s.log| && s.tx.batch == s.log && s.rx == Init(cfg).rx && s.ctl == []
    && forall i | 0 <= i < n :: s.log[i].seqno == i && s.log[i].block == 0
  }

  /** Three datagrams are on the wire and those numbered in `accepted` were opened. */
  ghost predicate Receiving(s: State, mode: Mode, accepted: set<nat>, count: nat, ctl: seq<Frame>) {
    && s.ctl == ctl
    && |s.log| == 3 && (forall i | 0 <= i < 3 :: s.log[i].seqno == i && s.log[i].block == 0 && s.log[i] in s.wire)
    && s.rx.mode == mode && s.rx.accepted == accepted && s.rx.pkts == count && s.rx.decoded == 0
    && s.rx.pendingAcks == [] && !s.rx.ioErr
    && |s.rx.blocks| > 0 && s.rx.blocks[0].Pending? && |s.rx.blocks[0].fed| == count
  }

  lemma FirstOutstanding(n: nat)
    requires n > 0
    ensures var out := Outstanding(seq(n, _ => false)); out != [] && out[0] == 0
  {
    var acked := seq(n, _ => false);
    OutstandingExact(acked);
    assert 0 in Outstanding(acked);
  }

  lemma Leaves(cfg: Config)
    requires Patient(cfg)
    ensures Run(cfg, [Leave]).Some?
    ensures var s := End(cfg, [Leave]);
            && s.tx.phase.NextBlock? && s.tx.phase.rest != [] && s.tx.phase.rest[0] == 0
            && s == Init(cfg).(tx := Init(cfg).tx.(phase := s.tx.phase))
  {
    FirstOutstanding(cfg.layout.numBlocks);
    Extend(cfg, [], Leave);
    assert [] + [Leave] == [Leave];
  }

  lemma AtLeastThree(cfg: Config, tx: Sender)
    requires Patient(cfg) && |tx.nextRepair| == cfg.layout.numBlocks && tx.round == 0
    ensures |RoundPackets(cfg, tx, 0)| >= 3
  {
    BlockBounds(cfg.layout, 0);
    assert SourceCount(cfg, 0) >= 1;
  }

  lemma Starts(cfg: Config) returns (run: seq<Step>)
    requires Patient(cfg)
    ensures Run(cfg, run).Some? && Sending(cfg, End(cfg, run), 0)
  {
    Leaves(cfg);
    AtLeastThree(cfg, End(cfg, [Leave]).tx);
    Extend(cfg, [Leave], Start);
    run := [Leave] + [Start];
  }

  lemma Sends(cfg: Config, run: seq<Step>, n: nat)
    requires Patient(cfg) && Run(cfg, run).Some? && n < 3 && Sending(cfg, End(cfg, run), n)
    ensures Run(cfg, run + [Send(false)]).Some? && Sending(cfg, End(cfg, run + [Send(false)]), n + 1)
  {
    Extend(cfg, run, Send(false));
  }

  lemma Sprays(cfg: Config) returns (run: seq<Step>)
    requires Patient(cfg)
    ensures Run(cfg, run).Some? && Sending(cfg, End(cfg, run), 3)
  {
    run := Starts(cfg);
    Sends(cfg, run, 0);
    run := run + [Send(false)];
    Sends(cfg, run, 1);
    run := run + [Send(false)];
    Sends(cfg, run, 2);
    run := run + [Send(false)];
  }

  lemma Flushes(cfg: Config) returns (run: seq<Step>)
    requires Patient(cfg)
    ensures Run(cfg, run).Some? && Receiving(End(cfg, run), Select, {}, 0, [])
  {
    run := Sprays(cfg);
    Extend(cfg, run, FlushBatch(Flushed));
    run := run + [FlushBatch(Flushed)];
  }

  /** The receiver takes up a batch. */
  lemma Begins(cfg: Config, run: seq<Step>, accepted: set<nat>, count: nat, ctl: seq<Frame>)
    requires Patient(cfg) && Run(cfg, run).Some? && Receiving(End(cfg, run), Select, accepted, count, ctl)
    ensures Run(cfg, run + [Begin]).Some? && Receiving(End(cfg, run + [Begin]), Batch, accepted, count, ctl)
  {
    Extend(cfg, run, Begin);
  }

  /** It opens datagram `i`. */
  lemma Opens(cfg: Config, run: seq<Step>, accepted: set<nat>, count: nat, ctl: seq<Frame>, i: nat)
    requires Patient(cfg) && Run(cfg, run).Some? && Receiving(End(cfg, run), Batch, accepted, count, ctl)
    requires i < 3 && count < 3 && Acceptable(accepted, i)
    ensures Run(cfg, run + [Recv(i, Wrote)]).Some?
    ensures Receiving(End(cfg, run + [Recv(i, Wrote)]), Batch, accepted + {i}, count + 1, ctl)
  {
    Extend(cfg, run, Recv(i, Wrote));
  }

  /** It ends the batch and waits again. */
  lemma Settles(cfg: Config, run: seq<Step>, accepted: set<nat>, count: nat, ctl: seq<Frame>)
    requires Patient(cfg) && Run(cfg, run).Some? && Receiving(End(cfg, run), Batch, accepted, count, ctl)
    ensures Run(cfg, run + [EndBatch] + [AckNext]).Some?
    ensures Receiving(End(cfg, run + [EndBatch] + [AckNext]), Select, accepted, count, ctl)
  {
    Extend(cfg, run, EndBatch);
    Extend(cfg, run + [EndBatch], AckNext);
  }

  lemma Arrives(cfg: Config, run: seq<Step>, accepted: set<nat>, count: nat, ctl: seq<Frame>, i: nat)
    returns (more: seq<Step>)
    requires Patient(cfg) && Run(cfg, run).Some? && Receiving(End(cfg, run), Select, accepted, count, ctl)
    requires i < 3 && count < 3 && Acceptable(accepted, i)
    ensures run <= more && Run(cfg, more).Some? && Receiving(End(cfg, more), Select, accepted + {i}, count + 1, ctl)
  {
    Begins(cfg, run, accepted, count, ctl);
    Opens(cfg, run + [Begin], accepted, count, ctl, i);
    more := run + [Begin] + [Recv(i, Wrote)];
    Settles(cfg, more, accepted + {i}, count + 1, ctl);
    more := more + [EndBatch] + [AckNext];
  }

  /** A tick reports what was opened. */
  lemma Ticks(cfg: Config, run: seq<Step>, accepted: set<nat>, count: nat, ctl: seq<Frame>, span: nat)
    requires Patient(cfg) && Run(cfg, run).Some? && Receiving(End(cfg, run), Select, accepted, count, ctl)
    requires count > 0 && span > 0 && IsHighest(accepted, span - 1)
    ensures var more := run + [Tick(Some(span))];
            && Run(cfg, more).Some?
            && Receiving(End(cfg, more), Select, accepted, count, ctl + [Progress(count, Some(span))])
  {
    Extend(cfg, run, Tick(Some(span)));
  }

  lemma FirstArrival(cfg: Config) returns (steps: seq<Step>)
    requires Patient(cfg)
    ensures Run(cfg, steps).Some? && Receiving(End(cfg, steps), Select, {0}, 1, [])
  {
    steps := Flushes(cfg);
    assert {} + {0} == {0};
    steps := Arrives(cfg, steps, {}, 0, [], 0);
  }

  lemma FirstReport(cfg: Config) returns (steps: seq<Step>)
    requires Patient(cfg)
    ensures Run(cfg, steps).Some? && Receiving(End(cfg, steps), Select, {0}, 1, [Progress(1, Some(1))])
  {
    steps := FirstArrival(cfg);
    assert IsHighest({0}, 0);
    Ticks(cfg, steps, {0}, 1, [], 1);
    assert [] + [Progress(1, Some(1))] == [Progress(1, Some(1))];
    steps := steps + [Tick(Some(1))];
  }

  lemma SecondReport(cfg: Config) returns (steps: seq<Step>)
    requires Patient(cfg)
    ensures Run(cfg, steps).Some?
    ensures Receiving(End(cfg, steps), Select, {0, 2}, 2, [Progress(1, Some(1)), Progress(2, Some(3))])
  {
    var one := [Progress(1, Some(1))];
    steps := FirstReport(cfg);
    assert {0} + {2} == {0, 2} && Acceptable({0}, 2) && IsHighest({0, 2}, 2);
    steps := Arrives(cfg, steps, {0}, 1, one, 2);
    Ticks(cfg, steps, {0, 2}, 2, one, 3);
    assert one + [Progress(2, Some(3))] == [Progress(1, Some(1)), Progress(2, Some(3))];
    steps := steps + [Tick(Some(3))];
  }

  /** Datagrams 0 and 2 are opened before a first and a second report, datagram 1
      after it: the sender sees one loss in an interval of two, with no straggler, and
      yet nothing is lost. */
  lemma ReorderedIsNotLost(cfg: Config) returns (steps: seq<Step>)
    requires Patient(cfg)
    ensures Run(cfg, steps).Some?
    ensures End(cfg, steps).ctl == [Progress(1, Some(1)), Progress(2, Some(3))]
    ensures End(cfg, steps).rx.accepted == Below(3)
  {
    steps := SecondReport(cfg);
    assert {0, 2} + {1} == Below(3) && Acceptable({0, 2}, 1);
    steps := Arrives(cfg, steps, {0, 2}, 2, [Progress(1, Some(1)), Progress(2, Some(3))], 1);
  }
}
