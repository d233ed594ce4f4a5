/**
 * One file transfer as a state machine: the sender's round loop, the receiver's
 * collection loop, a symbol plane that may lose, delay, reorder and duplicate
 * datagrams, and a first-in first-out control stream from receiver to sender.
 *
 * Every step is one iteration of one of the source's loops or one branch of
 * them. Timing is nondeterministic: a drain may stop at any time, a wait may
 * fail at any time, and any datagram that has been put on the wire may arrive
 * at any time, any number of times, or never.
 */
module Transfer {
  import opened Prelude
  import opened Blocks
  import opened Replay
  import Repair

  // ----- the unseen codec -----------------------------------------------------------

  /** One encoding packet: its symbol id and the symbol. */
  datatype Packet = Packet(id: nat, symbol: seq<byte>)

  /** `symbol(x, id)` is encoding symbol `id` of block `x`; `decode(n, ps)` is what
      a decoder for a block of `n` bytes returns when the last of the packets `ps`
      is fed to it. */
  datatype Codec = Codec(symbol: (seq<byte>, nat) -> seq<byte>,
                         decode: (nat, seq<Packet>) -> Option<seq<byte>>)

  /** The packets are encoding packets of block `x`. */
  ghost predicate Genuine(c: Codec, x: seq<byte>, ps: seq<Packet>) {
    forall i | 0 <= i < |ps| :: ps[i].symbol == c.symbol(x, ps[i].id)
  }

  /** A decoder returns as many bytes as the block has. */
  ghost predicate KeepsLength(c: Codec) {
    forall n, ps :: c.decode(n, ps).Some? ==> |c.decode(n, ps).value| == n
  }

  /** Fed only genuine packets, a decoder returns the block or nothing. */
  ghost predicate Sound(c: Codec) {
    forall x, ps | Genuine(c, x, ps) && c.decode(|x|, ps).Some? :: c.decode(|x|, ps).value == x
  }

  ghost function Ids(ps: seq<Packet>): set<nat> {
    set p | p in ps :: p.id
  }

  /** Fed `threshold(n)` distinct genuine packets, a decoder succeeds. */
  ghost predicate Decodes(c: Codec, threshold: nat -> nat) {
    forall x, ps | Genuine(c, x, ps) && |Ids(ps)| >= threshold(|x|) :: c.decode(|x|, ps).Some?
  }

  // ----- configuration ----------------------------------------------------------------

  /** `forging` admits datagrams nobody sent, which only the plaintext plane opens. */
  datatype Config = Config(layout: Layout, data: seq<byte>, codec: Codec, hash: seq<byte> -> seq<byte>,
                           sealed: bool, forging: bool, cliFrac: real, maxSegs: nat)

  ghost predicate WellFormed(cfg: Config) {
    && cfg.layout.Valid() && |cfg.data| == cfg.layout.fileSize
    && KeepsLength(cfg.codec) && cfg.maxSegs > 0
    && (cfg.sealed ==> !cfg.forging)
  }

  /** Nothing is forged and the decoder is sound. */
  ghost predicate Honest(cfg: Config) {
    !cfg.forging && Sound(cfg.codec)
  }

  ghost predicate IsBlock(cfg: Config, b: nat) {
    b < cfg.layout.numBlocks
  }

  /** The bytes of block `b` in a file of the right size. */
  ghost function Slice(cfg: Config, file: seq<byte>, b: nat): (x: seq<byte>)
    requires WellFormed(cfg) && IsBlock(cfg, b) && |file| == cfg.layout.fileSize
    ensures |x| == cfg.layout.End(b) - cfg.layout.Start(b)
  {
    BlockBounds(cfg.layout, b);
    file[cfg.layout.Start(b)..cfg.layout.End(b)]
  }

  /** Number of source symbols of block `b`. */
  ghost function SourceCount(cfg: Config, b: nat): nat
    requires WellFormed(cfg) && IsBlock(cfg, b)
  {
    BlockBounds(cfg.layout, b);
    cfg.layout.SourceSymbols(b)
  }

  // ----- state --------------------------------------------------------------------------

  datatype Dgram = Dgram(seqno: nat, block: nat, pkt: Packet)

  datatype Frame = BlockDecoded(index: nat) | Progress(pkts: nat, span: Option<nat>) | Done(ok: bool)

  /** Where the sender is: about to start a round, waiting for the verdict, inside
      a round (blocks still to come in `rest`), settling after one, or over. */
  datatype Phase =
    | Top
    | WaitDone
    | NextBlock(rest: seq<nat>)
    | Spray(block: nat, queue: seq<Packet>, rest: seq<nat>)
    | AfterBlock(rest: seq<nat>)
    | Settling
    | Finished(ok: bool)
    | Failed

  /** `repairRounds` counts the repair rounds each block has gone through. */
  datatype Sender = Sender(phase: Phase, acked: seq<bool>, ackedCount: nat, nextRepair: seq<nat>,
                           repairRounds: seq<nat>, round: nat, loss: Repair.Est, packetsSent: nat,
                           nextSeq: nat, batch: seq<Dgram>, gone: bool, read: nat)

  datatype Block = Pending(fed: seq<Packet>) | Complete

  datatype Mode = Select | Batch | Flush | Verified | Stopped

  /** `accepted` holds the sequence numbers of the datagrams opened so far. */
  datatype Receiver = Receiver(mode: Mode, blocks: seq<Block>, decoded: nat, pkts: nat, late: nat,
                               pendingAcks: seq<nat>, file: seq<byte>, ioErr: bool, accepted: set<nat>)

  /** `log` holds every datagram encoded so far, `wire` those handed to the network. */
  datatype State = State(tx: Sender, rx: Receiver, log: seq<Dgram>, wire: set<Dgram>, ctl: seq<Frame>)

  ghost function Init(cfg: Config): State {
    var n := cfg.layout.numBlocks;
    State(Sender(Top, seq(n, _ => false), 0, seq(n, _ => 0), seq(n, _ => 0), 0, Repair.Unprimed, 0, 0, [], false, 0),
          Receiver(Select, seq(n, _ => Pending([])), 0, 0, 0, [], seq(cfg.layout.fileSize, _ => 0), false, {}),
          [], {}, [])
  }

  // ----- sender -------------------------------------------------------------------------

  /** The blocks not acknowledged, in ascending order. */
  function Outstanding(acked: seq<bool>): seq<nat> {
    if acked == [] then []
    else Outstanding(acked[..|acked| - 1]) + (if acked[|acked| - 1] then [] else [|acked| - 1])
  }

  /** Packets `first`, `first + 1`, ... of block `x`. */
  function Packets(c: Codec, x: seq<byte>, first: nat, n: nat): (ps: seq<Packet>)
    ensures |ps| == n
    ensures forall i | 0 <= i < n :: ps[i] == Packet(first + i, c.symbol(x, first + i))
  {
    seq(n, i requires 0 <= i < n => Packet(first + i, c.symbol(x, first + i)))
  }

  /** What a round sprays for block `b`: in round 0 the source packets and the
      initial overhead, later fresh repair packets only. */
  ghost function RoundPackets(cfg: Config, tx: Sender, b: nat): seq<Packet>
    requires WellFormed(cfg) && IsBlock(cfg, b) && |tx.nextRepair| == cfg.layout.numBlocks
  {
    var x, k := Slice(cfg, cfg.data, b), SourceCount(cfg, b);
    var extra := Repair.RepairCount(tx.loss, cfg.cliFrac, tx.round, k);
    var repair := Packets(cfg.codec, x, k + tx.nextRepair[b], extra);
    if tx.round == 0 then Packets(cfg.codec, x, 0, k) + repair else repair
  }

  predicate AtDrain(phase: Phase) {
    phase.Top? || phase.AfterBlock? || phase.Settling?
  }

  /** Acknowledgements and the loss estimate after one frame. */
  function TakeFrame(tx: Sender, f: Frame): Sender {
    match f
    case BlockDecoded(i) =>
      if i < |tx.acked| && !tx.acked[i] then
        tx.(acked := tx.acked[i := true], ackedCount := tx.ackedCount + 1, read := tx.read + 1)
      else tx.(read := tx.read + 1)
    case Progress(pkts, span) =>
      if pkts == 0 then tx.(read := tx.read + 1)
      else
        tx.(loss := Repair.Update(tx.loss, pkts, if span.Some? then span.value else tx.packetsSent),
            read := tx.read + 1)
    case Done(ok) => tx.(phase := Finished(ok), read := tx.read + 1)
  }

  /** A drain finds nothing more and the sender moves on. */
  function LeaveDrain(tx: Sender): Sender
    requires AtDrain(tx.phase)
  {
    match tx.phase
    case Top =>
      var pending := Outstanding(tx.acked);
      tx.(phase := if pending == [] || tx.gone then WaitDone else NextBlock(pending))
    case AfterBlock(rest) => tx.(phase := NextBlock(rest))
    case Settling => tx.(phase := Top)
  }

  /** While waiting for the verdict every other frame is discarded. */
  function WaitFrame(tx: Sender, f: Frame): Sender {
    tx.(phase := if f.Done? then Finished(f.ok) else Top, read := tx.read + 1)
  }

  /** Starts the next block of the round, skips it if its acknowledgement came in
      meanwhile, or ends the round. */
  ghost function StartBlock(cfg: Config, tx: Sender): Sender
    requires WellFormed(cfg) && tx.phase.NextBlock?
    requires |tx.acked| == |tx.nextRepair| == |tx.repairRounds| == cfg.layout.numBlocks
    requires forall i | 0 <= i < |tx.phase.rest| :: IsBlock(cfg, tx.phase.rest[i])
  {
    var rest := tx.phase.rest;
    if rest == [] then tx.(phase := Settling, round := tx.round + 1)
    else
      var b := rest[0];
      assert IsBlock(cfg, b);
      if tx.acked[b] then tx.(phase := NextBlock(rest[1..]))
      else
        var extra := Repair.RepairCount(tx.loss, cfg.cliFrac, tx.round, SourceCount(cfg, b));
        tx.(phase := Spray(b, RoundPackets(cfg, tx, b), rest[1..]),
            nextRepair := tx.nextRepair[b := tx.nextRepair[b] + extra],
            repairRounds := if tx.round == 0 then tx.repairRounds
                            else tx.repairRounds[b := tx.repairRounds[b] + 1])
  }

  /** How a flush ends: everything sent, the receiver's socket gone, or an error;
      in the last two cases some of the datagrams may still have gone out. */
  datatype FlushResult = Flushed | Refused(kept: nat) | Broken(kept: nat)

  // ----- receiver -----------------------------------------------------------------------

  /** How writing a decoded block ends; a failed write may have stored some bytes. */
  datatype WriteResult = Wrote | WriteFailed(stored: nat)

  function Overwrite(file: seq<byte>, at: nat, bytes: seq<byte>): (r: seq<byte>)
    requires at + |bytes| <= |file|
    ensures |r| == |file|
  {
    file[..at] + bytes + file[at + |bytes|..]
  }

  /** Feeds one opened datagram to the collection loop. */
  ghost function Collect(cfg: Config, rx: Receiver, b: nat, pkt: Packet, w: WriteResult): Receiver
    requires WellFormed(cfg) && |rx.blocks| == cfg.layout.numBlocks && |rx.file| == cfg.layout.fileSize
  {
    if b >= cfg.layout.numBlocks then rx.(pkts := rx.pkts + 1)
    else if rx.blocks[b].Complete? then rx.(pkts := rx.pkts + 1, late := rx.late + 1)
    else
      BlockBounds(cfg.layout, b);
      var fed := rx.blocks[b].fed + [pkt];
      var bytes := cfg.codec.decode(cfg.layout.BlockLen(b), fed);
      var start := cfg.layout.Start(b);
      var counted := rx.(pkts := rx.pkts + 1);
      if bytes.None? then counted.(blocks := rx.blocks[b := Pending(fed)])
      else if w.WriteFailed? then
        counted.(blocks := rx.blocks[b := Pending(fed)], ioErr := true,
                 file := Overwrite(rx.file, start, bytes.value[..MinNat(w.stored, |bytes.value|)]))
      else
        counted.(blocks := rx.blocks[b := Complete], decoded := rx.decoded + 1,
                 pendingAcks := rx.pendingAcks + [b], file := Overwrite(rx.file, start, bytes.value))
  }

  // ----- steps --------------------------------------------------------------------------

  datatype Step =
    | Drain                                // sender handles one feedback frame
    | Leave                                // sender finds no more feedback
    | Wait                                 // sender takes one frame while waiting for Done
    | Start                                // sender starts, skips or ends a block
    | Send(drop: bool)                     // sender encodes one packet, or burns its number
    | FlushBatch(result: FlushResult)      // sender flushes the batch
    | EndBlock                             // sender has sprayed a block
    | Abort                                // sender gives up
    | Begin                                // receiver starts a batch of datagrams
    | Recv(index: nat, write: WriteResult) // receiver opens a datagram of the log
    | RecvForged(block: nat, pkt: Packet, write: WriteResult)
    | EndBatch                             // receiver has handled a batch
    | AckNext                              // receiver writes one acknowledgement
    | Tick(span: Option<nat>)              // receiver reports progress
    | Verify                               // receiver checks the hash and reports
    | Stop                                 // receiver gives up

  ghost predicate SizesOk(cfg: Config, s: State) {
    && |s.tx.acked| == |s.tx.nextRepair| == |s.tx.repairRounds| == |s.rx.blocks| == cfg.layout.numBlocks
    && |s.rx.file| == cfg.layout.fileSize
    && s.tx.read <= |s.ctl|
    && (s.tx.phase.NextBlock? ==> forall i | 0 <= i < |s.tx.phase.rest| :: IsBlock(cfg, s.tx.phase.rest[i]))
    && (s.tx.phase.AfterBlock? ==> forall i | 0 <= i < |s.tx.phase.rest| :: IsBlock(cfg, s.tx.phase.rest[i]))
    && (s.tx.phase.Spray? ==>
          && IsBlock(cfg, s.tx.phase.block)
          && forall i | 0 <= i < |s.tx.phase.rest| :: IsBlock(cfg, s.tx.phase.rest[i]))
  }

  ghost predicate Enabled(cfg: Config, s: State, step: Step) {
    match step
    case Drain => AtDrain(s.tx.phase) && s.tx.read < |s.ctl|
    case Leave => AtDrain(s.tx.phase)
    case Wait => s.tx.phase.WaitDone? && s.tx.read < |s.ctl|
    case Start => s.tx.phase.NextBlock?
    case Send(_) => s.tx.phase.Spray? && s.tx.phase.queue != [] && |s.tx.batch| < cfg.maxSegs
    case FlushBatch(_) =>
      s.tx.phase.Spray? && s.tx.batch != [] && (|s.tx.batch| == cfg.maxSegs || s.tx.phase.queue == [])
    case EndBlock => s.tx.phase.Spray? && s.tx.phase.queue == [] && s.tx.batch == []
    case Abort => !s.tx.phase.Finished?
    case Begin => s.rx.mode.Select? && s.rx.decoded < cfg.layout.numBlocks
    case Recv(index, _) =>
      && s.rx.mode.Batch? && index < |s.log| && s.log[index] in s.wire
      && (cfg.sealed ==> Acceptable(s.rx.accepted, s.log[index].seqno))
    case RecvForged(_, _, _) => s.rx.mode.Batch? && cfg.forging
    case EndBatch => s.rx.mode.Batch?
    case AckNext => s.rx.mode.Flush?
    case Tick(span) =>
      && s.rx.mode.Select? && s.rx.decoded < cfg.layout.numBlocks && s.rx.pkts > 0
      && (if cfg.sealed then span.Some? && span.value > 0 && IsHighest(s.rx.accepted, span.value - 1) else span.None?)
    case Verify => s.rx.mode.Select? && s.rx.decoded == cfg.layout.numBlocks
    case Stop => !s.rx.mode.Verified?
  }

  ghost function SenderStep(cfg: Config, s: State, step: Step): State
    requires WellFormed(cfg) && SizesOk(cfg, s) && Enabled(cfg, s, step)
  {
    match step
    case Drain => s.(tx := TakeFrame(s.tx, s.ctl[s.tx.read]))
    case Leave => s.(tx := LeaveDrain(s.tx))
    case Wait => s.(tx := WaitFrame(s.tx, s.ctl[s.tx.read]))
    case Start => s.(tx := StartBlock(cfg, s.tx))
    case Send(drop) =>
      var tx, b, pkt := s.tx, s.tx.phase.block, s.tx.phase.queue[0];
      var sent := tx.(packetsSent := tx.packetsSent + 1, nextSeq := tx.nextSeq + 1,
                      phase := tx.phase.(queue := tx.phase.queue[1..]));
      if drop then s.(tx := sent)
      else
        var d := Dgram(tx.nextSeq, b, pkt);
        s.(tx := sent.(batch := tx.batch + [d]), log := s.log + [d])
    case FlushBatch(Flushed) =>
      s.(tx := s.tx.(batch := []), wire := s.wire + (set d | d in s.tx.batch))
    case FlushBatch(Refused(kept)) =>
      s.(tx := s.tx.(batch := [], gone := true, phase := Settling, round := s.tx.round + 1),
         wire := s.wire + (set d | d in s.tx.batch[..MinNat(kept, |s.tx.batch|)]))
    case FlushBatch(Broken(kept)) =>
      s.(tx := s.tx.(batch := [], phase := Failed),
         wire := s.wire + (set d | d in s.tx.batch[..MinNat(kept, |s.tx.batch|)]))
    case EndBlock => s.(tx := s.tx.(phase := AfterBlock(s.tx.phase.rest)))
    case Abort => s.(tx := s.tx.(phase := Failed))
    case _ => s
  }

  ghost function ReceiverStep(cfg: Config, s: State, step: Step): State
    requires WellFormed(cfg) && SizesOk(cfg, s) && Enabled(cfg, s, step)
  {
    match step
    case Begin => s.(rx := s.rx.(mode := Batch))
    case Recv(index, w) =>
      var d := s.log[index];
      s.(rx := Collect(cfg, s.rx, d.block, d.pkt, w).(accepted := s.rx.accepted + {d.seqno}))
    case RecvForged(b, pkt, w) => s.(rx := Collect(cfg, s.rx, b, pkt, w))
    case EndBatch => s.(rx := s.rx.(mode := if s.rx.ioErr then Stopped else Flush))
    case AckNext =>
      if s.rx.pendingAcks == [] then s.(rx := s.rx.(mode := Select))
      else
        s.(rx := s.rx.(pendingAcks := s.rx.pendingAcks[1..]),
           ctl := s.ctl + [BlockDecoded(s.rx.pendingAcks[0])])
    case Tick(span) => s.(ctl := s.ctl + [Progress(s.rx.pkts, span)])
    case Verify =>
      s.(rx := s.rx.(mode := Verified), ctl := s.ctl + [Done(cfg.hash(s.rx.file) == cfg.hash(cfg.data))])
    case Stop => s.(rx := s.rx.(mode := Stopped))
    case _ => s
  }

  predicate OfSender(step: Step) {
    step.Drain? || step.Leave? || step.Wait? || step.Start? || step.Send? || step.FlushBatch?
    || step.EndBlock? || step.Abort?
  }

  ghost function Do(cfg: Config, s: State, step: Step): State
    requires WellFormed(cfg) && SizesOk(cfg, s) && Enabled(cfg, s, step)
  {
    if OfSender(step) then SenderStep(cfg, s, step) else ReceiverStep(cfg, s, step)
  }
}
