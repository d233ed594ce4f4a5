/**
 * Which symbols a transfer makes. Over every run the symbols of a block that
 * were put into datagrams, burned by a drop or are still queued are exactly the
 * first ones of its sequence, each once and in order.
 */
module TransferSymbols {
  import opened Prelude
  import opened Transfer
  import opened TransferSafety
  import opened TransferProgress
  import Repair

  // ----- every block is started in round 0 ------------------------------------------------

  /** Outside round 0, and in it for blocks whose turn is over, a block has been
      started or needs no starting any more; before its turn it has not. */
  ghost predicate TakenUp(cfg: Config, s: State)
    requires SizesOk(cfg, s)
  {
    s.tx.gone
    || forall b: nat | IsBlock(cfg, b) ::
         && (s.tx.round > 0 ==> s.tx.nextRepair[b] > 0 || s.tx.acked[b])
         && (s.tx.round == 0 && (s.tx.phase.Top? || s.tx.phase.WaitDone?) ==> s.tx.nextRepair[b] == 0)
         && (s.tx.round == 0 && InRound(s.tx.phase) ==>
               if b in Remaining(s.tx.phase) then s.tx.nextRepair[b] == 0 else s.tx.nextRepair[b] > 0 || s.tx.acked[b])
  }

  lemma TakenUpStart(cfg: Config, s: State)
    requires WellFormed(cfg) && SizesOk(cfg, s) && TakenUp(cfg, s) && RoundFresh(s) && s.tx.phase.NextBlock?
    ensures var s' := s.(tx := StartBlock(cfg, s.tx)); SizesOk(cfg, s') && TakenUp(cfg, s')
  {
    SizesStart(cfg, s);
    var rest := s.tx.phase.rest;
    if rest != [] {
      assert rest == [rest[0]] + rest[1..];
      assert rest[0] !in rest[1..];
    }
  }

  lemma TakenUpLeave(cfg: Config, s: State)
    requires WellFormed(cfg) && SizesOk(cfg, s) && TakenUp(cfg, s) && RoundFresh(s) && AtDrain(s.tx.phase)
    ensures var s' := s.(tx := LeaveDrain(s.tx)); SizesOk(cfg, s') && TakenUp(cfg, s')
  {
    SizesLeave(cfg, s);
    OutstandingExact(s.tx.acked);
  }

  lemma TakenUpStep(cfg: Config, s: State, step: Step)
    requires WellFormed(cfg) && SizesOk(cfg, s) && Enabled(cfg, s, step) && TakenUp(cfg, s) && RoundFresh(s)
    ensures SizesOk(cfg, Do(cfg, s, step)) && TakenUp(cfg, Do(cfg, s, step))
  {
    if step.Start? {
      TakenUpStart(cfg, s);
    } else if step.Leave? {
      TakenUpLeave(cfg, s);
    } else if OfSender(step) {
      SizesSender(cfg, s, step);
    } else {
      SizesReceiver(cfg, s, step);
    }
  }

  lemma {:induction false} TakenUpRun(cfg: Config, run: seq<Step>)
    requires WellFormed(cfg) && Run(cfg, run).Some?
    ensures TakenUp(cfg, Run(cfg, run).value)
  {
    if run != [] {
      TakenUpRun(cfg, run[..|run| - 1]);
      FreshRun(cfg, run[..|run| - 1]);
      TakenUpStep(cfg, Run(cfg, run[..|run| - 1]).value, run[|run| - 1]);
    }
  }

  // ----- symbols in the order they are made ---------------------------------------------------

  /** The symbol ids of block `b` sprayed by a run, dropped ones included, in order. */
  ghost function SprayedIds(cfg: Config, run: seq<Step>, b: nat): seq<nat>
    requires WellFormed(cfg) && Run(cfg, run).Some?
  {
    if run == [] then []
    else
      var front, step := run[..|run| - 1], run[|run| - 1];
      SprayedIds(cfg, front, b) + SprayedBy(Run(cfg, front).value, step, b)
  }

  /** The id that a step sprays for block `b`, if any. */
  function SprayedBy(s: State, step: Step, b: nat): seq<nat> {
    if step.Send? && s.tx.phase.Spray? && s.tx.phase.queue != [] && s.tx.phase.block == b then [s.tx.phase.queue[0].id]
    else []
  }

  ghost function SetOf(ids: seq<nat>): set<nat> {
    set id | id in ids
  }

  /** Those of them that a drop burned. */
  ghost function BurnedIds(cfg: Config, run: seq<Step>, b: nat): set<nat>
    requires WellFormed(cfg) && Run(cfg, run).Some?
  {
    if run == [] then {}
    else
      var front, step := run[..|run| - 1], run[|run| - 1];
      var ids := SprayedBy(Run(cfg, front).value, step, b);
      BurnedIds(cfg, front, b) + (if step.Send? && step.drop then SetOf(ids) else {})
  }

  /** The ids of block `b` that are in datagrams. */
  ghost function LogIds(log: seq<Dgram>, b: nat): set<nat> {
    set i | 0 <= i < |log| && log[i].block == b :: log[i].pkt.id
  }

  function IdsOf(q: seq<Packet>): (ids: seq<nat>)
    ensures |ids| == |q| && forall i | 0 <= i < |q| :: ids[i] == q[i].id
  {
    seq(|q|, i requires 0 <= i < |q| => q[i].id)
  }

  /** The ids of block `b` that are still to be sprayed. */
  function QueuedIds(phase: Phase, b: nat): seq<nat> {
    if phase.Spray? && phase.block == b then IdsOf(phase.queue) else []
  }

  function Upto(n: nat): (ids: seq<nat>)
    ensures |ids| == n && forall i | 0 <= i < n :: ids[i] == i
  {
    seq(n, i => i)
  }

  /** How many symbols of block `b` the sender has set out to make. */
  ghost function Planned(cfg: Config, tx: Sender, b: nat): nat
    requires WellFormed(cfg) && IsBlock(cfg, b) && |tx.nextRepair| == cfg.layout.numBlocks
  {
    if tx.nextRepair[b] == 0 then 0 else IdLimit(cfg, tx, b)
  }

  /** The sender can go on: its socket is there and it has not failed. */
  predicate Going(tx: Sender) {
    !tx.gone && !tx.phase.Failed?
  }

  /** A round queues exactly the next symbols of the block. */
  lemma RoundContinues(cfg: Config, s: State, b: nat)
    requires WellFormed(cfg) && SizesOk(cfg, s) && IsBlock(cfg, b)
    requires if s.tx.round == 0 then s.tx.nextRepair[b] == 0 else s.tx.nextRepair[b] > 0
    ensures var extra := Repair.RepairCount(s.tx.loss, cfg.cliFrac, s.tx.round, SourceCount(cfg, b));
            && extra > 0
            && Upto(Planned(cfg, s.tx, b)) + IdsOf(RoundPackets(cfg, s.tx, b))
               == Upto(SourceCount(cfg, b) + s.tx.nextRepair[b] + extra)
  {
  }

  lemma SymbolsStart(cfg: Config, s: State, b: nat)
    requires WellFormed(cfg) && SizesOk(cfg, s) && IsBlock(cfg, b) && s.tx.phase.NextBlock?
    requires TakenUp(cfg, s) && !s.tx.gone
    ensures var tx := StartBlock(cfg, s.tx);
            && |tx.nextRepair| == cfg.layout.numBlocks
            && Upto(Planned(cfg, s.tx, b)) + QueuedIds(tx.phase, b) == Upto(Planned(cfg, tx, b))
  {
    var rest := s.tx.phase.rest;
    if rest != [] {
      assert IsBlock(cfg, rest[0]);
      if rest[0] == b && !s.tx.acked[b] {
        RoundContinues(cfg, s, b);
      }
    }
  }

  lemma QueueSend(cfg: Config, s: State, drop: bool, b: nat)
    requires WellFormed(cfg) && SizesOk(cfg, s) && Enabled(cfg, s, Send(drop))
    ensures var tx := SenderStep(cfg, s, Send(drop)).tx;
            && tx.nextRepair == s.tx.nextRepair && Going(tx) == Going(s.tx)
            && SprayedBy(s, Send(drop), b) + QueuedIds(tx.phase, b) == QueuedIds(s.tx.phase, b)
  {
  }

  /** Steps other than `Start` leave the plan alone, and what is queued before them
      is sprayed by them or queued after them, unless the sender stops. */
  lemma QueueStep(cfg: Config, s: State, step: Step, b: nat)
    requires WellFormed(cfg) && SizesOk(cfg, s) && Enabled(cfg, s, step) && !step.Start?
    ensures var s' := Do(cfg, s, step);
            && s'.tx.nextRepair == s.tx.nextRepair
            && (Going(s'.tx) ==> Going(s.tx))
            && (Going(s'.tx) ==> SprayedBy(s, step, b) + QueuedIds(s'.tx.phase, b) == QueuedIds(s.tx.phase, b))
            && SprayedBy(s, step, b) <= QueuedIds(s.tx.phase, b)
  {
    if !OfSender(step) {
      SizesReceiver(cfg, s, step);
    } else if step.Send? {
      QueueSend(cfg, s, step.drop, b);
    } else {
      QueueOther(cfg, s, step, b);
    }
  }

  lemma QueueOther(cfg: Config, s: State, step: Step, b: nat)
    requires WellFormed(cfg) && SizesOk(cfg, s) && Enabled(cfg, s, step)
    requires OfSender(step) && !step.Start? && !step.Send?
    ensures var tx := SenderStep(cfg, s, step).tx;
            && tx.nextRepair == s.tx.nextRepair && (Going(tx) ==> Going(s.tx))
            && (Going(tx) ==> QueuedIds(tx.phase, b) == QueuedIds(s.tx.phase, b))
  {
  }

  /** What a block's sprayed symbols are at every point of a run. */
  ghost predicate InOrder(cfg: Config, tx: Sender, sprayed: seq<nat>, b: nat)
    requires WellFormed(cfg) && IsBlock(cfg, b) && |tx.nextRepair| == cfg.layout.numBlocks
  {
    && sprayed <= Upto(Planned(cfg, tx, b))
    && (Going(tx) ==> sprayed + QueuedIds(tx.phase, b) == Upto(Planned(cfg, tx, b)))
  }

  lemma InOrderAfter(cfg: Config, tx: Sender, tx': Sender, sprayed: seq<nat>, ids: seq<nat>, b: nat)
    requires WellFormed(cfg) && IsBlock(cfg, b) && |tx.nextRepair| == cfg.layout.numBlocks
    requires InOrder(cfg, tx, sprayed, b) && tx'.nextRepair == tx.nextRepair
    requires ids == [] || (Going(tx) && ids <= QueuedIds(tx.phase, b))
    requires Going(tx') ==> Going(tx) && ids + QueuedIds(tx'.phase, b) == QueuedIds(tx.phase, b)
    ensures InOrder(cfg, tx', sprayed + ids, b)
  {
    var queued, queued' := QueuedIds(tx.phase, b), QueuedIds(tx'.phase, b);
    assert (sprayed + ids) + queued' == sprayed + (ids + queued');
    if ids == [] {
      assert sprayed + ids == sprayed;
    }
  }

  lemma InOrderStep(cfg: Config, s: State, step: Step, sprayed: seq<nat>, b: nat)
    requires WellFormed(cfg) && SizesOk(cfg, s) && Enabled(cfg, s, step) && IsBlock(cfg, b)
    requires TakenUp(cfg, s) && (s.tx.gone ==> !InRound(s.tx.phase)) && InOrder(cfg, s.tx, sprayed, b)
    ensures |Do(cfg, s, step).tx.nextRepair| == cfg.layout.numBlocks
    ensures InOrder(cfg, Do(cfg, s, step).tx, sprayed + SprayedBy(s, step, b), b)
  {
    if step.Start? {
      SymbolsStart(cfg, s, b);
      assert sprayed + [] == sprayed;
    } else {
      QueueStep(cfg, s, step, b);
      InOrderAfter(cfg, s.tx, Do(cfg, s, step).tx, sprayed, SprayedBy(s, step, b), b);
    }
  }

  /** Over every run the symbols sprayed for a block, followed by the queued ones,
      are 0, 1, 2, ... up to what the sender has set out to make, with none left
      out, repeated or out of order; if the sender stopped, a beginning of that. */
  lemma {:induction false} SymbolsInOrder(cfg: Config, run: seq<Step>, b: nat)
    requires WellFormed(cfg) && Run(cfg, run).Some? && IsBlock(cfg, b)
    ensures InOrder(cfg, Run(cfg, run).value.tx, SprayedIds(cfg, run, b), b)
  {
    if run != [] {
      var front, step := run[..|run| - 1], run[|run| - 1];
      SymbolsInOrder(cfg, front, b);
      TakenUpRun(cfg, front);
      NothingIsLeftBehind(cfg, front);
      InOrderStep(cfg, Run(cfg, front).value, step, SprayedIds(cfg, front, b), b);
    }
  }

  // ----- symbols in datagrams, burned and queued ------------------------------------------------

  lemma LogIdsStep(cfg: Config, s: State, step: Step, b: nat)
    requires WellFormed(cfg) && SizesOk(cfg, s) && Enabled(cfg, s, step)
    ensures var ids, s' := SprayedBy(s, step, b), Do(cfg, s, step);
            LogIds(s'.log, b) == LogIds(s.log, b) + (if step.Send? && !step.drop then SetOf(ids) else {})
  {
    var s' := Do(cfg, s, step);
    if step.Send? && !step.drop {
      assert s'.log == s.log + [Dgram(s.tx.nextSeq, s.tx.phase.block, s.tx.phase.queue[0])];
      LogIdsSnoc(s.log, s'.log[|s.log|], b);
    } else if OfSender(step) {
      assert s'.log == s.log;
    } else {
      SizesReceiver(cfg, s, step);
      assert s'.log == s.log;
    }
  }

  lemma LogIdsSnoc(log: seq<Dgram>, d: Dgram, b: nat)
    ensures LogIds(log + [d], b) == LogIds(log, b) + (if d.block == b then {d.pkt.id} else {})
  {
    var after := log + [d];
    assert forall i | 0 <= i < |log| :: after[i] == log[i];
    forall id
      ensures id in LogIds(after, b) <==> id in LogIds(log, b) + (if d.block == b then {d.pkt.id} else {})
    {
      if id in LogIds(log, b) {
        var i :| 0 <= i < |log| && log[i].block == b && log[i].pkt.id == id;
        assert after[i].pkt.id == id;
      }
      if d.block == b && id == d.pkt.id {
        assert after[|log|].pkt.id == id;
      }
    }
  }

  /** Every sprayed symbol is in a datagram or burned, and not both. */
  lemma {:induction false} DatagramOrBurned(cfg: Config, run: seq<Step>, b: nat)
    requires WellFormed(cfg) && Run(cfg, run).Some? && IsBlock(cfg, b)
    ensures var logged, burned := LogIds(Run(cfg, run).value.log, b), BurnedIds(cfg, run, b);
            logged !! burned && logged + burned == SetOf(SprayedIds(cfg, run, b))
  {
    if run != [] {
      var front, step := run[..|run| - 1], run[|run| - 1];
      var s, ids := Run(cfg, front).value, SprayedBy(Run(cfg, front).value, step, b);
      DatagramOrBurned(cfg, front, b);
      LogIdsStep(cfg, s, step, b);
      SymbolsInOrder(cfg, run, b);
      NewIdIsNew(SprayedIds(cfg, front, b), ids, Planned(cfg, Run(cfg, run).value.tx, b));
    } else {
      assert LogIds([], b) == {};
    }
  }

  lemma NewIdIsNew(earlier: seq<nat>, ids: seq<nat>, n: nat)
    requires earlier + ids <= Upto(n)
    ensures SetOf(earlier) !! SetOf(ids)
    ensures SetOf(earlier + ids) == SetOf(earlier) + SetOf(ids)
  {
    assert forall i | 0 <= i < |ids| :: ids[i] == (earlier + ids)[|earlier| + i] == |earlier| + i;
    assert forall i | 0 <= i < |earlier| :: earlier[i] == (earlier + ids)[i] == i;
  }

  /** While the sender can go on, the symbols of a block in datagrams, burned and
      queued are exactly those it has set out to make: all ids below the plan, each
      in one of the three. */
  lemma {:induction false} EverySymbolOnce(cfg: Config, run: seq<Step>, b: nat)
    requires WellFormed(cfg) && Run(cfg, run).Some? && IsBlock(cfg, b) && Going(Run(cfg, run).value.tx)
    ensures var s := Run(cfg, run).value;
            var logged, burned, queued := LogIds(s.log, b), BurnedIds(cfg, run, b), SetOf(QueuedIds(s.tx.phase, b));
            && logged + burned + queued == Below(Planned(cfg, s.tx, b))
            && logged !! burned && (logged + burned) !! queued
  {
    var s := Run(cfg, run).value;
    SymbolsInOrder(cfg, run, b);
    DatagramOrBurned(cfg, run, b);
    NewIdIsNew(SprayedIds(cfg, run, b), QueuedIds(s.tx.phase, b), Planned(cfg, s.tx, b));
    UptoIsBelow(Planned(cfg, s.tx, b));
  }

  lemma UptoIsBelow(n: nat)
    ensures SetOf(Upto(n)) == Below(n)
  {
    forall i: nat | i < n
      ensures i in Upto(n)
    {
      assert Upto(n)[i] == i;
    }
  }

  lemma UnionSize(a: set<nat>, b: set<nat>, c: set<nat>, n: nat)
    requires a + b + c == Below(n) && a !! b && (a + b) !! c
    ensures |a| + |b| + |c| == n
  {
    assert |a + b| == |a| + |b|;
    assert |a + b + c| == |a + b| + |c|;
  }

  // ----- rounds -----------------------------------------------------------------------------------

  /** The step ends a round: every block was taken up, or the receiver's socket is gone. */
  predicate EndsRound(s: State, step: Step) {
    || (step.Start? && s.tx.phase.NextBlock? && s.tx.phase.rest == [])
    || (step.FlushBatch? && step.result.Refused?)
  }

  /** The step starts a repair round of block `b`. */
  predicate StartsRepair(s: State, step: Step, b: nat) {
    && step.Start? && s.tx.phase.NextBlock? && s.tx.phase.rest != [] && s.tx.phase.rest[0] == b
    && b < |s.tx.acked| && !s.tx.acked[b] && s.tx.round > 0
  }

  ghost function CountRounds(cfg: Config, run: seq<Step>): nat
    requires WellFormed(cfg) && Run(cfg, run).Some?
  {
    if run == [] then 0
    else
      var front := run[..|run| - 1];
      CountRounds(cfg, front) + (if EndsRound(Run(cfg, front).value, run[|run| - 1]) then 1 else 0)
  }

  ghost function CountRepairs(cfg: Config, run: seq<Step>, b: nat): nat
    requires WellFormed(cfg) && Run(cfg, run).Some?
  {
    if run == [] then 0
    else
      var front := run[..|run| - 1];
      CountRepairs(cfg, front, b) + (if StartsRepair(Run(cfg, front).value, run[|run| - 1], b) then 1 else 0)
  }

  lemma RoundStep(cfg: Config, s: State, step: Step)
    requires WellFormed(cfg) && SizesOk(cfg, s) && Enabled(cfg, s, step)
    ensures Do(cfg, s, step).tx.round == s.tx.round + (if EndsRound(s, step) then 1 else 0)
  {
    if !OfSender(step) {
      SizesReceiver(cfg, s, step);
    }
  }

  lemma RepairStep(cfg: Config, s: State, step: Step, b: nat)
    requires WellFormed(cfg) && SizesOk(cfg, s) && Enabled(cfg, s, step) && IsBlock(cfg, b)
    ensures |Do(cfg, s, step).tx.repairRounds| == cfg.layout.numBlocks
    ensures Do(cfg, s, step).tx.repairRounds[b] == s.tx.repairRounds[b] + (if StartsRepair(s, step, b) then 1 else 0)
  {
    if !step.Start? {
      RepairTablesKept(cfg, s, step);
    }
  }

  /** Over every run the round number is the number of rounds ended so far, and each
      block's repair rounds are counted one by one. */
  lemma {:induction false} RoundsAreCounted(cfg: Config, run: seq<Step>, b: nat)
    requires WellFormed(cfg) && Run(cfg, run).Some? && IsBlock(cfg, b)
    ensures Run(cfg, run).value.tx.round == CountRounds(cfg, run)
    ensures Run(cfg, run).value.tx.repairRounds[b] == CountRepairs(cfg, run, b)
  {
    if run != [] {
      var front, step := run[..|run| - 1], run[|run| - 1];
      RoundsAreCounted(cfg, front, b);
      RoundStep(cfg, Run(cfg, front).value, step);
      RepairStep(cfg, Run(cfg, front).value, step, b);
    }
  }

  /** What a round queues for a block of k source symbols is sized by the loss estimate
      and the round: repair symbols, in the first round after the source symbols. */
  lemma RoundIsSized(cfg: Config, tx: Sender, b: nat, f: real)
    requires WellFormed(cfg) && IsBlock(cfg, b) && tx.phase.NextBlock? && tx.phase.rest != [] && tx.phase.rest[0] == b
    requires |tx.acked| == |tx.nextRepair| == |tx.repairRounds| == cfg.layout.numBlocks && !tx.acked[b]
    requires forall i | 0 <= i < |tx.phase.rest| :: IsBlock(cfg, tx.phase.rest[i])
    requires Repair.Fraction(tx.loss, cfg.cliFrac, tx.round, f)
    ensures StartBlock(cfg, tx).phase.Spray?
    ensures var n, k := |StartBlock(cfg, tx).phase.queue|, SourceCount(cfg, b);
            if tx.round == 0 then n >= k && Repair.SizedBy(n - k, k, f, 2) else Repair.SizedBy(n, k, f, 8)
  {
    Repair.RoundFollowsEstimate(tx.loss, cfg.cliFrac, tx.round, SourceCount(cfg, b), f);
  }

  /** After r repair rounds of a block of k source symbols the sender has made its k
      source symbols and at least r times max(8, k/16) repair symbols, all different. */
  lemma {:induction false} RepairRoundsAreProductive(cfg: Config, run: seq<Step>, b: nat)
    requires WellFormed(cfg) && Run(cfg, run).Some? && IsBlock(cfg, b) && Going(Run(cfg, run).value.tx)
    requires CountRepairs(cfg, run, b) > 0
    ensures var s, k := Run(cfg, run).value, SourceCount(cfg, b);
            |LogIds(s.log, b)| + |BurnedIds(cfg, run, b)| + |SetOf(QueuedIds(s.tx.phase, b))|
            >= k + CountRepairs(cfg, run, b) * RoundMinimum(k)
  {
    var s, k := Run(cfg, run).value, SourceCount(cfg, b);
    RoundsAreCounted(cfg, run, b);
    EverySymbolOnce(cfg, run, b);
    ProductiveRun(cfg, run);
    AtLeastOnce(s.tx.repairRounds[b], RoundMinimum(k));
    UnionSize(LogIds(s.log, b), BurnedIds(cfg, run, b), SetOf(QueuedIds(s.tx.phase, b)), Planned(cfg, s.tx, b));
  }

  lemma AtLeastOnce(r: nat, m: nat)
    requires r > 0 && m > 0
    ensures r * m > 0
  {
  }
}
