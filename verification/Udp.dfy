/**
 * Batching and segmentation of datagrams: the sender's super-buffers, the
 * resumable `sendmmsg` loop with an arbitrary kernel behind it, and the
 * receiver's split of coalesced buffers.
 */
module Udp {
  import opened Prelude

  const MAX_GSO_SEGMENTS: nat := 64
  const MAX_GSO_BYTES: nat := 65000

  /** `buf.chunks(seg)`: pieces of `seg` bytes, the last one possibly shorter. */
  function Chunks(buf: seq<byte>, seg: nat): seq<seq<byte>>
    requires seg > 0
  {
    if |buf| == 0 then [] else if |buf| <= seg then [buf] else [buf[..seg]] + Chunks(buf[seg..], seg)
  }

  function Flatten(parts: seq<seq<byte>>): seq<byte> {
    if parts == [] then [] else parts[0] + Flatten(parts[1..])
  }

  /** The pieces put together give the buffer back. */
  lemma {:induction false} FlattenChunks(buf: seq<byte>, seg: nat)
    requires seg > 0
    ensures Flatten(Chunks(buf, seg)) == buf
  {
    if |buf| > seg {
      FlattenChunks(buf[seg..], seg);
      assert Chunks(buf, seg)[1..] == Chunks(buf[seg..], seg);
      assert buf == buf[..seg] + buf[seg..];
    } else if |buf| > 0 {
      assert Chunks(buf, seg)[1..] == [];
    }
  }

  /** Every part has `seg` bytes, except that the last may be shorter but not empty. */
  ghost predicate Segmented(parts: seq<seq<byte>>, seg: nat) {
    forall i | 0 <= i < |parts| :: 0 < |parts[i]| <= seg && (i < |parts| - 1 ==> |parts[i]| == seg)
  }

  /** Splitting undoes coalescing: the receiver gets back exactly the datagrams
      that were joined, short tail included. */
  lemma {:induction false} ChunksUndoFlatten(parts: seq<seq<byte>>, seg: nat)
    requires seg > 0 && Segmented(parts, seg)
    ensures Chunks(Flatten(parts), seg) == parts
  {
    if |parts| == 1 {
      assert Flatten(parts) == parts[0] + [] == parts[0];
      assert parts == [parts[0]];
    } else if parts != [] {
      var rest := parts[1..];
      ChunksUndoFlatten(rest, seg);
      var buf := Flatten(parts);
      assert |rest[0]| > 0 && rest[0] == Flatten(rest)[..|rest[0]|];
      assert buf[..seg] == parts[0] && buf[seg..] == Flatten(rest);
    }
  }

  lemma {:induction false} ChunksAreSegmented(buf: seq<byte>, seg: nat)
    requires seg > 0
    ensures Segmented(Chunks(buf, seg), seg)
  {
    if |buf| > seg {
      ChunksAreSegmented(buf[seg..], seg);
      var rest := Chunks(buf[seg..], seg);
      assert forall i | 1 <= i < |rest| + 1 :: Chunks(buf, seg)[i] == rest[i - 1];
    }
  }

  // ----- the receiver's split ----------------------------------------------------

  /** One received message with the segment size the kernel reported, if any. */
  function Split(buf: seq<byte>, gro: Option<nat>): seq<seq<byte>> {
    if buf == [] then [] else Chunks(buf, MaxNat(if gro.Some? then gro.value else |buf|, 1))
  }

  /** Whatever equal-size datagrams (with an optional short tail) the kernel
      coalesced, the split delivers them one by one and unchanged; a message
      without a reported size is one datagram. */
  lemma {:induction false} SplitDelivers(parts: seq<seq<byte>>, seg: nat)
    requires seg > 0 && Segmented(parts, seg)
    ensures Split(Flatten(parts), Some(seg)) == parts
    ensures |parts| == 1 ==> Split(Flatten(parts), None) == parts
  {
    ChunksUndoFlatten(parts, seg);
    if |parts| == 1 {
      assert Flatten(parts) == parts[0] + [] == parts[0];
      assert parts == [parts[0]];
    } else if |parts| > 1 {
      assert Flatten(parts) != [];
    }
  }

  // ----- sending with partial acceptance ------------------------------------------

  /** What the kernel says to one system call: try again, take some messages, or fail. */
  datatype Reply = WouldBlock | Accept(messages: nat) | Error

  datatype SendOutcome = Sent | Failed | Waiting

  /** Consuming the first `n` pieces leaves the pieces of the rest of the buffer. */
  lemma {:induction false} ChunksDrop(buf: seq<byte>, seg: nat, n: nat)
    requires seg > 0 && n <= |Chunks(buf, seg)|
    ensures |Flatten(Chunks(buf, seg)[..n])| <= |buf|
    ensures Chunks(buf[|Flatten(Chunks(buf, seg)[..n])|..], seg) == Chunks(buf, seg)[n..]
  {
    var all := Chunks(buf, seg);
    if n == 0 {
      assert buf[0..] == buf;
    } else {
      var head, rest := all[0], buf[|all[0]|..];
      assert Chunks(rest, seg) == all[1..];
      ChunksDrop(rest, seg, n - 1);
      assert all[..n] == [head] + all[1..][..n - 1];
      assert all[..n][1..] == all[1..][..n - 1];
      var k := |Flatten(all[1..][..n - 1])|;
      assert buf[|head| + k..] == rest[k..];
    }
  }

  /** One `sendmmsg`: up to 64 of the pieces are offered, the kernel takes `taken`. */
  method SendMmsgOnce(buf: seq<byte>, seg: nat, taken: nat) returns (bytes: nat, emitted: seq<seq<byte>>)
    requires seg > 0
    ensures emitted == Chunks(buf, seg)[..MinNat(taken, MinNat(|Chunks(buf, seg)|, MAX_GSO_SEGMENTS))]
    ensures bytes == |Flatten(emitted)|
  {
    var all := Chunks(buf, seg);
    var count := MinNat(|all|, MAX_GSO_SEGMENTS);
    var n := MinNat(taken, count);
    emitted := all[..n];
    bytes := 0;
    for i := 0 to n
      invariant bytes == |Flatten(all[..i])|
    {
      FlattenSnoc(all[..i], all[i]);
      assert all[..i + 1] == all[..i] + [all[i]];
      bytes := bytes + |all[i]|;
    }
  }

  lemma {:induction false} FlattenSnoc(parts: seq<seq<byte>>, p: seq<byte>)
    ensures Flatten(parts + [p]) == Flatten(parts) + p
  {
    if parts == [] {
      assert [p][1..] == [];
    } else {
      FlattenSnoc(parts[1..], p);
      assert (parts + [p])[1..] == parts[1..] + [p];
    }
  }

  /** After some of the remaining pieces went out, the rest of the buffer still
      holds exactly the pieces to come. */
  lemma Resume(buf: seq<byte>, seg: nat, off: nat, emitted: seq<seq<byte>>, out: seq<seq<byte>>)
    requires seg > 0 && off <= |buf|
    requires emitted + Chunks(buf[off..], seg) == Chunks(buf, seg)
    requires out <= Chunks(buf[off..], seg)
    ensures off + |Flatten(out)| <= |buf|
    ensures (emitted + out) + Chunks(buf[off + |Flatten(out)|..], seg) == Chunks(buf, seg)
  {
    var rest := Chunks(buf[off..], seg);
    ChunksDrop(buf[off..], seg, |out|);
    assert out == rest[..|out|];
    assert buf[off..][|Flatten(out)|..] == buf[off + |Flatten(out)|..];
    assert emitted + rest == (emitted + out) + rest[|out|..];
  }

  /** How many of `total` pieces are out after the given replies: with offload a
      call takes everything, otherwise up to 64 pieces at a time. */
  function PiecesOut(total: nat, gso: bool, replies: seq<Reply>): (n: nat)
    ensures n <= total
  {
    if replies == [] then 0
    else
      var done, reply := PiecesOut(total, gso, replies[..|replies| - 1]), replies[|replies| - 1];
      if !reply.Accept? then done
      else if gso then total
      else done + MinNat(reply.messages, MinNat(total - done, MAX_GSO_SEGMENTS))
  }

  /** What the kernel said it took, at most 64 pieces a call. */
  function Taken(replies: seq<Reply>): nat {
    if replies == [] then 0
    else
      var reply := replies[|replies| - 1];
      Taken(replies[..|replies| - 1]) + (if reply.Accept? then MinNat(reply.messages, 64) else 0)
  }

  /** Without offload exactly as many pieces are out as the kernel took, until all are. */
  lemma {:induction false} PiecesOutAreTaken(total: nat, replies: seq<Reply>)
    ensures PiecesOut(total, false, replies) == MinNat(total, Taken(replies))
  {
    if replies != [] {
      PiecesOutAreTaken(total, replies[..|replies| - 1]);
    }
  }

  /** The calls in which the kernel took something. */
  function Takes(gso: bool, replies: seq<Reply>): nat {
    if replies == [] then 0
    else
      var reply := replies[|replies| - 1];
      Takes(gso, replies[..|replies| - 1]) + (if reply.Accept? && (gso || reply.messages > 0) then 1 else 0)
  }

  /** Every call that takes something takes at least one piece, and with offload all. */
  lemma {:induction false} TakesMakeProgress(total: nat, gso: bool, replies: seq<Reply>)
    ensures PiecesOut(total, gso, replies) >= MinNat(total, Takes(gso, replies))
    ensures gso && Takes(gso, replies) > 0 ==> PiecesOut(total, gso, replies) == total
  {
    if replies != [] {
      TakesMakeProgress(total, gso, replies[..|replies| - 1]);
    }
  }

  /** One accepted system call: `sendmsg` with offload, `sendmmsg` without. */
  method SendOnce(rest: seq<byte>, seg: nat, gso: bool, messages: nat) returns (bytes: nat, out: seq<seq<byte>>)
    requires seg > 0
    ensures out <= Chunks(rest, seg) && bytes == |Flatten(out)|
    ensures |out| == if gso then |Chunks(rest, seg)|
                     else MinNat(messages, MinNat(|Chunks(rest, seg)|, MAX_GSO_SEGMENTS))
  {
    if gso {
      bytes, out := |rest|, Chunks(rest, seg);
      FlattenChunks(rest, seg);
    } else {
      bytes, out := SendMmsgOnce(rest, seg, messages);
    }
  }

  /** The state of the send loop: after `calls` replies `emitted` is out and the
      buffer from `off` on holds the other pieces. */
  ghost predicate Sending(buf: seq<byte>, seg: nat, gso: bool, kernel: seq<Reply>,
                          off: nat, emitted: seq<seq<byte>>, calls: nat)
    requires seg > 0
  {
    && off <= |buf| && calls <= |kernel|
    && emitted + Chunks(buf[off..], seg) == Chunks(buf, seg)
    && |emitted| == PiecesOut(|Chunks(buf, seg)|, gso, kernel[..calls])
  }

  /** A reply that takes nothing. */
  lemma Refused(buf: seq<byte>, seg: nat, gso: bool, kernel: seq<Reply>,
                off: nat, emitted: seq<seq<byte>>, calls: nat)
    requires seg > 0 && Sending(buf, seg, gso, kernel, off, emitted, calls)
    requires calls < |kernel| && !kernel[calls].Accept?
    ensures Sending(buf, seg, gso, kernel, off, emitted, calls + 1)
  {
    assert kernel[..calls + 1][..calls] == kernel[..calls];
  }

  /** A reply that takes the pieces `out`. */
  lemma Accepted(buf: seq<byte>, seg: nat, gso: bool, kernel: seq<Reply>,
                 off: nat, emitted: seq<seq<byte>>, calls: nat, out: seq<seq<byte>>)
    requires seg > 0 && Sending(buf, seg, gso, kernel, off, emitted, calls)
    requires calls < |kernel| && kernel[calls].Accept? && out <= Chunks(buf[off..], seg)
    requires |out| == if gso then |Chunks(buf[off..], seg)|
                      else MinNat(kernel[calls].messages, MinNat(|Chunks(buf[off..], seg)|, MAX_GSO_SEGMENTS))
    ensures Sending(buf, seg, gso, kernel, off + |Flatten(out)|, emitted + out, calls + 1)
  {
    assert kernel[..calls + 1][..calls] == kernel[..calls];
    Resume(buf, seg, off, emitted, out);
  }

  /** What has gone out so far: a beginning of the pieces, segmented like them, and all
      of them exactly at the end of the buffer. */
  lemma SoFar(buf: seq<byte>, seg: nat, gso: bool, kernel: seq<Reply>,
              off: nat, emitted: seq<seq<byte>>, calls: nat)
    requires seg > 0 && Sending(buf, seg, gso, kernel, off, emitted, calls)
    ensures emitted == Chunks(buf, seg)[..PiecesOut(|Chunks(buf, seg)|, gso, kernel[..calls])]
    ensures Segmented(emitted, seg)
    ensures emitted == Chunks(buf, seg) <==> off == |buf|
  {
    ChunksAreSegmented(buf, seg);
    var rest := Chunks(buf[off..], seg);
    assert rest == [] <==> off == |buf|;
    assert |Chunks(buf, seg)| == |emitted| + |rest|;
  }

  /** Having met no error, with pieces left, the loop has had few takers. */
  lemma StillWaiting(buf: seq<byte>, seg: nat, gso: bool, kernel: seq<Reply>, off: nat, emitted: seq<seq<byte>>)
    requires seg > 0 && Sending(buf, seg, gso, kernel, off, emitted, |kernel|) && off < |buf|
    ensures Takes(gso, kernel) < |Chunks(buf, seg)|
    ensures gso ==> Takes(gso, kernel) == 0
  {
    assert kernel[..|kernel|] == kernel && |Chunks(buf[off..], seg)| > 0;
    TakesMakeProgress(|Chunks(buf, seg)|, gso, kernel);
  }

  /** One pass of the send loop over a reply that is no error. */
  method Advance(buf: seq<byte>, seg: nat, gso: bool, kernel: seq<Reply>, off: nat, emitted: seq<seq<byte>>, calls: nat)
    returns (off': nat, emitted': seq<seq<byte>>)
    requires seg > 0 && Sending(buf, seg, gso, kernel, off, emitted, calls)
    requires calls < |kernel| && kernel[calls] != Error
    ensures Sending(buf, seg, gso, kernel, off', emitted', calls + 1)
  {
    match kernel[calls] {
      case WouldBlock =>
        Refused(buf, seg, gso, kernel, off, emitted, calls);
        off', emitted' := off, emitted;
      case Accept(n) =>
        var bytes, out := SendOnce(buf[off..], seg, gso, n);
        Accepted(buf, seg, gso, kernel, off, emitted, calls, out);
        off', emitted' := off + bytes, emitted + out;
    }
  }

  /** Sends a super-buffer against an arbitrary sequence of kernel replies. What
      goes out is exactly what the replies allow, in order and without repetition,
      cut into segments. The call fails at the first error it meets before it is
      done, succeeds when every piece is out, and is still waiting only if the
      kernel reported no error and took something fewer times than there are
      pieces (with offload: not once). */
  method SendSegments(buf: seq<byte>, seg: nat, gso: bool, kernel: seq<Reply>)
    returns (outcome: SendOutcome, emitted: seq<seq<byte>>, calls: nat)
    requires seg > 0 && (gso ==> seg < 0x1_0000)
    ensures calls <= |kernel|
    ensures emitted == Chunks(buf, seg)[..PiecesOut(|Chunks(buf, seg)|, gso, kernel[..calls])]
    ensures Segmented(emitted, seg)
    ensures outcome == Sent <==> emitted == Chunks(buf, seg)
    ensures forall i | 0 <= i < calls && kernel[i] == Error :: outcome == Failed && i == calls - 1
    ensures outcome == Failed ==> calls > 0 && kernel[calls - 1] == Error
    ensures outcome == Waiting ==> calls == |kernel| && Takes(gso, kernel) < |Chunks(buf, seg)|
    ensures outcome == Waiting && gso ==> Takes(gso, kernel) == 0
  {
    var off: nat := 0;
    emitted, calls := [], 0;
    assert buf[0..] == buf;
    while off < |buf|
      invariant Sending(buf, seg, gso, kernel, off, emitted, calls)
      invariant forall i | 0 <= i < calls :: kernel[i] != Error
      decreases |kernel| - calls
    {
      if calls == |kernel| {
        SoFar(buf, seg, gso, kernel, off, emitted, calls);
        StillWaiting(buf, seg, gso, kernel, off, emitted);
        return Waiting, emitted, calls;
      }
      if kernel[calls] == Error {
        Refused(buf, seg, gso, kernel, off, emitted, calls);
        SoFar(buf, seg, gso, kernel, off, emitted, calls + 1);
        return Failed, emitted, calls + 1;
      }
      off, emitted := Advance(buf, seg, gso, kernel, off, emitted, calls);
      calls := calls + 1;
    }
    SoFar(buf, seg, gso, kernel, off, emitted, calls);
    outcome := Sent;
  }

  // ----- building super-buffers ----------------------------------------------------

  /** Datagrams per super-buffer. */
  function MaxSegs(seg: nat): (n: nat)
    requires seg > 0
    ensures 1 <= n <= MAX_GSO_SEGMENTS
  {
    MinNat(MaxNat(MAX_GSO_BYTES / seg, 1), MAX_GSO_SEGMENTS)
  }

  /** A full super-buffer fits the kernel's limit exactly when one datagram does,
      and one datagram more would exceed a limit. */
  lemma BatchFits(seg: nat)
    requires seg > 0
    ensures MaxSegs(seg) * seg <= MAX_GSO_BYTES <==> seg <= MAX_GSO_BYTES
    ensures MaxSegs(seg) == MAX_GSO_SEGMENTS || (MaxSegs(seg) + 1) * seg > MAX_GSO_BYTES
  {
    var q := MAX_GSO_BYTES / seg;
    assert MAX_GSO_BYTES == q * seg + MAX_GSO_BYTES % seg;
    assert (q + 1) * seg == q * seg + seg;
    if seg <= MAX_GSO_BYTES {
      MulMono(MaxSegs(seg), q, seg);
    } else {
      MulMono(q + 1, MaxSegs(seg) + 1, seg);
    }
  }

  /** The largest symbol size makes a datagram that no super-buffer can hold. */
  lemma OversizedDatagram()
    ensures var seg := 20 + 16 + 4 + 4 + 65535; MaxSegs(seg) * seg > MAX_GSO_BYTES
  {
  }

  /** All pieces of a list of super-buffers, in order. */
  function AllChunks(flushes: seq<seq<byte>>, seg: nat): seq<seq<byte>>
    requires seg > 0
  {
    if flushes == [] then []
    else AllChunks(flushes[..|flushes| - 1], seg) + Chunks(flushes[|flushes| - 1], seg)
  }

  lemma Snoc(done: seq<seq<byte>>, held: seq<seq<byte>>, wires: seq<seq<byte>>, i: nat)
    requires i < |wires| && done + held == wires[..i]
    ensures done + (held + [wires[i]]) == wires[..i + 1]
  {
    assert wires[..i + 1] == wires[..i] + [wires[i]];
  }

  /** `flushes` carry `wires` in order, in buffers of `maxSegs` datagrams; only
      the last buffer may hold fewer, unless `full` forbids it. */
  ghost predicate Packed(flushes: seq<seq<byte>>, wires: seq<seq<byte>>, seg: nat, maxSegs: nat, full: bool)
    requires seg > 0
  {
    && AllChunks(flushes, seg) == wires
    && (forall i | 0 <= i < |flushes| :: 0 < |Chunks(flushes[i], seg)| <= maxSegs)
    && (forall i | 0 <= i < |flushes| && (full || i < |flushes| - 1) :: |Chunks(flushes[i], seg)| == maxSegs)
  }

  /** One more buffer. */
  lemma AppendBatch(flushes: seq<seq<byte>>, wires: seq<seq<byte>>, held: seq<seq<byte>>, seg: nat, maxSegs: nat)
    requires seg > 0 && Packed(flushes, wires, seg, maxSegs, true)
    requires 0 < |held| <= maxSegs && forall i | 0 <= i < |held| :: |held[i]| == seg
    ensures Packed(flushes + [Flatten(held)], wires + held, seg, maxSegs, |held| == maxSegs)
  {
    ChunksUndoFlatten(held, seg);
    assert (flushes + [Flatten(held)])[..|flushes|] == flushes;
  }

  /** Packs equal-size datagrams into super-buffers of `maxSegs` datagrams, the
      last one possibly smaller. */
  method PackBatches(wires: seq<seq<byte>>, seg: nat, maxSegs: nat) returns (flushes: seq<seq<byte>>)
    requires seg > 0 && maxSegs > 0 && forall i | 0 <= i < |wires| :: |wires[i]| == seg
    ensures Packed(flushes, wires, seg, maxSegs, false)
  {
    var batch: seq<byte>, batchSegs := [], 0;
    ghost var done: seq<seq<byte>>, held: seq<seq<byte>> := [], [];
    flushes := [];
    for i := 0 to |wires|
      invariant |held| == batchSegs < maxSegs && batch == Flatten(held)
      invariant forall j | 0 <= j < |held| :: |held[j]| == seg
      invariant done + held == wires[..i]
      invariant Packed(flushes, done, seg, maxSegs, true)
    {
      FlattenSnoc(held, wires[i]);
      Snoc(done, held, wires, i);
      batch := batch + wires[i];
      batchSegs := batchSegs + 1;
      held := held + [wires[i]];
      if batchSegs == maxSegs {
        AppendBatch(flushes, done, held, seg, maxSegs);
        flushes := flushes + [batch];
        done := done + held;
        batch, batchSegs, held := [], 0, [];
      }
    }
    assert wires[..|wires|] == wires;
    if batchSegs > 0 {
      AppendBatch(flushes, done, held, seg, maxSegs);
      flushes := flushes + [batch];
    }
  }

  lemma {:induction false} ChunksLength(buf: seq<byte>, seg: nat)
    requires seg > 0
    ensures |buf| <= |Chunks(buf, seg)| * seg
  {
    if |buf| > seg {
      ChunksLength(buf[seg..], seg);
      var n := |Chunks(buf[seg..], seg)|;
      assert (n + 1) * seg == n * seg + seg;
    }
  }

  /** A super-buffer of at most `MaxSegs` datagrams respects the kernel's limit
      whenever a single datagram does. */
  lemma SuperBufferFits(flush: seq<byte>, seg: nat)
    requires 0 < seg <= MAX_GSO_BYTES && |Chunks(flush, seg)| <= MaxSegs(seg)
    ensures |flush| <= MAX_GSO_BYTES
  {
    ChunksLength(flush, seg);
    MulMono(|Chunks(flush, seg)|, MaxSegs(seg), seg);
    BatchFits(seg);
  }
}
