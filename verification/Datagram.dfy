/**
 * The plaintext datagram format and the flow-open sentinel:
 * magic (4) + transfer tag (8, LE) + block index (4, LE) + payload.
 */
module Datagrams {
  import opened Prelude
  import opened Bytes
  import opened Blocks

  const MAGIC: seq<byte> := [0x41, 0x54, 0x50, 0x32]  // "ATP2"
  const HEADER_LEN: nat := 16
  const FLOW_OPEN_BLOCK: nat := U32_LIMIT - 1

  datatype Datagram = Datagram(blockIndex: nat, payload: seq<byte>)

  function Encode(tag: nat, blockIndex: nat, payload: seq<byte>): seq<byte> {
    MAGIC + Le(tag, 8) + Le(blockIndex, 4) + payload
  }

  function Decode(tag: nat, buf: seq<byte>): Option<Datagram> {
    if |buf| < HEADER_LEN || buf[..4] != MAGIC then None
    else if FromLe(buf[4..12]) != tag then None
    else Some(Datagram(FromLe(buf[12..16]), buf[HEADER_LEN..]))
  }

  function FlowOpen(tag: nat): seq<byte> {
    Encode(tag, FLOW_OPEN_BLOCK, [])
  }

  predicate IsFlowOpen(tag: nat, buf: seq<byte>) {
    var d := Decode(tag, buf);
    d.Some? && d.value.blockIndex == FLOW_OPEN_BLOCK && d.value.payload == []
  }

  /** `Decode` is the exact inverse of `Encode`: it accepts the encodings under
      its own tag and nothing else, and gives back what was encoded. */
  lemma DecodeExact(tag: nat, buf: seq<byte>, d: Datagram)
    requires tag < U64_LIMIT && d.blockIndex < U32_LIMIT
    ensures Decode(tag, buf) == Some(d) <==> buf == Encode(tag, d.blockIndex, d.payload)
  {
    Widths();
    if buf == Encode(tag, d.blockIndex, d.payload) {
      assert buf[..4] == MAGIC && buf[4..12] == Le(tag, 8);
      assert buf[12..16] == Le(d.blockIndex, 4) && buf[16..] == d.payload;
      LeRoundTrip(tag, 8);
      LeRoundTrip(d.blockIndex, 4);
    }
    if Decode(tag, buf) == Some(d) {
      assert buf == buf[..4] + buf[4..12] + buf[12..16] + buf[16..];
      FromLeRoundTrip(buf[4..12]);
      FromLeRoundTrip(buf[12..16]);
    }
  }

  /** Where the fields stand: magic, tag and block index, least significant byte
      first, and then the payload. */
  lemma EncodedFields(tag: nat, blockIndex: nat, payload: seq<byte>, i: nat)
    ensures var buf := Encode(tag, blockIndex, payload);
            && |buf| == HEADER_LEN + |payload| && buf[..4] == MAGIC && buf[HEADER_LEN..] == payload
            && (4 <= i < 12 ==> buf[i] == tag / Pow256(i - 4) % 256)
            && (12 <= i < 16 ==> buf[i] == blockIndex / Pow256(i - 12) % 256)
  {
    if 4 <= i < 12 {
      LeDigit(tag, 8, i - 4);
    } else if 12 <= i < 16 {
      LeDigit(blockIndex, 4, i - 12);
    }
  }

  /** A datagram of another session is dropped. */
  lemma OtherTagDropped(tag: nat, other: nat, blockIndex: nat, payload: seq<byte>)
    requires tag < U64_LIMIT && other < U64_LIMIT && blockIndex < U32_LIMIT && tag != other
    ensures Decode(other, Encode(tag, blockIndex, payload)) == None
  {
    var buf := Encode(tag, blockIndex, payload);
    DecodeExact(tag, buf, Datagram(blockIndex, payload));
  }

  /** The only datagram taken for a flow-open is the flow-open of that tag. */
  lemma FlowOpenExact(tag: nat, buf: seq<byte>)
    requires tag < U64_LIMIT
    ensures IsFlowOpen(tag, buf) <==> buf == FlowOpen(tag)
  {
    DecodeExact(tag, buf, Datagram(FLOW_OPEN_BLOCK, []));
  }

  /** No data datagram of a valid layout is ever taken for a flow-open, under any tag. */
  lemma DataIsNeverFlowOpen(l: Layout, tag: nat, other: nat, index: nat, payload: seq<byte>)
    requires l.Valid() && index < l.numBlocks && tag < U64_LIMIT && other < U64_LIMIT
    ensures !IsFlowOpen(other, Encode(tag, index, payload))
  {
    DecodeExact(tag, Encode(tag, index, payload), Datagram(index, payload));
  }

  /** Appends one datagram to a batch buffer. */
  method EncodeInto(tag: nat, blockIndex: nat, payload: seq<byte>, out: seq<byte>) returns (r: seq<byte>)
    requires tag < U64_LIMIT && blockIndex < U32_LIMIT
    ensures out <= r && |r| == |out| + HEADER_LEN + |payload|
    ensures Decode(tag, r[|out|..]) == Some(Datagram(blockIndex, payload))
  {
    r := out + MAGIC;
    r := r + Le(tag, 8);
    r := r + Le(blockIndex, 4);
    r := r + payload;
    assert r[|out|..] == Encode(tag, blockIndex, payload);
    DecodeExact(tag, r[|out|..], Datagram(blockIndex, payload));
  }
}
