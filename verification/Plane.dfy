/** The two symbol planes side by side: sizes on the wire, and that neither
    plane takes the other's datagrams for its own. */
module Planes {
  import opened Prelude
  import Datagrams
  import Sealed
  import Udp

  /** On-the-wire size of a datagram with a payload of `n` bytes. */
  function WireLen(sealedPlane: bool, n: nat): nat {
    if sealedPlane then Sealed.OVERHEAD + 4 + n else Datagrams.HEADER_LEN + n
  }

  /** Every datagram of a plane has exactly the announced size, so equal payloads
      make equal segments. */
  lemma WireLenExact(c: Sealed.Cipher, tag: nat, seqno: nat, block: nat, payload: seq<byte>)
    requires Sealed.WellFormed(c) && tag < U64_LIMIT && seqno < U64_LIMIT
    ensures |Datagrams.Encode(tag, block, payload)| == WireLen(false, |payload|)
    ensures |Sealed.Wire(c, tag, Sealed.Sent(seqno, block, payload))| == WireLen(true, |payload|)
  {
    Sealed.WireParses(c, tag, Sealed.Sent(seqno, block, payload));
  }

  /** The super-buffers of a transfer respect the kernel's limit exactly for symbol
      sizes up to 64956 bytes sealed, 64980 in plaintext; the segment size fits the
      16 bits that offload gives it exactly up to 65491 and 65515. */
  lemma SymbolSizeLimit(sealedPlane: bool, symbolSize: nat)
    ensures var seg := WireLen(sealedPlane, 4 + symbolSize);
            Udp.MaxSegs(seg) * seg <= Udp.MAX_GSO_BYTES <==> symbolSize <= if sealedPlane then 64956 else 64980
    ensures WireLen(sealedPlane, 4 + symbolSize) < 0x1_0000 <==> symbolSize <= if sealedPlane then 65491 else 65515
  {
    Udp.BatchFits(WireLen(sealedPlane, 4 + symbolSize));
  }

  /** A sealed datagram is never parsed as a plaintext one, in particular never
      taken for a flow-open; and no plaintext datagram, flow-opens included, ever
      opens on the sealed plane. */
  lemma PlanesDoNotMix(c: Sealed.Cipher, tag: nat, other: nat, x: Sealed.Sent, sent: seq<Sealed.Sent>,
                       accepted: set<nat>, block: nat, payload: seq<byte>)
    requires Sealed.WellFormed(c) && tag < U64_LIMIT && x.seqno < U64_LIMIT
    ensures Datagrams.Decode(other, Sealed.Wire(c, tag, x)) == None
    ensures !Datagrams.IsFlowOpen(other, Sealed.Wire(c, tag, x))
    ensures Sealed.Hit(c, tag, sent, accepted, Datagrams.Encode(other, block, payload)) == None
  {
    Sealed.WireParses(c, tag, x);
    assert Sealed.MAGIC[2] != Datagrams.MAGIC[2];
    var plain := Datagrams.Encode(other, block, payload);
    assert plain[..4] == Datagrams.MAGIC;
  }
}
