/**
 * The sealed symbol plane: sequence-numbered AEAD datagrams checked against
 * the anti-replay window.
 *
 * The AEAD is ideal: `enc` may be any length-preserving cipher, and opening
 * succeeds only on a (nonce, associated data, ciphertext, tag) that the sealer
 * produced. Datagrams reach the opener from an adversary: `Deliver` carries an
 * arbitrary byte string.
 */
module Sealed {
  import opened Prelude
  import opened Bytes
  import opened Replay

  const MAGIC: seq<byte> := [0x41, 0x54, 0x52, 0x53]  // "ATRS"
  const TAG_LEN: nat := 16
  const HEADER_LEN: nat := 20
  const OVERHEAD: nat := HEADER_LEN + TAG_LEN

  /** (nonce, associated data, plaintext) to (ciphertext, tag). */
  datatype Cipher = Cipher(enc: (seq<byte>, seq<byte>, seq<byte>) -> (seq<byte>, seq<byte>))

  ghost predicate WellFormed(c: Cipher) {
    forall n, a, p :: |c.enc(n, a, p).0| == |p| && |c.enc(n, a, p).1| == TAG_LEN
  }

  /** One datagram handed to the sealer, with the sequence number it got. */
  datatype Sent = Sent(seqno: nat, block: nat, payload: seq<byte>)

  datatype Entry = Entry(nonce: seq<byte>, aad: seq<byte>, plain: seq<byte>, body: seq<byte>, mac: seq<byte>)

  function Nonce(seqno: nat): seq<byte> {
    [0, 0, 0, 0] + Be(seqno, 8)
  }

  function Header(tag: nat, seqno: nat): seq<byte> {
    MAGIC + Le(tag, 8) + Le(seqno, 8)
  }

  /** What sealing one datagram feeds to and gets from the AEAD. */
  function EntryOf(c: Cipher, tag: nat, x: Sent): Entry {
    var nonce, aad, plain := Nonce(x.seqno), Header(tag, x.seqno), Le(x.block, 4) + x.payload;
    var (body, mac) := c.enc(nonce, aad, plain);
    Entry(nonce, aad, plain, body, mac)
  }

  /** The datagram on the wire. */
  function Wire(c: Cipher, tag: nat, x: Sent): seq<byte> {
    var e := EntryOf(c, tag, x);
    e.aad + e.body + e.mac
  }

  // ----- the ideal AEAD -------------------------------------------------------

  predicate Matches(e: Entry, nonce: seq<byte>, aad: seq<byte>, body: seq<byte>, mac: seq<byte>) {
    e.nonce == nonce && e.aad == aad && e.body == body && e.mac == mac
  }

  /** Looks the tuple up among everything sealed. */
  function Find(c: Cipher, tag: nat, sent: seq<Sent>,
                nonce: seq<byte>, aad: seq<byte>, body: seq<byte>, mac: seq<byte>): (r: Option<nat>)
    ensures r.Some? ==> r.value < |sent| && Matches(EntryOf(c, tag, sent[r.value]), nonce, aad, body, mac)
    ensures r.None? ==> forall i | 0 <= i < |sent| :: !Matches(EntryOf(c, tag, sent[i]), nonce, aad, body, mac)
  {
    if sent == [] then None
    else if Matches(EntryOf(c, tag, sent[|sent| - 1]), nonce, aad, body, mac) then Some(|sent| - 1)
    else Find(c, tag, sent[..|sent| - 1], nonce, aad, body, mac)
  }

  // ----- sessions -------------------------------------------------------------

  /** Sealer counter, everything sealed so far, and the opener's accepted set. */
  datatype Session = Session(next: nat, sent: seq<Sent>, accepted: set<nat>)

  datatype Event = Send(block: nat, payload: seq<byte>) | Burn | Deliver(buf: seq<byte>)

  const Fresh: Session := Session(0, [], {})

  /** Index of the sealed datagram that `buf` opens as, if it opens. */
  ghost function Hit(c: Cipher, tag: nat, sent: seq<Sent>, accepted: set<nat>, buf: seq<byte>): (r: Option<nat>)
    ensures r.Some? ==> r.value < |sent|
  {
    if |buf| < OVERHEAD + 4 || buf[..4] != MAGIC then None
    else if FromLe(buf[4..12]) != tag then None
    else
      var seqno := FromLe(buf[12..20]);
      var macStart := |buf| - TAG_LEN;
      if !Acceptable(accepted, seqno) then None
      else Find(c, tag, sent, Nonce(seqno), buf[..HEADER_LEN], buf[HEADER_LEN..macStart], buf[macStart..])
  }

  ghost function Step(c: Cipher, tag: nat, s: Session, e: Event): Session {
    match e
    case Send(block, payload) => s.(next := s.next + 1, sent := s.sent + [Sent(s.next, block, payload)])
    case Burn => s.(next := s.next + 1)
    case Deliver(buf) =>
      var hit := Hit(c, tag, s.sent, s.accepted, buf);
      if hit.None? then s else s.(accepted := s.accepted + {s.sent[hit.value].seqno})
  }

  ghost function Run(c: Cipher, tag: nat, events: seq<Event>): Session {
    if events == [] then Fresh
    else Step(c, tag, Run(c, tag, events[..|events| - 1]), events[|events| - 1])
  }

  /** The sealer's own obligations: block indices fit, and the 64-bit counter
      does not wrap. */
  ghost predicate Plausible(events: seq<Event>) {
    && |events| < U64_LIMIT - 1
    && forall i | 0 <= i < |events| :: events[i].Send? ==> events[i].block < U32_LIMIT
  }

  /** `seqno` is the number of some sealed datagram. */
  ghost predicate Carried(sent: seq<Sent>, seqno: nat) {
    exists i :: 0 <= i < |sent| && sent[i].seqno == seqno
  }

  ghost predicate SentOk(sent: seq<Sent>) {
    && (forall i | 0 <= i < |sent| :: sent[i].seqno < U64_LIMIT - 1 && sent[i].block < U32_LIMIT)
    && (forall i, j | 0 <= i < j < |sent| :: sent[i].seqno < sent[j].seqno)
  }

  ghost predicate Inv(s: Session) {
    && SentOk(s.sent)
    && (forall i | 0 <= i < |s.sent| :: s.sent[i].seqno < s.next)
    && (forall q | q in s.accepted :: Carried(s.sent, q))
  }

  lemma CarriedAppend(sent: seq<Sent>, x: Sent, q: nat)
    requires Carried(sent, q)
    ensures Carried(sent + [x], q)
  {
    var i :| 0 <= i < |sent| && sent[i].seqno == q;
    assert (sent + [x])[i].seqno == q;
  }

  lemma StepInv(c: Cipher, tag: nat, s: Session, e: Event)
    requires Inv(s) && s.next < U64_LIMIT - 1
    requires e.Send? ==> e.block < U32_LIMIT
    ensures Inv(Step(c, tag, s, e))
  {
    if e.Send? {
      forall q | q in s.accepted
        ensures Carried(Step(c, tag, s, e).sent, q)
      {
        CarriedAppend(s.sent, Sent(s.next, e.block, e.payload), q);
      }
    } else if e.Deliver? {
      var hit := Hit(c, tag, s.sent, s.accepted, e.buf);
      assert hit.Some? ==> Carried(s.sent, s.sent[hit.value].seqno);
    }
  }

  lemma {:induction false} RunInv(c: Cipher, tag: nat, events: seq<Event>)
    requires Plausible(events)
    ensures Inv(Run(c, tag, events))
    ensures Run(c, tag, events).next <= |events|
  {
    if events != [] {
      var n := |events| - 1;
      PlausiblePrefix(events, n);
      RunInv(c, tag, events[..n]);
      StepInv(c, tag, Run(c, tag, events[..n]), events[n]);
    }
  }

  lemma PlausiblePrefix(events: seq<Event>, k: nat)
    requires Plausible(events) && k <= |events|
    ensures Plausible(events[..k])
  {
    assert forall i | 0 <= i < k :: events[..k][i] == events[i];
  }

  // ----- nonces and parsing ---------------------------------------------------

  lemma NonceInjective(m: nat, n: nat)
    requires m < U64_LIMIT && n < U64_LIMIT
    ensures Nonce(m) == Nonce(n) <==> m == n
  {
    if Nonce(m) == Nonce(n) {
      assert Be(m, 8) == Nonce(m)[4..] == Nonce(n)[4..] == Be(n, 8);
      Widths();
      BeInjective(m, n, 8);
    }
  }

  /** Events that take a sequence number. */
  ghost function CountNumbered(events: seq<Event>): nat {
    if events == [] then 0
    else CountNumbered(events[..|events| - 1]) + (if events[|events| - 1].Deliver? then 0 else 1)
  }

  /** Over every session each sealed datagram and each burned number takes one number,
      and deliveries take none. */
  lemma {:induction false} EveryNumberIsUsed(c: Cipher, tag: nat, events: seq<Event>)
    ensures Run(c, tag, events).next == CountNumbered(events)
  {
    if events != [] {
      EveryNumberIsUsed(c, tag, events[..|events| - 1]);
    }
  }

  /** The nonce is four zero bytes and the number, most significant byte first. */
  lemma NonceBytes(seqno: nat, i: nat)
    requires i < 12
    ensures |Nonce(seqno)| == 12
    ensures Nonce(seqno)[i] == if i < 4 then 0 else seqno / Pow256(11 - i) % 256
  {
    if i >= 4 {
      BeDigit(seqno, 8, i - 4);
    }
  }

  /** The opener's cuts of a wire datagram recover what the sealer wrote. */
  lemma WireParses(c: Cipher, tag: nat, x: Sent)
    requires WellFormed(c) && tag < U64_LIMIT && x.seqno < U64_LIMIT
    ensures var w, e := Wire(c, tag, x), EntryOf(c, tag, x);
            && |w| == OVERHEAD + 4 + |x.payload|
            && w[..4] == MAGIC && FromLe(w[4..12]) == tag && FromLe(w[12..20]) == x.seqno
            && w[..HEADER_LEN] == e.aad
            && w[HEADER_LEN..|w| - TAG_LEN] == e.body
            && w[|w| - TAG_LEN..] == e.mac
            && (e.body, e.mac) == c.enc(Nonce(x.seqno), w[..HEADER_LEN], e.plain)
  {
    var w, e := Wire(c, tag, x), EntryOf(c, tag, x);
    assert |e.aad| == HEADER_LEN && |e.body| == |e.plain| && |e.mac| == TAG_LEN;
    assert w[..4] == MAGIC;
    assert w[4..12] == Le(tag, 8);
    assert w[12..20] == Le(x.seqno, 8);
    Widths();
    LeRoundTrip(tag, 8);
    LeRoundTrip(x.seqno, 8);
  }

  /** The plaintext carries the block index and the payload unchanged. */
  lemma PlainParses(c: Cipher, tag: nat, x: Sent)
    requires x.block < U32_LIMIT
    ensures var p := EntryOf(c, tag, x).plain; |p| >= 4 && FromLe(p[..4]) == x.block && p[4..] == x.payload
  {
    var p := EntryOf(c, tag, x).plain;
    assert p[..4] == Le(x.block, 4);
    Widths();
    LeRoundTrip(x.block, 4);
  }

  /** Exactly which byte strings open, and as what: those the sealer put on the
      wire whose number is still acceptable. Everything else is dropped. */
  lemma OpenExact(c: Cipher, tag: nat, s: Session, buf: seq<byte>, i: nat)
    requires WellFormed(c) && tag < U64_LIMIT && Inv(s) && i < |s.sent|
    ensures Hit(c, tag, s.sent, s.accepted, buf) == Some(i)
            <==> buf == Wire(c, tag, s.sent[i]) && Acceptable(s.accepted, s.sent[i].seqno)
  {
    var x := s.sent[i];
    WireParses(c, tag, x);
    if buf == Wire(c, tag, x) && Acceptable(s.accepted, x.seqno) {
      assert Matches(EntryOf(c, tag, x), Nonce(x.seqno), buf[..HEADER_LEN],
                     buf[HEADER_LEN..|buf| - TAG_LEN], buf[|buf| - TAG_LEN..]);
      var hit := Hit(c, tag, s.sent, s.accepted, buf);
      assert hit.Some?;
      NonceInjective(s.sent[hit.value].seqno, x.seqno);
    }
    if Hit(c, tag, s.sent, s.accepted, buf) == Some(i) {
      var macStart := |buf| - TAG_LEN;
      assert buf == buf[..HEADER_LEN] + buf[HEADER_LEN..macStart] + buf[macStart..];
      var seqno := FromLe(buf[12..20]);
      SeqnoFits(buf[12..20]);
      NonceInjective(seqno, x.seqno);
    }
  }

  /** The number in the clear header of an opened datagram is the sealed one,
      and it was acceptable. */
  lemma HitSeqno(c: Cipher, tag: nat, s: Session, buf: seq<byte>)
    requires Inv(s) && Hit(c, tag, s.sent, s.accepted, buf).Some?
    ensures |buf| >= OVERHEAD + 4
    ensures FromLe(buf[12..20]) == s.sent[Hit(c, tag, s.sent, s.accepted, buf).value].seqno
    ensures Acceptable(s.accepted, FromLe(buf[12..20]))
  {
    SeqnoFits(buf[12..20]);
    NonceInjective(FromLe(buf[12..20]), s.sent[Hit(c, tag, s.sent, s.accepted, buf).value].seqno);
  }

  lemma SeqnoFits(s: seq<byte>)
    requires |s| == 8
    ensures FromLe(s) < U64_LIMIT
  {
    Widths();
    FromLeRoundTrip(s);
  }

  lemma SameSeqno(s: Session, i: nat, j: nat)
    requires Inv(s) && i < |s.sent| && j < |s.sent| && s.sent[i].seqno == s.sent[j].seqno
    ensures i == j
  {
  }

  // ----- theorems over whole runs ---------------------------------------------

  /** No nonce is used twice. */
  lemma NoncesNeverRepeat(c: Cipher, tag: nat, events: seq<Event>, i: nat, j: nat)
    requires Plausible(events)
    requires i < j < |Run(c, tag, events).sent|
    ensures EntryOf(c, tag, Run(c, tag, events).sent[i]).nonce != EntryOf(c, tag, Run(c, tag, events).sent[j]).nonce
  {
    RunInv(c, tag, events);
    var s := Run(c, tag, events);
    NonceInjective(s.sent[i].seqno, s.sent[j].seqno);
  }

  /** Which sealed datagram the k-th event opens, if it is a delivery that opens. */
  ghost function OpensAt(c: Cipher, tag: nat, events: seq<Event>, k: nat): Option<nat>
    requires k < |events|
  {
    if events[k].Deliver? then
      var s := Run(c, tag, events[..k]);
      Hit(c, tag, s.sent, s.accepted, events[k].buf)
    else None
  }

  /** Later events only add to what was sealed and to what was accepted. */
  lemma {:induction false} RunGrows(c: Cipher, tag: nat, events: seq<Event>, k: nat)
    requires k <= |events|
    ensures Run(c, tag, events[..k]).sent <= Run(c, tag, events).sent
    ensures Run(c, tag, events[..k]).accepted <= Run(c, tag, events).accepted
    decreases |events|
  {
    if k == |events| {
      assert events[..k] == events;
    } else {
      var before := events[..|events| - 1];
      assert before[..k] == events[..k];
      RunGrows(c, tag, before, k);
    }
  }

  /** A sealed datagram opens at most once in a whole run, whatever is delivered. */
  lemma OpensAtMostOnce(c: Cipher, tag: nat, events: seq<Event>, j: nat, k: nat)
    requires WellFormed(c) && tag < U64_LIMIT && Plausible(events)
    requires j < k < |events|
    requires OpensAt(c, tag, events, j).Some? && OpensAt(c, tag, events, k).Some?
    ensures OpensAt(c, tag, events, j) != OpensAt(c, tag, events, k)
    ensures events[j] != events[k]
  {
    var s, t := Run(c, tag, events[..j]), Run(c, tag, events[..k]);
    var i, i' := OpensAt(c, tag, events, j).value, OpensAt(c, tag, events, k).value;
    PlausiblePrefix(events, j);
    PlausiblePrefix(events, k);
    RunInv(c, tag, events[..j]);
    RunInv(c, tag, events[..k]);
    assert events[..j + 1][..j] == events[..j];
    assert events[..k][..j + 1] == events[..j + 1];
    RunGrows(c, tag, events[..k], j + 1);
    assert s.sent[i] == t.sent[i] && s.sent[i].seqno in t.accepted;
    HitSeqno(c, tag, s, events[j].buf);
    HitSeqno(c, tag, t, events[k].buf);
  }

  /** Every accepted number came in on the wire form of the datagram that carries it. */
  lemma {:induction false} AcceptedWasDelivered(c: Cipher, tag: nat, events: seq<Event>, seqno: nat)
    returns (j: nat, i: nat)
    requires WellFormed(c) && tag < U64_LIMIT && Plausible(events)
    requires seqno in Run(c, tag, events).accepted
    ensures j < |events| && i < |Run(c, tag, events).sent|
    ensures Run(c, tag, events).sent[i].seqno == seqno
    ensures events[j] == Deliver(Wire(c, tag, Run(c, tag, events).sent[i]))
  {
    var n := |events| - 1;
    var s := Run(c, tag, events[..n]);
    PlausiblePrefix(events, n);
    if seqno in s.accepted {
      RunGrows(c, tag, events, n);
      j, i := AcceptedWasDelivered(c, tag, events[..n], seqno);
    } else {
      RunInv(c, tag, events[..n]);
      j, i := n, Hit(c, tag, s.sent, s.accepted, events[n].buf).value;
      OpenExact(c, tag, s, events[n].buf, i);
    }
  }

  /** The first arrival of a sealed datagram opens, to its own index, unless the
      window has moved 4096 or more past it; so such a datagram opens exactly once. */
  lemma FirstArrivalOpens(c: Cipher, tag: nat, events: seq<Event>, k: nat, i: nat)
    requires WellFormed(c) && tag < U64_LIMIT && Plausible(events) && k < |events|
    requires i < |Run(c, tag, events[..k]).sent|
    requires events[k] == Deliver(Wire(c, tag, Run(c, tag, events[..k]).sent[i]))
    requires forall j | 0 <= j < k :: events[j] != events[k]
    ensures OpensAt(c, tag, events, k) == Some(i)
            <==> forall h: nat | IsHighest(Run(c, tag, events[..k]).accepted, h) ::
                   h < Run(c, tag, events[..k]).sent[i].seqno + WINDOW_BITS
  {
    var s := Run(c, tag, events[..k]);
    PlausiblePrefix(events, k);
    RunInv(c, tag, events[..k]);
    OpenExact(c, tag, s, events[k].buf, i);
    if s.sent[i].seqno in s.accepted {
      var j, i' := AcceptedWasDelivered(c, tag, events[..k], s.sent[i].seqno);
      SameSeqno(s, i, i');
      assert false;
    }
  }

  // ----- the imperative sealer and opener -------------------------------------

  class SymbolSealer {
    var next: nat
    /** Everything sealed so far: what the ideal AEAD will open. */
    var sent: seq<Sent>

    constructor ()
      ensures next == 0 && sent == []
    {
      next, sent := 0, [];
    }

    method NextSeq() returns (seqno: nat)
      modifies this
      ensures seqno == old(next) && next == old(next) + 1 && sent == old(sent)
    {
      seqno := next;
      next := next + 1;
    }

    /** Appends one sealed datagram to `out`. */
    method SealDatagramInto(c: Cipher, tag: nat, block: nat, payload: seq<byte>, out: seq<byte>) returns (r: seq<byte>)
      requires WellFormed(c)
      modifies this
      ensures forall accepted :: Session(next, sent, accepted)
                == Step(c, tag, Session(old(next), old(sent), accepted), Send(block, payload))
      ensures r == out + Wire(c, tag, Sent(old(next), block, payload))
      ensures |r| == |out| + OVERHEAD + 4 + |payload|
    {
      var seqno := NextSeq();
      var start := |out|;
      r := out + MAGIC;
      r := r + Le(tag, 8);
      r := r + Le(seqno, 8);
      assert r == out + Header(tag, seqno);
      r := r + Le(block, 4);
      r := r + payload;
      assert r == out + Header(tag, seqno) + (Le(block, 4) + payload);
      var aad, body := r[start..start + HEADER_LEN], r[start + HEADER_LEN..];
      assert aad == Header(tag, seqno) && body == Le(block, 4) + payload;
      var (sealedBody, mac) := c.enc(Nonce(seqno), aad, body);
      r := r[..start + HEADER_LEN] + sealedBody;
      r := r + mac;
      sent := sent + [Sent(seqno, block, payload)];
      assert r == out + aad + sealedBody + mac;
    }
  }

  method Overwrite(buf: array<byte>, lo: nat, hi: nat, plain: seq<byte>)
    requires lo <= hi <= buf.Length && |plain| == hi - lo
    modifies buf
    ensures buf[lo..hi] == plain
    ensures buf[..lo] == old(buf[..lo]) && buf[hi..] == old(buf[hi..])
  {
    forall i | lo <= i < hi {
      buf[i] := plain[i - lo];
    }
  }

  datatype Outcome = Opened | Replay | BadTag

  class SymbolOpener {
    const window: ReplayWindow

    constructor ()
      ensures fresh(window) && fresh(window.bitmap) && window.Valid() && window.accepted == {}
    {
      window := new ReplayWindow();
    }

    /** Verifies and decrypts `buf[lo..hi]` in place. The window moves only
        after the AEAD has accepted the datagram. */
    method OpenInPlace(c: Cipher, tag: nat, sent: seq<Sent>, seqno: nat, aad: seq<byte>,
                       buf: array<byte>, lo: nat, hi: nat, mac: seq<byte>)
      returns (r: Outcome)
      requires WellFormed(c) && SentOk(sent) && window.Valid() && buf as object != window.bitmap
      requires seqno < U64_LIMIT && lo <= hi <= buf.Length
      modifies window, window.bitmap, buf
      ensures window.Valid()
      ensures r.Replay? <==> |mac| == TAG_LEN && !Acceptable(old(window.accepted), seqno)
      ensures !r.Opened? ==> buf[..] == old(buf[..]) && window.accepted == old(window.accepted)
      ensures r.Opened? <==>
                && Acceptable(old(window.accepted), seqno)
                && Find(c, tag, sent, Nonce(seqno), aad, old(buf[lo..hi]), mac).Some?
      ensures r.Opened? ==>
                && var x := sent[Find(c, tag, sent, Nonce(seqno), aad, old(buf[lo..hi]), mac).value];
                && x.seqno == seqno
                && buf[lo..hi] == EntryOf(c, tag, x).plain
                && window.accepted == old(window.accepted) + {seqno}
    {
      if |mac| != TAG_LEN {
        return BadTag;
      }
      var fits := window.WouldAccept(seqno);
      if !fits {
        return Replay;
      }
      var hit := Find(c, tag, sent, Nonce(seqno), aad, buf[lo..hi], mac);
      if hit.None? {
        return BadTag;
      }
      NonceInjective(seqno, sent[hit.value].seqno);
      var plain := EntryOf(c, tag, sent[hit.value]).plain;
      Overwrite(buf, lo, hi, plain);
      window.Commit(seqno);
      r := Opened;
    }

    /** Opens one datagram in place. On success the block index and the payload
        of the sealed datagram come back and the payload stands in `buf`; on any
        failure neither `buf` nor the window changes. */
    method OpenDatagram(c: Cipher, tag: nat, sent: seq<Sent>, buf: array<byte>) returns (r: Option<(nat, seq<byte>)>)
      requires WellFormed(c) && SentOk(sent) && window.Valid() && buf as object != window.bitmap
      modifies window, window.bitmap, buf
      ensures window.Valid()
      ensures var hit := Hit(c, tag, sent, old(window.accepted), old(buf[..]));
              if hit.None? then
                r == None && buf[..] == old(buf[..]) && window.accepted == old(window.accepted)
              else
                && r == Some((sent[hit.value].block, sent[hit.value].payload))
                && window.accepted == old(window.accepted) + {sent[hit.value].seqno}
                && buf.Length >= OVERHEAD + 4
                && buf[HEADER_LEN + 4..buf.Length - TAG_LEN] == sent[hit.value].payload
    {
      var bytes := buf[..];
      if |bytes| < OVERHEAD + 4 || bytes[..4] != MAGIC {
        return None;
      }
      var wireTag := FromLe(bytes[4..12]);
      if wireTag != tag {
        return None;
      }
      var seqno := FromLe(bytes[12..20]);
      SeqnoFits(bytes[12..20]);
      var macStart := |bytes| - TAG_LEN;
      assert buf[HEADER_LEN..macStart] == bytes[HEADER_LEN..macStart];
      var outcome := OpenInPlace(c, tag, sent, seqno, bytes[..HEADER_LEN],
                                 buf, HEADER_LEN, macStart, bytes[macStart..]);
      if !outcome.Opened? {
        return None;
      }
      PlainParses(c, tag, sent[Hit(c, tag, sent, old(window.accepted), bytes).value]);
      var body := buf[HEADER_LEN..macStart];
      r := Some((FromLe(body[..4]), body[4..]));
      assert buf[HEADER_LEN + 4..macStart] == body[4..];
    }
  }
}
