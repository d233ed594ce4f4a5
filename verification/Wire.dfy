/**
 * Control frames: a 32-bit little-endian length and then the body. The body
 * codec (JSON in the source) is any invertible one.
 */
module Frames {
  import opened Prelude
  import opened Bytes

  const MAX_FRAME_LEN: nat := 0x10_0000

  datatype BodyCodec<!F> = BodyCodec(ser: F -> seq<byte>, de: seq<byte> -> Option<F>)

  ghost predicate Inverts<F(!new)>(c: BodyCodec<F>) {
    forall f :: c.de(c.ser(f)) == Some(f)
  }

  /** What reading one frame gives: a frame and the rest of the stream, or why not. */
  datatype ReadResult<F> = Got(frame: F, rest: seq<byte>) | Short | TooLong | BadBody

  /** The bytes of one frame. */
  function Encoded<F>(c: BodyCodec<F>, f: F): seq<byte> {
    Le(|c.ser(f)|, 4) + c.ser(f)
  }

  function Read<F>(c: BodyCodec<F>, s: seq<byte>): ReadResult<F> {
    if |s| < 4 then Short
    else
      var len := FromLe(s[..4]);
      if len > MAX_FRAME_LEN then TooLong
      else if |s| < 4 + len then Short
      else
        var body := c.de(s[4..4 + len]);
        if body.None? then BadBody else Got(body.value, s[4 + len..])
  }

  /** The length prefix comes back, and the body is where the reader looks. */
  lemma PrefixParses<F>(c: BodyCodec<F>, f: F, rest: seq<byte>)
    requires |c.ser(f)| < U32_LIMIT
    ensures var s, n := Encoded(c, f) + rest, |c.ser(f)|;
            && |s| == 4 + n + |rest| && FromLe(s[..4]) == n
            && s[4..4 + n] == c.ser(f) && s[4 + n..] == rest
  {
    var s := Encoded(c, f) + rest;
    assert s[..4] == Le(|c.ser(f)|, 4);
    Widths();
    LeRoundTrip(|c.ser(f)|, 4);
  }

  /** A written frame is read back, and no more is consumed, exactly when its body
      respects the reader's limit; past the limit the reader refuses it, although
      the writer does not. */
  lemma FrameRoundTrip<F(!new)>(c: BodyCodec<F>, f: F, rest: seq<byte>)
    requires Inverts(c) && |c.ser(f)| < U32_LIMIT
    ensures |c.ser(f)| <= MAX_FRAME_LEN ==> Read(c, Encoded(c, f) + rest) == Got(f, rest)
    ensures |c.ser(f)| > MAX_FRAME_LEN ==> Read(c, Encoded(c, f) + rest) == TooLong
  {
    PrefixParses(c, f, rest);
  }

  /** A stream that has not yet delivered the whole frame is never misread: the
      reader keeps waiting. */
  lemma PartialFrameWaits<F>(c: BodyCodec<F>, f: F, k: nat)
    requires |c.ser(f)| <= MAX_FRAME_LEN && k < |Encoded(c, f)|
    ensures Read(c, Encoded(c, f)[..k]) == Short
  {
    PrefixParses(c, f, []);
    assert Encoded(c, f) + [] == Encoded(c, f);
    if k >= 4 {
      assert Encoded(c, f)[..k][..4] == Encoded(c, f)[..4];
    }
  }

  /** A frame whose body cannot be decoded is refused as such, and an announced length
      above the limit before any of its body has come in. */
  lemma BadFramesAreRefused<F>(c: BodyCodec<F>, s: seq<byte>, n: nat)
    requires |s| >= 4 && FromLe(s[..4]) == n
    ensures Read(c, s).TooLong? <==> n > 0x10_0000
    ensures Read(c, s).BadBody? <==> n <= 0x10_0000 && n + 4 <= |s| && c.de(s[4..4 + n]).None?
    ensures Read(c, s).Short? <==> n <= 0x10_0000 && n + 4 > |s|
  {
  }

  /** A stream of frames. */
  function EncodedAll<F>(c: BodyCodec<F>, fs: seq<F>): seq<byte> {
    if fs == [] then [] else Encoded(c, fs[0]) + EncodedAll(c, fs[1..])
  }

  /** Reads frames until the stream is empty or a read fails. */
  function ReadAll<F>(c: BodyCodec<F>, s: seq<byte>): seq<F>
    decreases |s|
  {
    if s == [] then []
    else
      var r := Read(c, s);
      if r.Got? then [r.frame] + ReadAll(c, r.rest) else []
  }

  /** A stream of frames is read back whole, in order, if and only if every body
      respects the limit. */
  lemma {:induction false} StreamRoundTrip<F(!new)>(c: BodyCodec<F>, fs: seq<F>)
    requires Inverts(c) && forall i | 0 <= i < |fs| :: |c.ser(fs[i])| < U32_LIMIT
    ensures ReadAll(c, EncodedAll(c, fs)) == fs
            <==> forall i | 0 <= i < |fs| :: |c.ser(fs[i])| <= MAX_FRAME_LEN
    ensures ReadAll(c, EncodedAll(c, fs)) <= fs
  {
    if fs != [] {
      var rest := fs[1..];
      StreamRoundTrip(c, rest);
      FrameRoundTrip(c, fs[0], EncodedAll(c, rest));
      assert fs == [fs[0]] + rest;
      assert forall i | 1 <= i < |fs| :: fs[i] == rest[i - 1];
    }
  }

  /** The control stream as an object: writers append, readers consume. */
  class ControlStream {
    var bytes: seq<byte>

    constructor ()
      ensures bytes == []
    {
      bytes := [];
    }

    /** Returns false, writing nothing, when the length does not fit 32 bits. */
    method WriteFrame<F>(c: BodyCodec<F>, f: F) returns (ok: bool)
      modifies this
      ensures ok <==> |c.ser(f)| < U32_LIMIT
      ensures bytes == old(bytes) + (if ok then Encoded(c, f) else [])
    {
      var body := c.ser(f);
      if |body| >= U32_LIMIT {
        return false;
      }
      bytes := bytes + Le(|body|, 4);
      bytes := bytes + body;
      ok := true;
    }

    method ReadFrame<F>(c: BodyCodec<F>) returns (r: ReadResult<F>)
      modifies this
      ensures r == Read(c, old(bytes))
      ensures r.Got? ==> bytes == r.rest
    {
      var start := bytes;
      if |bytes| < 4 {
        return Short;
      }
      var len := FromLe(bytes[..4]);
      bytes := bytes[4..];
      if len > MAX_FRAME_LEN {
        return TooLong;
      }
      if |bytes| < len {
        return Short;
      }
      var body := bytes[..len];
      assert body == start[4..4 + len];
      bytes := bytes[len..];
      assert bytes == start[4 + len..];
      var f := c.de(body);
      if f.None? {
        return BadBody;
      }
      r := Got(f.value, bytes);
    }
  }
}
