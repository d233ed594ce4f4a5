/**
 * The token-bucket pacer. Time is a real number of seconds on the sender's
 * monotonic clock, whose origin is 0.
 */
module Pacing {
  import opened Prelude

  const MAX_BURST: real := 0.01

  /** Send time charged for `len` bytes; an unpaced call is free. */
  function Charge(rate: real, len: nat): real {
    if rate <= 0.0 then 0.0 else len as real / rate
  }

  /** When the send after this one is allowed. */
  function NextSlot(next: Option<real>, rate: real, now: real, len: nat): Option<real> {
    if rate <= 0.0 then next
    else
      var floor := if now >= MAX_BURST then now - MAX_BURST else now;
      Some((if next.None? then now else Max(next.value, floor)) + Charge(rate, len))
  }

  /** How long the call sleeps. */
  function SleepFor(next: Option<real>, rate: real, now: real, len: nat): real {
    if rate <= 0.0 then 0.0
    else
      var slot := NextSlot(next, rate, now, len).value;
      if slot > now then slot - now else 0.0
  }

  class Pacer {
    var bytesPerSec: real
    var next: Option<real>

    constructor (rate: real)
      ensures bytesPerSec == rate && next == None
    {
      bytesPerSec, next := rate, None;
    }

    method SetRate(rate: real)
      modifies this`bytesPerSec
      ensures bytesPerSec == rate
    {
      bytesPerSec := rate;
    }

    /** One `pace` call at time `now`; returns the sleep it asks for. */
    method Pace(now: real, len: nat) returns (sleep: real)
      modifies this`next
      ensures next == NextSlot(old(next), bytesPerSec, now, len)
      ensures sleep == SleepFor(old(next), bytesPerSec, now, len)
    {
      if bytesPerSec <= 0.0 {
        return 0.0;
      }
      var dur := len as real / bytesPerSec;
      var floor := if now >= MAX_BURST then now - MAX_BURST else now;
      var base := if next.None? then now else Max(next.value, floor);
      var slot := base + dur;
      next := Some(slot);
      sleep := if slot > now then slot - now else 0.0;
    }
  }

  // ----- runs of calls --------------------------------------------------------------

  /** One call: the rate in force, the bytes sent, when it was entered and when it returned. */
  datatype Call = Call(rate: real, len: nat, start: real, end: real)

  /** The pacer after a run of calls. */
  function After(calls: seq<Call>): Option<real> {
    if calls == [] then None
    else
      var c := calls[|calls| - 1];
      NextSlot(After(calls[..|calls| - 1]), c.rate, c.start, c.len)
  }

  /** Calls are sequential and each sleeps at least as long as it asked to. */
  ghost predicate Sequential(calls: seq<Call>) {
    if calls == [] then true
    else
      var front, c := calls[..|calls| - 1], calls[|calls| - 1];
      && Sequential(front)
      && c.start >= 0.0
      && (front != [] ==> front[|front| - 1].end <= c.start)
      && c.end >= c.start + SleepFor(After(front), c.rate, c.start, c.len)
  }

  /** Total send time charged from call `i` on. */
  function Charged(calls: seq<Call>, i: nat): real
    requires i <= |calls|
  {
    if |calls| <= i then 0.0
    else
      var c := calls[|calls| - 1];
      Charged(calls[..|calls| - 1], i) + Charge(c.rate, c.len)
  }

  function Bytes(calls: seq<Call>, i: nat): nat
    requires i <= |calls|
  {
    if |calls| <= i then 0 else Bytes(calls[..|calls| - 1], i) + calls[|calls| - 1].len
  }

  lemma ChargeNonNegative(rate: real, len: nat)
    ensures Charge(rate, len) >= 0.0
  {
  }

  /** Calls are entered in order, and none returns before it is entered. */
  lemma {:induction false} InOrder(calls: seq<Call>, i: nat)
    requires Sequential(calls) && i < |calls|
    ensures 0.0 <= calls[i].start <= calls[|calls| - 1].start
    ensures calls[i].start <= calls[i].end
    ensures calls[|calls| - 1].start <= calls[|calls| - 1].end
    decreases |calls|
  {
    if i < |calls| - 1 {
      var front := calls[..|calls| - 1];
      InOrder(front, i);
      InOrder(front, |front| - 1);
    }
  }

  /** The slot never lies beyond the return of the last call, and it has moved
      by at least the time charged since call `i`. */
  lemma {:induction false} SlotBounds(calls: seq<Call>, i: nat)
    requires Sequential(calls) && i < |calls|
    ensures After(calls).Some? ==> After(calls).value <= calls[|calls| - 1].end
    ensures After(calls).None? ==> Charged(calls, i) == 0.0
    ensures After(calls).Some? ==>
              Charged(calls, i) == 0.0 || calls[i].start - MAX_BURST + Charged(calls, i) <= After(calls).value
    ensures Charged(calls, i) >= 0.0
    decreases |calls|
  {
    var n := |calls| - 1;
    var front, c := calls[..n], calls[n];
    InOrder(calls, i);
    ChargeNonNegative(c.rate, c.len);
    if i < n {
      SlotBounds(front, i);
      InOrder(front, i);
    } else if n > 0 {
      SlotBounds(front, n - 1);
    }
  }

  /** Token bucket: over any stretch of calls, with whatever rates are in force,
      the send time charged is at most the time that passed plus the burst. */
  lemma TokenBucket(calls: seq<Call>, i: nat)
    requires Sequential(calls) && i < |calls|
    ensures Charged(calls, i) <= calls[|calls| - 1].end - calls[i].start + MAX_BURST
  {
    SlotBounds(calls, i);
    InOrder(calls, i);
  }

  /** No call sleeps longer than its own send time. */
  lemma SleepIsOwnSendTime(calls: seq<Call>)
    requires Sequential(calls) && calls != []
    ensures var c := calls[|calls| - 1];
            0.0 <= SleepFor(After(calls[..|calls| - 1]), c.rate, c.start, c.len) <= Charge(c.rate, c.len)
  {
    var n := |calls| - 1;
    ChargeNonNegative(calls[n].rate, calls[n].len);
    if n > 0 {
      SlotBounds(calls[..n], n - 1);
    }
  }

  /** The slot after a call: a call no more than 10 ms late is charged from the slot
      it had, so the sender catches up; a later one from 10 ms before it was entered;
      a first one from its entry. */
  lemma CreditAfterIdle(next: Option<real>, rate: real, now: real, len: nat)
    requires rate > 0.0 && now >= MAX_BURST
    ensures next.None? ==> NextSlot(next, rate, now, len) == Some(now + len as real / rate)
    ensures next.Some? && now <= next.value + 0.01 ==>
              NextSlot(next, rate, now, len) == Some(next.value + len as real / rate)
    ensures next.Some? && now > next.value + 0.01 ==>
              NextSlot(next, rate, now, len) == Some(now - 0.01 + len as real / rate)
  {
  }

  /** Without a rate a call neither sleeps nor touches the slot. */
  lemma UnpacedIsFree(next: Option<real>, rate: real, now: real, len: nat)
    requires rate <= 0.0
    ensures NextSlot(next, rate, now, len) == next && SleepFor(next, rate, now, len) == 0.0 && Charge(rate, len) == 0.0
  {
  }

  /** Every call but the first is entered no more than 10 ms after the slot it had. */
  ghost predicate OnTime(calls: seq<Call>) {
    forall i | 0 < i < |calls| ::
      After(calls[..i]).Some? && MAX_BURST <= calls[i].start <= After(calls[..i]).value + MAX_BURST
  }

  /** A sender that is never more than 10 ms late keeps its rate exactly: the time its
      slots have moved is the send time of its bytes at the rates in force. */
  lemma {:induction false} KeepsTheRate(calls: seq<Call>)
    requires calls != [] && OnTime(calls)
    requires forall i | 0 <= i < |calls| :: calls[i].rate > 0.0
    ensures After(calls) == Some(calls[0].start + Charged(calls, 0))
  {
    var n := |calls| - 1;
    if n > 0 {
      assert forall i | 0 < i < n :: calls[..n][..i] == calls[..i];
      KeepsTheRate(calls[..n]);
      CreditAfterIdle(After(calls[..n]), calls[n].rate, calls[n].start, calls[n].len);
    } else {
      assert calls[..0] == [];
      assert Charged(calls[..0], 0) == 0.0;
    }
  }

  lemma BytesOfCharge(rate: real, len: nat, cap: real)
    requires 0.0 < rate <= cap
    ensures len as real <= cap * Charge(rate, len)
  {
    assert Charge(rate, len) * rate == len as real;
    assert Charge(rate, len) >= 0.0;
    assert Charge(rate, len) * rate <= Charge(rate, len) * cap;
  }

  lemma {:induction false} BytesWithinCharge(calls: seq<Call>, i: nat, cap: real) returns (t: real)
    requires i <= |calls|
    requires forall k | i <= k < |calls| :: 0.0 < calls[k].rate <= cap
    ensures t == Charged(calls, i)
    ensures Bytes(calls, i) as real <= cap * t
  {
    if i < |calls| {
      var c := calls[|calls| - 1];
      var t' := BytesWithinCharge(calls[..|calls| - 1], i, cap);
      BytesOfCharge(c.rate, c.len, cap);
      t := t' + Charge(c.rate, c.len);
      assert cap * t == cap * t' + cap * Charge(c.rate, c.len);
    } else {
      t := 0.0;
    }
  }

  /** With every rate in force at most `cap`, the bytes paced over a stretch of
      calls are at most `cap` times the time that passed plus the burst. */
  lemma CapOnTheWire(calls: seq<Call>, i: nat, cap: real, window: real)
    requires Sequential(calls) && i < |calls| && cap > 0.0
    requires calls[|calls| - 1].end - calls[i].start + MAX_BURST <= window
    requires forall k | i <= k < |calls| :: 0.0 < calls[k].rate <= cap
    ensures Bytes(calls, i) as real <= cap * window
  {
    var t := BytesWithinCharge(calls, i, cap);
    assert t <= window by {
      TokenBucket(calls, i);
    }
    Scale(Bytes(calls, i) as real, cap, t, window);
  }

  lemma Scale(b: real, k: real, x: real, y: real)
    requires k > 0.0 && x <= y && b <= k * x
    ensures b <= k * y
  {
    assert k * x <= k * y;
  }

  /** Each flush hands its batch to the socket and then paces it, so a window can
      hold one batch more: the bytes flushed from flush `i` to the last one are at
      most `cap` times the time between them plus the burst, plus one batch. */
  lemma FlushedWithinCap(calls: seq<Call>, sentAt: seq<real>, i: nat, cap: real, window: real, batch: nat)
    requires Sequential(calls) && |sentAt| == |calls| && i < |calls| && cap > 0.0
    requires forall k | 0 <= k < |calls| :: sentAt[k] <= calls[k].start && calls[k].len <= batch
    requires forall k | 0 < k < |calls| :: calls[k - 1].end <= sentAt[k]
    requires forall k | i <= k < |calls| :: 0.0 < calls[k].rate <= cap
    requires sentAt[|calls| - 1] - sentAt[i] + MAX_BURST <= window
    ensures Bytes(calls, i) as real <= cap * window + batch as real
  {
    var n := |calls| - 1;
    if i < n {
      CapOnTheWire(calls[..n], i, cap, window);
    } else {
      Scale(0.0, cap, 0.0, window);
    }
  }
}
