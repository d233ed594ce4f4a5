/**
 * The anti-replay window of the sealed symbol plane.
 *
 * The window is a ring of 64 words of 64 bits, indexed by the sequence number
 * modulo 4096, and it is updated in place. What it stands for is the set of
 * sequence numbers accepted so far (the ghost field `accepted`); `Valid` ties
 * the two together and every operation is specified on the set alone.
 */
module Replay {
  import opened Prelude

  const WINDOW_BITS: nat := 4096
  const WINDOW_WORDS: nat := 64

  /** Every member of `accepted` is at most `highest`, which is itself a member. */
  ghost predicate IsHighest(accepted: set<nat>, highest: nat) {
    highest in accepted && forall s | s in accepted :: s <= highest
  }

  /** What the receiver promises: a number is acceptable when it has never been
      accepted and is either ahead of everything accepted so far or less than
      4096 behind the highest. */
  ghost predicate Acceptable(accepted: set<nat>, seqno: nat) {
    seqno !in accepted &&
    forall h: nat | IsHighest(accepted, h) :: h < seqno + WINDOW_BITS
  }

  // ----- one word -----------------------------------------------------------

  /** Bit `j` of a word; `MaskTest` relates it to the mask test of the source. */
  predicate BitOf(w: bv64, j: bv6)
    decreases j
  {
    if j == 0 then w & 1 != 0 else BitOf(w >> 1, j - 1)
  }

  lemma ShiftedMask(w: bv64, j: bv6)
    requires j != 0
    ensures (w >> 1) & ((1 as bv64) << (j - 1)) == (w & ((1 as bv64) << j)) >> 1
  {
  }

  lemma {:induction false} MaskTest(w: bv64, j: bv6)
    ensures BitOf(w, j) <==> w & ((1 as bv64) << j) != 0
    decreases j
  {
    if j != 0 {
      MaskTest(w >> 1, j - 1);
      ShiftedMask(w, j);
    }
  }

  lemma OrSame(w: bv64, i: bv6)
    ensures (w | ((1 as bv64) << i)) & ((1 as bv64) << i) != 0
  {
  }

  lemma OrOther(w: bv64, i: bv6, j: bv6)
    requires i != j
    ensures (w | ((1 as bv64) << i)) & ((1 as bv64) << j) == w & ((1 as bv64) << j)
  {
  }

  lemma AndNotSame(w: bv64, i: bv6)
    ensures (w & !((1 as bv64) << i)) & ((1 as bv64) << i) == 0
  {
  }

  lemma AndNotOther(w: bv64, i: bv6, j: bv6)
    requires i != j
    ensures (w & !((1 as bv64) << i)) & ((1 as bv64) << j) == w & ((1 as bv64) << j)
  {
  }

  lemma OrBit(w: bv64, v: bv64, i: bv6, j: bv6)
    requires v == w | ((1 as bv64) << i)
    ensures BitOf(v, j) <==> i == j || BitOf(w, j)
  {
    MaskTest(v, j);
    MaskTest(w, j);
    if i == j {
      OrSame(w, i);
    } else {
      OrOther(w, i, j);
    }
  }

  lemma AndNotBit(w: bv64, v: bv64, i: bv6, j: bv6)
    requires v == w & !((1 as bv64) << i)
    ensures BitOf(v, j) <==> i != j && BitOf(w, j)
  {
    MaskTest(v, j);
    MaskTest(w, j);
    if i == j {
      AndNotSame(w, i);
    } else {
      AndNotOther(w, i, j);
    }
  }

  method TestBit(w: bv64, i: bv6) returns (on: bool)
    ensures on <==> BitOf(w, i)
  {
    on := w & ((1 as bv64) << i) != 0;
    MaskTest(w, i);
  }

  method SetBit(w: bv64, i: bv6) returns (v: bv64)
    ensures forall j: bv6 :: BitOf(v, j) <==> i == j || BitOf(w, j)
  {
    v := w | ((1 as bv64) << i);
    forall j: bv6
      ensures BitOf(v, j) <==> i == j || BitOf(w, j)
    {
      OrBit(w, v, i, j);
    }
  }

  method ClearBit(w: bv64, i: bv6) returns (v: bv64)
    ensures forall j: bv6 :: BitOf(v, j) <==> i != j && BitOf(w, j)
  {
    v := w & !((1 as bv64) << i);
    forall j: bv6
      ensures BitOf(v, j) <==> i != j && BitOf(w, j)
    {
      AndNotBit(w, v, i, j);
    }
  }

  lemma {:induction false} ZeroWord(j: bv6)
    ensures !BitOf(0, j)
  {
    MaskTest(0, j);
  }

  // ----- slots of the ring --------------------------------------------------

  /** The word and the bit that a sequence number maps onto. */
  function Slot(seqno: nat): (slot: (nat, bv6))
    ensures slot.0 < WINDOW_WORDS
  {
    var bit := seqno % WINDOW_BITS;
    (bit / 64, (bit % 64) as bv6)
  }

  lemma Bv6RoundTrip(i: nat)
    requires i < 64
    ensures (i as bv6) as nat == i
  {
  }

  /** Two numbers share a slot exactly when they agree modulo the width. */
  lemma SameSlot(s: nat, t: nat)
    ensures Slot(s) == Slot(t) <==> s % WINDOW_BITS == t % WINDOW_BITS
  {
    Bv6RoundTrip((s % WINDOW_BITS) % 64);
    Bv6RoundTrip((t % WINDOW_BITS) % 64);
  }

  /** Inside one window width the slots do not alias. */
  lemma NoAlias(s: nat, t: nat)
    requires s < t < s + WINDOW_BITS
    ensures Slot(s) != Slot(t)
  {
    SameSlot(s, t);
  }

  // ----- the window ---------------------------------------------------------

  class ReplayWindow {
    const bitmap: array<bv64>
    var highest: nat
    var primed: bool
    /** The slots whose bit is on. */
    ghost var on: set<(nat, bv6)>
    /** The sequence numbers committed so far. */
    ghost var accepted: set<nat>

    ghost predicate Coupled()
      reads this, bitmap
    {
      && bitmap.Length == WINDOW_WORDS
      && forall w: nat, b: bv6 | w < WINDOW_WORDS :: BitOf(bitmap[w], b) <==> (w, b) in on
    }

    ghost predicate Valid()
      reads this, bitmap
    {
      && Coupled()
      && (!primed ==> accepted == {})
      && (primed ==>
            && IsHighest(accepted, highest)
            && highest < U64_LIMIT - 1
            && forall s: nat | s <= highest < s + WINDOW_BITS :: Slot(s) in on <==> s in accepted)
    }

    constructor ()
      ensures Valid() && fresh(bitmap) && accepted == {}
    {
      bitmap := new bv64[WINDOW_WORDS](_ => 0);
      highest, primed, on, accepted := 0, false, {}, {};
      new;
      forall b: bv6
        ensures !BitOf(0, b)
      {
        ZeroWord(b);
      }
    }

    method WouldAccept(seqno: nat) returns (ok: bool)
      requires Valid()
      ensures ok <==> Acceptable(accepted, seqno)
    {
      if !primed || seqno > highest {
        return true;
      }
      assert IsHighest(accepted, highest);
      var behind := highest - seqno;
      if behind >= WINDOW_BITS {
        return false;
      }
      var taken := IsSet(seqno);
      ok := !taken;
    }

    /** Marks `seqno` accepted. The caller has seen `WouldAccept(seqno)` hold;
        2^64 - 1 is excluded because the source computes `seqno + 1` in 64 bits. */
    method Commit(seqno: nat)
      requires Valid()
      requires Acceptable(accepted, seqno) && seqno < U64_LIMIT - 1
      modifies this, bitmap
      ensures Valid()
      ensures accepted == old(accepted) + {seqno}
    {
      if !primed {
        primed := true;
        highest := seqno;
        ClearRangeForAdvance(seqno, MinNat(WINDOW_BITS, seqno + 1));
      } else {
        assert IsHighest(accepted, highest);
        if seqno > highest {
          var advance := seqno - highest;
          ClearRangeForAdvance(seqno, MinNat(advance, WINDOW_BITS));
          highest := seqno;
        }
      }
      forall s: nat | s != seqno && s <= highest < s + WINDOW_BITS
        ensures Slot(s) != Slot(seqno)
      {
        NoAlias(MinNat(s, seqno), MaxNat(s, seqno));
      }
      Set(seqno);
      accepted := accepted + {seqno};
    }

    /** Clears the slots onto which the last `advance` numbers up to
        `newHighest` map, and leaves the rest of that window alone. */
    method ClearRangeForAdvance(newHighest: nat, advance: nat)
      requires Coupled()
      requires advance <= newHighest + 1 && newHighest < U64_LIMIT - 1
      modifies this`on, bitmap
      ensures Coupled()
      ensures forall s: nat | newHighest < s + advance && s <= newHighest < s + WINDOW_BITS :: Slot(s) !in on
      ensures forall s: nat | s + advance <= newHighest < s + WINDOW_BITS :: Slot(s) in on <==> Slot(s) in old(on)
    {
      if advance >= WINDOW_BITS {
        forall i | 0 <= i < bitmap.Length {
          bitmap[i] := 0;
        }
        on := {};
        forall b: bv6
          ensures !BitOf(0, b)
        {
          ZeroWord(b);
        }
        return;
      }
      var first := newHighest + 1 - advance;
      var cursor := first;
      while cursor <= newHighest
        invariant first <= cursor <= newHighest + 1
        invariant Coupled()
        invariant forall s: nat | first <= s < cursor :: Slot(s) !in on
        invariant forall s: nat | s < first && newHighest < s + WINDOW_BITS :: Slot(s) in on <==> Slot(s) in old(on)
      {
        forall s: nat | s < cursor && newHighest < s + WINDOW_BITS
          ensures Slot(s) != Slot(cursor)
        {
          NoAlias(s, cursor);
        }
        Clear(cursor);
        cursor := cursor + 1;
      }
    }

    method IsSet(seqno: nat) returns (r: bool)
      requires Coupled()
      ensures r <==> Slot(seqno) in on
    {
      var (word, bit) := Slot(seqno);
      r := TestBit(bitmap[word], bit);
    }

    method Set(seqno: nat)
      requires Coupled()
      modifies this`on, bitmap
      ensures Coupled()
      ensures on == old(on) + {Slot(seqno)}
    {
      var (word, bit) := Slot(seqno);
      bitmap[word] := SetBit(bitmap[word], bit);
      on := on + {(word, bit)};
    }

    method Clear(seqno: nat)
      requires Coupled()
      modifies this`on, bitmap
      ensures Coupled()
      ensures on == old(on) - {Slot(seqno)}
    {
      var (word, bit) := Slot(seqno);
      bitmap[word] := ClearBit(bitmap[word], bit);
      on := on - {(word, bit)};
    }

    /** `highest accepted + 1`, the sequence span used for the loss measurement. */
    method SeqSpan() returns (span: Option<nat>)
      requires Valid()
      ensures span.None? <==> accepted == {}
      ensures span.Some? ==> span.value > 0 && IsHighest(accepted, span.value - 1)
      ensures span.Some? ==> |Below(span.value) - accepted| == span.value - |accepted|
    {
      if primed {
        span := Some(highest + 1);
        LostBelowSpan(accepted, highest);
      } else {
        span := None;
      }
    }
  }

  /** The span minus the number accepted counts exactly the numbers below the
      span that were never accepted. */
  lemma LostBelowSpan(accepted: set<nat>, highest: nat)
    requires IsHighest(accepted, highest)
    ensures accepted <= Below(highest + 1)
    ensures |accepted| <= highest + 1
    ensures |Below(highest + 1) - accepted| == highest + 1 - |accepted|
  {
    SubsetSize(accepted, Below(highest + 1));
  }
}
