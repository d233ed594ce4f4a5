/**
 * The sender's cache of block encoders. Building an encoder is costly, so the
 * most recently used ones are kept; the cache must be invisible to its caller.
 * The encoder itself is any function of the block's bytes.
 */
module Encoders {
  import opened Prelude
  import opened Blocks

  /** `s` without the first occurrence of `b`. */
  function Without(s: seq<nat>, b: nat): seq<nat> {
    if s == [] then [] else if s[0] == b then s[1..] else [s[0]] + Without(s[1..], b)
  }

  /** The distinct blocks requested so far, most recent first. */
  function Recency(history: seq<nat>): seq<nat> {
    if history == [] then []
    else
      var b := history[|history| - 1];
      [b] + Without(Recency(history[..|history| - 1]), b)
  }

  function Take(s: seq<nat>, n: nat): seq<nat> {
    s[..MinNat(n, |s|)]
  }

  lemma {:induction false} WithoutAt(s: seq<nat>, b: nat, pos: nat)
    requires pos < |s| && s[pos] == b && b !in s[..pos]
    ensures Without(s, b) == s[..pos] + s[pos + 1..]
  {
    if pos > 0 {
      assert s[0] in s[..pos];
      assert s[1..][..pos - 1] == s[1..pos] && forall x | x in s[1..pos] :: x in s[..pos];
      WithoutAt(s[1..], b, pos - 1);
      assert s[..pos] == [s[0]] + s[1..][..pos - 1];
      assert s[1..][pos - 1 + 1..] == s[pos + 1..];
    }
  }

  lemma {:induction false} WithoutAbsent(s: seq<nat>, b: nat)
    requires b !in s
    ensures Without(s, b) == s
  {
    if s != [] {
      assert s[0] in s;
      WithoutAbsent(s[1..], b);
      assert s == [s[0]] + s[1..];
    }
  }

  lemma {:induction false} FirstPosition(s: seq<nat>, b: nat) returns (pos: nat)
    requires b in s
    ensures pos < |s| && s[pos] == b && b !in s[..pos]
  {
    if s[0] == b {
      pos := 0;
    } else {
      pos := FirstPosition(s[1..], b);
      pos := pos + 1;
      assert s[..pos] == [s[0]] + s[1..][..pos - 1];
    }
  }

  lemma {:induction false} DistinctWithout(s: seq<nat>, b: nat)
    requires Distinct(s)
    ensures Distinct(Without(s, b)) && b !in Without(s, b)
    ensures forall x :: x in Without(s, b) <==> x in s && x != b
  {
    if b in s {
      var pos := FirstPosition(s, b);
      WithoutAt(s, b, pos);
      assert s == s[..pos] + [b] + s[pos + 1..];
    } else {
      WithoutAbsent(s, b);
    }
  }

  /** The recency list has no duplicates and holds exactly the requested blocks. */
  lemma {:induction false} RecencyDistinct(history: seq<nat>)
    ensures Distinct(Recency(history))
    ensures forall x :: x in Recency(history) <==> x in history
  {
    if history != [] {
      var front, b := history[..|history| - 1], history[|history| - 1];
      RecencyDistinct(front);
      DistinctWithout(Recency(front), b);
      assert history == front + [b];
    }
  }

  /** When a block was last requested; -1 for never. */
  function LastUse(history: seq<nat>, b: nat): (at: int)
    ensures -1 <= at < |history| && (at == -1 <==> b !in history)
  {
    if history == [] then -1
    else if history[|history| - 1] == b then |history| - 1
    else LastUse(history[..|history| - 1], b)
  }

  /** Every element was last requested later than those after it. */
  ghost predicate LatestFirst(s: seq<nat>, history: seq<nat>) {
    forall i, j | 0 <= i < j < |s| :: LastUse(history, s[i]) > LastUse(history, s[j])
  }

  lemma LatestFirstWithout(s: seq<nat>, history: seq<nat>, b: nat)
    requires Distinct(s) && LatestFirst(s, history)
    ensures LatestFirst(Without(s, b), history)
  {
    if b in s {
      var pos := FirstPosition(s, b);
      WithoutAt(s, b, pos);
    } else {
      WithoutAbsent(s, b);
    }
  }

  /** The recency list is in the order of last requests, latest first. */
  lemma {:induction false} RecencyByLastUse(history: seq<nat>)
    ensures LatestFirst(Recency(history), history)
  {
    if history != [] {
      var front, b := history[..|history| - 1], history[|history| - 1];
      RecencyByLastUse(front);
      RecencyDistinct(front);
      DistinctWithout(Recency(front), b);
      LatestFirstWithout(Recency(front), front, b);
      assert forall x | x != b :: LastUse(history, x) == LastUse(front, x) < |front|;
      var rest := Without(Recency(front), b);
      assert forall i | 0 <= i < |rest| :: rest[i] in rest;
    }
  }

  /** Moving a cached block to the front is what the recency list does. */
  lemma HitKeepsRecency(r: seq<nat>, n: nat, b: nat, pos: nat)
    requires Distinct(r) && pos < |Take(r, n)| && Take(r, n)[pos] == b
    ensures [b] + (Take(r, n)[..pos] + Take(r, n)[pos + 1..]) == Take([b] + Without(r, b), n)
  {
    assert b !in r[..pos];
    WithoutAt(r, b, pos);
  }

  /** Inserting a missing block and truncating is, too. */
  lemma MissKeepsRecency(r: seq<nat>, n: nat, b: nat)
    requires n > 0 && b !in Take(r, n)
    ensures Take([b] + Take(r, n), n) == Take([b] + Without(r, b), n)
  {
    if b in r {
      var pos := FirstPosition(r, b);
      assert forall i | 0 <= i < |Take(r, n)| :: Take(r, n)[i] == r[i] && r[i] != b;
      WithoutAt(r, b, pos);
    } else {
      WithoutAbsent(r, b);
    }
  }

  function KeysOf<E>(entries: seq<(nat, E)>): (keys: seq<nat>)
    ensures |keys| == |entries|
    ensures forall i | 0 <= i < |keys| :: keys[i] == entries[i].0
  {
    if entries == [] then [] else [entries[0].0] + KeysOf(entries[1..])
  }

  lemma {:induction false} KeysToFront<E>(entries: seq<(nat, E)>, pos: nat)
    requires pos < |entries|
    ensures KeysOf([entries[pos]] + (entries[..pos] + entries[pos + 1..]))
            == [KeysOf(entries)[pos]] + (KeysOf(entries)[..pos] + KeysOf(entries)[pos + 1..])
  {
    var moved := [entries[pos]] + (entries[..pos] + entries[pos + 1..]);
    var keys := KeysOf(entries);
    var want := [keys[pos]] + (keys[..pos] + keys[pos + 1..]);
    forall i | 0 <= i < |want|
      ensures KeysOf(moved)[i] == want[i]
    {
      assert moved[i] == entries[if i == 0 then pos else if i <= pos then i - 1 else i];
    }
  }

  lemma {:induction false} KeysInsert<E>(entries: seq<(nat, E)>, x: (nat, E), n: nat)
    requires n <= |entries| + 1
    ensures KeysOf(([x] + entries)[..n]) == ([x.0] + KeysOf(entries))[..n]
  {
  }

  lemma RecencySnoc(history: seq<nat>, b: nat)
    ensures Recency(history + [b]) == [b] + Without(Recency(history), b)
  {
    assert (history + [b])[..|history|] == history;
  }

  class EncoderCache<E(0)> {
    const cap: nat
    const layout: Layout
    const data: seq<byte>
    const build: seq<byte> -> E
    var entries: seq<(nat, E)>
    /** The blocks requested so far. */
    ghost var history: seq<nat>

    function EncoderOf(b: nat): E
      requires layout.Start(b) <= layout.End(b) <= |data|
    {
      build(data[layout.Start(b)..layout.End(b)])
    }

    ghost predicate Valid()
      reads this
    {
      && cap > 0 && layout.Valid() && |data| == layout.fileSize
      && KeysOf(entries) == Take(Recency(history), cap)
      && forall i | 0 <= i < |entries| ::
           && layout.Start(entries[i].0) <= layout.End(entries[i].0) <= |data|
           && entries[i].1 == EncoderOf(entries[i].0)
    }

    constructor (capacity: nat, l: Layout, bytes: seq<byte>, b: seq<byte> -> E)
      requires capacity > 0 && l.Valid() && |bytes| == l.fileSize
      ensures Valid() && history == []
      ensures cap == capacity && layout == l && data == bytes && build == b
    {
      cap, layout, data, build := capacity, l, bytes, b;
      entries, history := [], [];
    }

    /** Returns the encoder of exactly the bytes of block `b`. Afterwards the
        cache holds the `cap` most recently requested distinct blocks. */
    method GetEncoder(b: nat) returns (e: E)
      requires Valid() && b < layout.numBlocks
      modifies this
      ensures Valid() && history == old(history) + [b]
      ensures layout.Start(b) < layout.End(b) <= |data|
      ensures e == build(data[layout.Start(b)..layout.End(b)])
      ensures entries != [] && entries[0] == (b, e)
    {
      BlockBounds(layout, b);
      var pos := Position(b);
      if pos < |entries| {
        ToFront(b, pos);
      } else {
        var enc := build(data[layout.Start(b)..layout.End(b)]);
        Insert(b, enc);
      }
      e := entries[0].1;
    }

    method ToFront(b: nat, pos: nat)
      requires Valid() && pos < |entries| && KeysOf(entries)[pos] == b
      modifies this
      ensures Valid() && history == old(history) + [b]
      ensures entries != [] && entries[0] == old(entries)[pos]
    {
      RecencyDistinct(history);
      HitKeepsRecency(Recency(history), cap, b, pos);
      KeysToFront(entries, pos);
      RecencySnoc(history, b);
      entries := [entries[pos]] + (entries[..pos] + entries[pos + 1..]);
      history := history + [b];
    }

    method Insert(b: nat, enc: E)
      requires Valid() && b !in KeysOf(entries)
      requires layout.Start(b) <= layout.End(b) <= |data| && enc == EncoderOf(b)
      modifies this
      ensures Valid() && history == old(history) + [b]
      ensures entries != [] && entries[0] == (b, enc)
    {
      MissKeepsRecency(Recency(history), cap, b);
      KeysInsert(entries, (b, enc), MinNat(cap, |entries| + 1));
      RecencySnoc(history, b);
      entries := [(b, enc)] + entries;
      entries := entries[..MinNat(cap, |entries|)];
      history := history + [b];
    }

    method Position(b: nat) returns (pos: nat)
      ensures pos <= |entries|
      ensures pos < |entries| ==> KeysOf(entries)[pos] == b
      ensures pos == |entries| ==> b !in KeysOf(entries)
    {
      pos := 0;
      while pos < |entries| && entries[pos].0 != b
        invariant pos <= |entries|
        invariant forall i | 0 <= i < pos :: KeysOf(entries)[i] != b
      {
        pos := pos + 1;
      }
    }
  }
}
