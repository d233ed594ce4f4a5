/** How a file splits into blocks, shared by sender and receiver. */
module Blocks {
  import opened Prelude

  datatype Layout = Layout(fileSize: nat, blockSize: nat, symbolSize: nat, numBlocks: nat) {

    /** What the constructor establishes. */
    ghost predicate Valid() {
      && 0 < fileSize < U64_LIMIT
      && 0 < blockSize < U32_LIMIT
      && 0 < symbolSize < 0x1_0000
      && numBlocks == DivCeil(fileSize, blockSize)
      && numBlocks < U32_LIMIT
    }

    function Start(index: nat): nat {
      index * blockSize
    }

    function End(index: nat): nat {
      MinNat(Start(index) + blockSize, fileSize)
    }

    function BlockLen(index: nat): nat
      requires Start(index) <= End(index)
    {
      End(index) - Start(index)
    }

    /** Number of source symbols of a block. */
    function SourceSymbols(index: nat): nat
      requires symbolSize > 0 && Start(index) <= End(index)
    {
      DivCeil(BlockLen(index), symbolSize)
    }
  }

  /** The checked constructor: the source panics where this returns `None`. */
  function New(fileSize: nat, blockSize: nat, symbolSize: nat): (r: Option<Layout>)
    requires fileSize < U64_LIMIT && blockSize < U32_LIMIT && symbolSize < 0x1_0000
    ensures r.Some? ==> r.value.Valid()
    ensures r.Some? ==> r.value == Layout(fileSize, blockSize, symbolSize, r.value.numBlocks)
    ensures r.None? <==> fileSize == 0 || blockSize == 0 || symbolSize == 0
                         || fileSize > (U32_LIMIT - 1) * blockSize
  {
    if fileSize == 0 || blockSize == 0 || symbolSize == 0 then None
    else
      var n := DivCeil(fileSize, blockSize);
      DivCeilExact(fileSize, blockSize);
      DivCeilAtMost(fileSize, blockSize, U32_LIMIT - 1);
      if n >= U32_LIMIT then None else Some(Layout(fileSize, blockSize, symbolSize, n))
  }

  /** n blocks are enough and n - 1 are not. */
  lemma DivCeilExact(size: nat, block: nat)
    requires size > 0 && block > 0
    ensures DivCeil(size, block) > 0
    ensures (DivCeil(size, block) - 1) * block < size <= DivCeil(size, block) * block
  {
    assert size == (size / block) * block + size % block;
    var n := size / block;
    assert (n + 1) * block == n * block + block;
    assert (n - 1) * block == n * block - block;
  }

  lemma DivCeilAtMost(size: nat, block: nat, limit: nat)
    requires size > 0 && block > 0
    ensures DivCeil(size, block) <= limit <==> size <= limit * block
  {
    DivCeilExact(size, block);
    var n := DivCeil(size, block);
    if n <= limit {
      MulMono(n, limit, block);
    } else {
      MulMono(limit, n - 1, block);
    }
  }

  /** Every block is non-empty, lies in the file, and only the last may be
      short; no intermediate value leaves 64 bits. */
  lemma {:induction false} BlockBounds(l: Layout, index: nat)
    requires l.Valid() && index < l.numBlocks
    ensures l.Start(index) < l.End(index) <= l.fileSize
    ensures index + 1 < l.numBlocks ==> l.End(index) == l.Start(index) + l.blockSize == l.Start(index + 1)
    ensures index + 1 == l.numBlocks ==> l.End(index) == l.fileSize
    ensures l.Start(index) + l.blockSize < U64_LIMIT
    ensures 0 < l.SourceSymbols(index) < U32_LIMIT
  {
    DivCeilExact(l.fileSize, l.blockSize);
    MulMono(index, l.numBlocks - 1, l.blockSize);
    assert l.Start(index + 1) == l.Start(index) + l.blockSize;
    if index + 1 < l.numBlocks {
      MulMono(index + 1, l.numBlocks - 1, l.blockSize);
    }
    MulMono(index + 1, U32_LIMIT - 1, l.blockSize);
    DivCeilExact(l.BlockLen(index), l.symbolSize);
    DivCeilAtMost(l.BlockLen(index), l.symbolSize, U32_LIMIT - 1);
    MulMono(1, l.symbolSize, U32_LIMIT - 1);
  }

  /** The source symbols of a block cover it, and one fewer would not. */
  lemma SymbolsCoverBlock(l: Layout, index: nat)
    requires l.Valid() && index < l.numBlocks
    ensures l.Start(index) < l.End(index)
    ensures var k, len := l.SourceSymbols(index), l.End(index) - l.Start(index);
            0 < k && (k - 1) * l.symbolSize < len <= k * l.symbolSize
  {
    BlockBounds(l, index);
    DivCeilExact(l.BlockLen(index), l.symbolSize);
  }

  /** Distinct blocks do not overlap. */
  lemma {:induction false} RangesDisjoint(l: Layout, i: nat, j: nat)
    requires l.Valid() && i < j < l.numBlocks
    ensures l.End(i) <= l.Start(j)
  {
    BlockBounds(l, i);
    MulMono(i + 1, j, l.blockSize);
  }

  /** The block that holds a given byte of the file. */
  function BlockOf(l: Layout, pos: nat): (index: nat)
    requires l.Valid() && pos < l.fileSize
    ensures index < l.numBlocks && l.Start(index) <= pos < l.End(index)
  {
    DivideInFile(l, pos);
    pos / l.blockSize
  }

  lemma DivideInFile(l: Layout, pos: nat)
    requires l.Valid() && pos < l.fileSize
    ensures pos / l.blockSize < l.numBlocks
    ensures l.Start(pos / l.blockSize) <= pos < l.End(pos / l.blockSize)
  {
    QuotientBounds(pos, l.blockSize);
    DivCeilAtMost(l.fileSize, l.blockSize, pos / l.blockSize);
  }

  lemma QuotientBounds(n: nat, d: nat)
    requires d > 0
    ensures (n / d) * d <= n < (n / d) * d + d
  {
    assert n == (n / d) * d + n % d;
  }

  /** The ranges partition the file: each byte lies in exactly one of them. */
  lemma {:induction false} Partition(l: Layout, pos: nat, index: nat)
    requires l.Valid() && pos < l.fileSize && index < l.numBlocks
    ensures l.Start(index) <= pos < l.End(index) <==> index == BlockOf(l, pos)
  {
    var b := BlockOf(l, pos);
    if index < b {
      RangesDisjoint(l, index, b);
    } else if b < index {
      RangesDisjoint(l, b, index);
    }
  }

  /** If two byte strings of the file's size agree on every range, they are equal. */
  lemma RangesDetermineFile<T>(l: Layout, f: seq<T>, g: seq<T>)
    requires l.Valid() && |f| == l.fileSize == |g|
    requires forall b: nat | b < l.numBlocks :: l.Start(b) <= l.End(b) <= l.fileSize
    requires forall b: nat | b < l.numBlocks :: f[l.Start(b)..l.End(b)] == g[l.Start(b)..l.End(b)]
    ensures f == g
  {
    forall pos | 0 <= pos < |f|
      ensures f[pos] == g[pos]
    {
      var b := BlockOf(l, pos);
      assert f[pos] == f[l.Start(b)..l.End(b)][pos - l.Start(b)];
      assert g[pos] == g[l.Start(b)..l.End(b)][pos - l.Start(b)];
    }
  }
}
