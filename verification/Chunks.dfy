/** The iterators that cut a block range into chunks, upwards or downwards. */
module Chunks {
  import opened Wrappers

  datatype Chunk = Chunk(startBlock: int, endBlock: int, ascending: bool)
  {
    function MinBlock(): int
    {
      if ascending then startBlock else endBlock
    }

    function MaxBlock(): int
    {
      if ascending then endBlock else startBlock
    }
  }

  class AscendingChunkIterator {
    const chunkSize: nat
    const endBlock: nat
    var lastIteratedBlock: int

    constructor (startBlock: nat, endBlock: nat, chunkSize: nat)
      ensures this.endBlock == endBlock && this.chunkSize == chunkSize
      ensures lastIteratedBlock == startBlock - 1
    {
      this.endBlock, this.chunkSize := endBlock, chunkSize;
      lastIteratedBlock := startBlock - 1;
    }

    method NextChunk() returns (c: Option<Chunk>)
      modifies this
      ensures c == UpFrom(old(lastIteratedBlock) + 1, endBlock, chunkSize)
      ensures lastIteratedBlock == if c.Some? then c.value.endBlock else old(lastIteratedBlock)
    {
      var startBlock := lastIteratedBlock + 1;
      if startBlock > endBlock {
        return None;
      }
      var end := startBlock + chunkSize;
      if end > endBlock {
        end := endBlock;
      }
      lastIteratedBlock := end;
      c := Some(Chunk(startBlock, end, true));
    }
  }

  class DescendingChunkIterator {
    const chunkSize: nat
    const startBlock: nat
    var lastIteratedBlock: int

    constructor (startBlock: nat, endBlock: nat, chunkSize: nat)
      ensures this.startBlock == startBlock && this.chunkSize == chunkSize
      ensures lastIteratedBlock == endBlock + 1
    {
      this.startBlock, this.chunkSize := startBlock, chunkSize;
      lastIteratedBlock := endBlock + 1;
    }

    method NextChunk() returns (c: Option<Chunk>)
      modifies this
      ensures c == DownFrom(old(lastIteratedBlock) - 1, startBlock, chunkSize)
      ensures lastIteratedBlock == if c.Some? then c.value.endBlock else old(lastIteratedBlock)
    {
      var start := lastIteratedBlock - 1;
      if start < startBlock {
        return None;
      }
      var endBlock := start - chunkSize;
      if endBlock < startBlock {
        endBlock := startBlock;
      }
      lastIteratedBlock := endBlock;
      c := Some(Chunk(start, endBlock, false));
    }
  }

  function UpFrom(next: int, endBlock: nat, chunkSize: nat): Option<Chunk>
  {
    if next > endBlock then None
    else Some(Chunk(next, if next + chunkSize > endBlock then endBlock else next + chunkSize, true))
  }

  function DownFrom(next: int, startBlock: nat, chunkSize: nat): Option<Chunk>
  {
    if next < startBlock then None
    else Some(Chunk(next, if next - chunkSize < startBlock then startBlock else next - chunkSize, false))
  }

  /** All chunks that an iterator yields from here on. */
  function AllUp(next: int, endBlock: nat, chunkSize: nat): seq<Chunk>
    decreases endBlock + 1 - next
  {
    var c := UpFrom(next, endBlock, chunkSize);
    if c == None then [] else [c.value] + AllUp(c.value.endBlock + 1, endBlock, chunkSize)
  }

  function AllDown(next: int, startBlock: nat, chunkSize: nat): seq<Chunk>
    decreases next + 1 - startBlock
  {
    var c := DownFrom(next, startBlock, chunkSize);
    if c == None then [] else [c.value] + AllDown(c.value.endBlock - 1, startBlock, chunkSize)
  }

  lemma Snoc(chunks: seq<Chunk>, c: Chunk, rest: seq<Chunk>)
    ensures chunks + ([c] + rest) == (chunks + [c]) + rest
  {
  }

  /** Calling NextChunk until it returns nothing. */
  method DrainUp(it: AscendingChunkIterator) returns (chunks: seq<Chunk>)
    modifies it
    ensures chunks == AllUp(old(it.lastIteratedBlock) + 1, it.endBlock, it.chunkSize)
  {
    chunks := [];
    ghost var all := AllUp(it.lastIteratedBlock + 1, it.endBlock, it.chunkSize);
    while true
      invariant chunks + AllUp(it.lastIteratedBlock + 1, it.endBlock, it.chunkSize) == all
      decreases it.endBlock - it.lastIteratedBlock
    {
      var c := it.NextChunk();
      if c == None {
        return;
      }
      Snoc(chunks, c.value, AllUp(c.value.endBlock + 1, it.endBlock, it.chunkSize));
      chunks := chunks + [c.value];
    }
  }

  method DrainDown(it: DescendingChunkIterator) returns (chunks: seq<Chunk>)
    modifies it
    ensures chunks == AllDown(old(it.lastIteratedBlock) - 1, it.startBlock, it.chunkSize)
  {
    chunks := [];
    ghost var all := AllDown(it.lastIteratedBlock - 1, it.startBlock, it.chunkSize);
    while true
      invariant chunks + AllDown(it.lastIteratedBlock - 1, it.startBlock, it.chunkSize) == all
      decreases it.lastIteratedBlock - it.startBlock
    {
      var c := it.NextChunk();
      if c == None {
        return;
      }
      Snoc(chunks, c.value, AllDown(c.value.endBlock - 1, it.startBlock, it.chunkSize));
      chunks := chunks + [c.value];
    }
  }

  // ----- the chunks partition the range -----

  /** How many of the chunks contain the block. */
  function Covering(chunks: seq<Chunk>, block: int): nat
  {
    if chunks == [] then 0
    else (if chunks[0].MinBlock() <= block <= chunks[0].MaxBlock() then 1 else 0) + Covering(chunks[1..], block)
  }

  /** Chunk after chunk in the iterator's direction without a gap, each of chunkSize + 1 blocks but
      the last, which may have fewer. */
  predicate Adjacent(chunks: seq<Chunk>, next: int, chunkSize: nat, ascending: bool)
  {
    if chunks == [] then true
    else
      && chunks[0].ascending == ascending
      && chunks[0].startBlock == next
      && chunks[0].MinBlock() <= chunks[0].MaxBlock() <= chunks[0].MinBlock() + chunkSize
      && (|chunks| > 1 ==> chunks[0].MaxBlock() == chunks[0].MinBlock() + chunkSize)
      && Adjacent(chunks[1..], if ascending then chunks[0].endBlock + 1 else chunks[0].endBlock - 1,
                  chunkSize, ascending)
  }

  lemma {:induction false} UpPartitions(next: int, endBlock: nat, chunkSize: nat, block: int)
    ensures Covering(AllUp(next, endBlock, chunkSize), block) == if next <= block <= endBlock then 1 else 0
    ensures Adjacent(AllUp(next, endBlock, chunkSize), next, chunkSize, true)
    decreases endBlock + 1 - next
  {
    var c := UpFrom(next, endBlock, chunkSize);
    if c.Some? {
      UpPartitions(c.value.endBlock + 1, endBlock, chunkSize, block);
    }
  }

  lemma {:induction false} DownPartitions(next: int, startBlock: nat, chunkSize: nat, block: int)
    ensures Covering(AllDown(next, startBlock, chunkSize), block) == if startBlock <= block <= next then 1 else 0
    ensures Adjacent(AllDown(next, startBlock, chunkSize), next, chunkSize, false)
    decreases next + 1 - startBlock
  {
    var c := DownFrom(next, startBlock, chunkSize);
    if c.Some? {
      DownPartitions(c.value.endBlock - 1, startBlock, chunkSize, block);
    }
  }

  /** Both iterators of a range contain each of its blocks in exactly one chunk, and no other
      block. */
  lemma SameBlocksBothWays(startBlock: nat, endBlock: nat, chunkSize: nat, block: int)
    ensures Covering(AllUp(startBlock, endBlock, chunkSize), block)
         == Covering(AllDown(endBlock, startBlock, chunkSize), block)
         == if startBlock <= block <= endBlock then 1 else 0
  {
    UpPartitions(startBlock, endBlock, chunkSize, block);
    DownPartitions(endBlock, startBlock, chunkSize, block);
  }
}
