/**
 * The pool allocator behind every BVH tree: memory is taken from the
 * system in blocks of equal-sized chunks, and the free chunks are kept on
 * an intrusive singly linked list threaded through the chunks themselves.
 *
 * A block is a fresh object (its identity stands for its address); a chunk
 * is named by its block and its position in it. The free list, which
 * `PoolAllocator` keeps as `next` pointers inside the chunks, is the sequence of
 * chunks in list order. The ghost set `issued` holds the chunks handed out
 * by `Allocate` and not yet given back; it is the accounting that
 * `PoolAllocator` keeps only implicitly.
 */
module Pool {
  import opened Utility

  /** One block obtained from `::operator new`, holding `size` chunks. */
  class Block {
    const size: nat

    constructor (size: nat)
      ensures this.size == size
    {
      this.size := size;
    }
  }

  /** The chunk at position `index` of `block`. */
  datatype Chunk = Chunk(block: Block, index: nat)

  predicate NoDup<T(==)>(s: seq<T>)
  {
    forall i, j | 0 <= i < j < |s| :: s[i] != s[j]
  }

  /** The chunks `lo`, `lo + 1`, …, `hi - 1` of block `b`, in address order. */
  function Run(b: Block, lo: nat, hi: nat): (s: seq<Chunk>)
    requires lo <= hi
    decreases hi - lo
    ensures |s| == hi - lo
    ensures forall k | 0 <= k < |s| :: s[k] == Chunk(b, lo + k)
  {
    if lo == hi then [] else [Chunk(b, lo)] + Run(b, lo + 1, hi)
  }

  /** Every chunk of every block in `blocks`. */
  ghost function Owned(blocks: seq<Block>): set<Chunk>
  {
    set b, i | b in blocks && 0 <= i < b.size :: Chunk(b, i)
  }

  /** The chunks of one block. */
  ghost function BlockChunks(b: Block): set<Chunk>
  {
    set i | 0 <= i < b.size :: Chunk(b, i)
  }

  /** The number of chunks the blocks hold together. */
  function TotalChunks(blocks: seq<Block>): nat
  {
    if blocks == [] then 0 else TotalChunks(blocks[..|blocks| - 1]) + blocks[|blocks| - 1].size
  }

  /**
   * Each chunk of the blocks is either on the free list, exactly once, or
   * on loan, never both, and nothing else is on the list.
   */
  ghost predicate Accounted(free: seq<Chunk>, issued: set<Chunk>, blocks: seq<Block>)
  {
    NoDup(free) &&
    (forall c | c in free :: c !in issued) &&
    (set c | c in free) + issued == Owned(blocks)
  }

  class PoolAllocator {
    const chunksPerBlock: nat
    /** `m_AllocatedMemory` and the `next` links behind it, head first. */
    var freeList: seq<Chunk>
    /** `m_AllocatedBlocks`, oldest first. */
    var blocks: seq<Block>
    ghost var issued: set<Chunk>

    ghost predicate Valid()
      reads this
    {
      chunksPerBlock > 0 && NoDup(blocks) && Accounted(freeList, issued, blocks)
    }

    /**
     * The shape an allocator has while it only allocates: every block holds
     * `chunksPerBlock` chunks and fewer than a block's worth of them are free,
     * because a block is taken only when the free list is empty.
     */
    ghost predicate Dense()
      reads this
    {
      (forall b | b in blocks :: b.size == chunksPerBlock) && |freeList| < chunksPerBlock
    }

    /** `PoolAllocator(chunksPerBlock)`: no blocks, an empty free list. */
    constructor (chunksPerBlock: nat)
      requires chunksPerBlock > 0
      ensures Valid() && Dense()
      ensures this.chunksPerBlock == chunksPerBlock
      ensures freeList == [] && blocks == [] && issued == {}
    {
      this.chunksPerBlock := chunksPerBlock;
      freeList := [];
      blocks := [];
      issued := {};
    }

    /**
     * `allocateBlock`: obtains a new block, links its chunks in address
     * order (the last one ends the list) and records the block. Returns
     * the linked chunks; the caller installs them as the free list.
     */
    method AllocateBlock() returns (chain: seq<Chunk>)
      requires chunksPerBlock > 0
      modifies this
      ensures |blocks| == |old(blocks)| + 1 && blocks == old(blocks) + [blocks[|old(blocks)|]]
      ensures fresh(blocks[|old(blocks)|]) && blocks[|old(blocks)|].size == chunksPerBlock
      ensures blocks[|old(blocks)|] !in old(blocks)
      ensures chain == Run(blocks[|old(blocks)|], 0, chunksPerBlock)
      ensures freeList == old(freeList) && issued == old(issued)
    {
      var b := new Block(chunksPerBlock);
      assert b !in blocks;
      chain := [Chunk(b, 0)];
      var i := 0;
      while i < chunksPerBlock - 1
        invariant 0 <= i <= chunksPerBlock - 1
        invariant chain == Run(b, 0, i + 1)
      {
        chain := chain + [Chunk(b, i + 1)];
        i := i + 1;
      }
      blocks := blocks + [b];
    }

    /**
     * `allocate`: takes a block only when the free list is empty, then
     * hands out the head of the list.
     */
    method Allocate() returns (c: Chunk)
      requires Valid()
      modifies this
      ensures Valid()
      ensures c !in old(issued) && issued == old(issued) + {c}
      ensures old(Dense()) ==> Dense()
      ensures old(freeList) != [] ==>
        c == old(freeList)[0] && freeList == old(freeList)[1..] && blocks == old(blocks)
      ensures old(freeList) == [] ==>
        fresh(c.block) && c.block.size == chunksPerBlock && c.index == 0 && blocks == old(blocks) + [c.block] &&
        freeList == Run(c.block, 1, chunksPerBlock)
    {
      if freeList == [] {
        freeList := AllocateBlock();
        NewBlockAccounted(issued, old(blocks), blocks[|blocks| - 1]);
      }
      c := TakeHead();
    }

    /** The second half of `allocate`: the head of the free list is handed out and unlinked. */
    method TakeHead() returns (c: Chunk)
      requires Valid() && freeList != []
      modifies this
      ensures Valid() && blocks == old(blocks)
      ensures c == old(freeList)[0] && freeList == old(freeList)[1..]
      ensures c !in old(issued) && issued == old(issued) + {c}
    {
      PopAccounted(freeList, issued, blocks);
      c := freeList[0];
      freeList := freeList[1..];
      issued := issued + {c};
    }

    /** `deallocate`: the chunk becomes the new head of the free list. */
    method Deallocate(c: Chunk)
      requires Valid() && c in issued
      modifies this
      ensures Valid()
      ensures freeList == [c] + old(freeList) && blocks == old(blocks)
      ensures issued == old(issued) - {c}
    {
      PushAccounted(freeList, issued, blocks, c);
      freeList := [c] + freeList;
      issued := issued - {c};
    }

    /**
     * `freeAllocatedMemory`: every block goes back to the system, the
     * free list is dropped and chunks still on loan dangle. Returns the
     * blocks released, in the order they were released.
     */
    method FreeAllocatedMemory() returns (released: seq<Block>)
      requires Valid()
      modifies this
      ensures Valid() && Dense()
      ensures released == old(blocks)
      ensures freeList == [] && blocks == [] && issued == {}
    {
      released := [];
      for i := 0 to |blocks|
        invariant released == blocks[..i]
      {
        released := released + [blocks[i]];
      }
      freeList := [];
      blocks := [];
      issued := {};
    }

    /**
     * `transferOwnership(other)`: walks other's free list to its last
     * chunk, links this allocator's free list behind it, and moves this
     * allocator's blocks to the end of other's. This allocator is left
     * owning nothing. The walk starts at other's head without a null
     * check, so other's free list must not be empty.
     */
    method TransferOwnership(other: PoolAllocator)
      requires Valid() && other.Valid() && other != this
      requires other.freeList != []
      requires forall b | b in blocks :: b !in other.blocks
      modifies this, other
      ensures Valid() && other.Valid()
      ensures other.freeList == old(other.freeList) + old(freeList)
      ensures other.blocks == old(other.blocks) + old(blocks)
      ensures other.issued == old(other.issued) + old(issued)
      ensures freeList == [] && blocks == [] && issued == {}
    {
      // The walk: `chunk` is entry `tail` of other's free list, and it has a
      // successor exactly when a later entry exists.
      var tail := 0;
      var chunk := other.freeList[0];
      while tail + 1 < |other.freeList|
        invariant 0 <= tail < |other.freeList| && chunk == other.freeList[tail]
        decreases |other.freeList| - tail
      {
        tail := tail + 1;
        chunk := other.freeList[tail];
      }
      // `chunk->next = m_AllocatedMemory`: this list goes behind the last chunk.
      assert chunk == other.freeList[|other.freeList| - 1];
      JoinAccounted(other.freeList, other.issued, other.blocks, freeList, issued, blocks);
      NoDupAppend(other.blocks, blocks);
      other.freeList := other.freeList + freeList;
      freeList := [];
      other.blocks := other.blocks + blocks;
      blocks := [];
      other.issued := other.issued + issued;
      issued := {};
    }
  }

  /** Handing out the head of the free list keeps the accounting. */
  lemma PopAccounted(free: seq<Chunk>, issued: set<Chunk>, blocks: seq<Block>)
    requires Accounted(free, issued, blocks) && free != []
    ensures free[0] !in issued
    ensures Accounted(free[1..], issued + {free[0]}, blocks)
  {
    var rest := free[1..];
    assert free == [free[0]] + rest;
    assert (set c | c in free) == (set c | c in rest) + {free[0]};
    forall c | c in rest ensures c != free[0] {
      var k :| 0 <= k < |rest| && rest[k] == c;
      assert free[k + 1] == c;
    }
  }

  /** Giving back a chunk on loan, at the head of the free list, keeps the accounting. */
  lemma PushAccounted(free: seq<Chunk>, issued: set<Chunk>, blocks: seq<Block>, c: Chunk)
    requires Accounted(free, issued, blocks) && c in issued
    ensures Accounted([c] + free, issued - {c}, blocks)
  {
    var s := [c] + free;
    assert (set x | x in s) == (set x | x in free) + {c};
    forall i, j | 0 <= i < j < |s| ensures s[i] != s[j] {
      assert s[j] == free[j - 1];
      if i > 0 {
        assert s[i] == free[i - 1];
      }
    }
  }

  /** A fresh block, linked in address order, becomes the whole free list. */
  lemma NewBlockAccounted(issued: set<Chunk>, blocks: seq<Block>, b: Block)
    requires Accounted([], issued, blocks) && b !in blocks
    ensures Accounted(Run(b, 0, b.size), issued, blocks + [b])
  {
    var chain := Run(b, 0, b.size);
    NewBlockOwned(blocks, b);
    forall c | c in BlockChunks(b) ensures c in chain {
      assert chain[c.index] == c;
    }
    assert (set c | c in chain) == BlockChunks(b);
    forall i, j | 0 <= i < j < |chain| ensures chain[i] != chain[j] {
      assert chain[i].index == i;
    }
  }

  /** Two allocators' accounts over disjoint blocks join into one. */
  lemma JoinAccounted(free1: seq<Chunk>, issued1: set<Chunk>, blocks1: seq<Block>,
                      free2: seq<Chunk>, issued2: set<Chunk>, blocks2: seq<Block>)
    requires Accounted(free1, issued1, blocks1) && Accounted(free2, issued2, blocks2)
    requires forall b | b in blocks2 :: b !in blocks1
    ensures Accounted(free1 + free2, issued1 + issued2, blocks1 + blocks2)
  {
    OwnedDisjoint(blocks2, blocks1);
    OwnedAppend(blocks1, blocks2);
    forall x | x in free1 ensures x !in free2 {
      assert x in Owned(blocks1);
    }
    NoDupAppend(free1, free2);
    assert (set c | c in free1 + free2) == (set c | c in free1) + (set c | c in free2);
  }

  /** A new block's chunks join the owned set, and none of them was owned before. */
  lemma NewBlockOwned(blocks: seq<Block>, b: Block)
    requires b !in blocks
    ensures Owned(blocks + [b]) == Owned(blocks) + BlockChunks(b)
    ensures forall c | c in BlockChunks(b) :: c !in Owned(blocks)
  {
  }

  /** Joining two repetition-free lists with no common element gives a repetition-free list. */
  lemma NoDupAppend<T>(a: seq<T>, b: seq<T>)
    requires NoDup(a) && NoDup(b)
    requires forall x | x in a :: x !in b
    ensures NoDup(a + b)
  {
    var s := a + b;
    forall i, j | 0 <= i < j < |s| ensures s[i] != s[j]
    {
      if j < |a| {
        assert s[i] == a[i] && s[j] == a[j];
      } else if i >= |a| {
        assert s[i] == b[i - |a|] && s[j] == b[j - |a|];
      } else {
        assert s[i] == a[i] && s[j] == b[j - |a|];
        assert s[j] in b;
      }
    }
  }

  /** Owned chunks of disjoint block lists are disjoint. */
  lemma OwnedDisjoint(xs: seq<Block>, ys: seq<Block>)
    requires forall b | b in xs :: b !in ys
    ensures forall c | c in Owned(xs) :: c !in Owned(ys)
  {
  }

  /** Appending block lists unites their owned chunks. */
  lemma OwnedAppend(xs: seq<Block>, ys: seq<Block>)
    ensures Owned(xs + ys) == Owned(xs) + Owned(ys)
  {
  }

  /** A block holds exactly `size` chunks. */
  lemma {:induction false} BlockChunksCount(b: Block, n: nat)
    requires n <= b.size
    ensures |set i | 0 <= i < n :: Chunk(b, i)| == n
  {
    if n > 0 {
      BlockChunksCount(b, n - 1);
      var smaller := set i | 0 <= i < n - 1 :: Chunk(b, i);
      assert (set i | 0 <= i < n :: Chunk(b, i)) == smaller + {Chunk(b, n - 1)};
      assert Chunk(b, n - 1) !in smaller;
    }
  }

  /** Distinct blocks own `TotalChunks` chunks between them. */
  lemma {:induction false} OwnedCount(blocks: seq<Block>)
    requires NoDup(blocks)
    ensures |Owned(blocks)| == TotalChunks(blocks)
  {
    if blocks != [] {
      var init, last := blocks[..|blocks| - 1], blocks[|blocks| - 1];
      assert blocks == init + [last];
      assert last !in init;
      OwnedCount(init);
      NewBlockOwned(init, last);
      BlockChunksCount(last, last.size);
      assert Owned(init) * BlockChunks(last) == {};
    }
  }

  /** A list without repetitions has as many distinct elements as entries. */
  lemma {:induction false} NoDupCard<T>(s: seq<T>)
    requires NoDup(s)
    ensures |set x | x in s| == |s|
  {
    if s != [] {
      var init := s[..|s| - 1];
      assert s == init + [s[|s| - 1]];
      NoDupCard(init);
      assert (set x | x in s) == (set x | x in init) + {s[|s| - 1]};
      assert s[|s| - 1] !in init;
    }
  }

  /**
   * Conservation of chunks: the free chunks and the chunks on loan
   * together are exactly the chunks of the owned blocks.
   */
  lemma Conservation(p: PoolAllocator)
    requires p.Valid()
    ensures |p.freeList| + |p.issued| == TotalChunks(p.blocks)
  {
    OwnedCount(p.blocks);
    NoDupCard(p.freeList);
    var free := set c | c in p.freeList;
    assert free * p.issued == {};
  }

  /**
   * While an allocator only allocates, the blocks it holds are the ceiling of
   * the chunks on loan over the chunks per block: a block is taken exactly
   * when all the chunks of the earlier ones are out.
   */
  lemma DenseBlockCount(p: PoolAllocator)
    requires p.Valid() && p.Dense()
    ensures |p.blocks| == CeilDiv(|p.issued|, p.chunksPerBlock)
    ensures p.freeList == [] <==> |p.issued| == |p.blocks| * p.chunksPerBlock
  {
    var size, n, f := p.chunksPerBlock, |p.blocks|, |p.freeList|;
    Conservation(p);
    UniformTotal(p.blocks, size);
    assert |p.issued| + size - 1 == n * size + (size - 1 - f);
    DivOfMultiple(n, size, size - 1 - f);
  }

  /** Blocks all of one size hold that size times their number of chunks. */
  lemma {:induction false} UniformTotal(blocks: seq<Block>, size: nat)
    requires forall b | b in blocks :: b.size == size
    ensures TotalChunks(blocks) == |blocks| * size
  {
    if blocks != [] {
      var n := |blocks|;
      UniformTotal(blocks[..n - 1], size);
      assert blocks[n - 1] in blocks;
      assert n * size == (n - 1) * size + size;
    }
  }

  /** With a block and fewer chunks on loan than it holds, the free list is not empty. */
  lemma FreeListNonEmpty(p: PoolAllocator)
    requires p.Valid() && p.blocks != []
    requires |p.issued| < p.blocks[0].size
    ensures p.freeList != []
  {
    Conservation(p);
    TotalAtLeastFirst(p.blocks);
  }

  /** The first block alone already contributes its chunks to the total. */
  lemma {:induction false} TotalAtLeastFirst(blocks: seq<Block>)
    requires blocks != []
    ensures TotalChunks(blocks) >= blocks[0].size
  {
    if |blocks| > 1 {
      TotalAtLeastFirst(blocks[..|blocks| - 1]);
    }
  }
}
