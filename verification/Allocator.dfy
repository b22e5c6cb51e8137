/** The reference-counted memory pool (src/util/mem_allocator.cc, include/util/mem_allocator.h). */
module Allocator {

  // A block of the pool: its size, or freed (a null block pointer).
  datatype Block = Live(size: nat) | Freed

  // The memory an Allocate call returns.
  datatype Region = Region(block: nat, offset: nat, size: nat)

  predicate Disjoint(a: Region, b: Region) {
    a.block != b.block || a.offset + a.size <= b.offset || b.offset + b.size <= a.offset
  }

  /** How much of a pool is in use: how many blocks it has, and what is left of the current one. */
  datatype Pool = Pool(count: nat, remaining: nat)

  /** MemUsage, which counts every block as one of the default size. */
  function MemUsage(p: Pool, block: nat): int {
    p.count * block - p.remaining
  }

  /** The pool after an Allocate call. */
  function Take(p: Pool, block: nat, size: nat): Pool {
    if size > block / 2 then Pool(p.count + 1, p.remaining)
    else if size > p.remaining then Pool(p.count + 1, block - size)
    else Pool(p.count, p.remaining - size)
  }

  /** A new pool uses nothing. A small request adds its size, and what it wastes of the current block; a large
      one adds one block. So any allocation adds at most one block, and at least what it asks for up to that. */
  lemma UsageGrows(p: Pool, block: nat, size: nat)
    requires p.remaining <= block
    ensures MemUsage(Pool(1, block), block) == 0
    ensures MemUsage(Take(p, block, size), block) == MemUsage(p, block) +
              if size > block / 2 then block else if size <= p.remaining then size else p.remaining + size
    ensures var grown := MemUsage(Take(p, block, size), block) - MemUsage(p, block);
            (if size < block then size else block) <= grown <= block && Take(p, block, size).remaining <= block
  {
    assert (p.count + 1) * block == p.count * block + block;
  }

  class MemAllocator {
    const kDefaultBlockSize: nat
    const kMaxSectorSize: nat
    var remaining: nat    // remaining_size_
    var current: nat      // the block start_addr_ points into
    var start: nat        // the offset of start_addr_ in it
    var blocks: seq<Block>
    var ref: seq<int>
    ghost var regions: seq<Region>

    /** All memory handed out is inside its block, disjoint from all other memory handed out, and
        disjoint from what is still free. */
    ghost predicate Valid()
      reads this
    {
      && kMaxSectorSize == kDefaultBlockSize / 2
      && |blocks| == |ref| > 0
      && current < |blocks|
      && (forall i :: 0 <= i < |regions| ==> regions[i].block < |blocks|)
      && (forall i, j :: 0 <= i < j < |regions| ==> Disjoint(regions[i], regions[j]))
      && start + remaining == kDefaultBlockSize
      && (forall i :: 0 <= i < |regions| ==> Disjoint(regions[i], Region(current, start, remaining)))
      && (blocks[current].Live? ==> blocks[current].size == kDefaultBlockSize)
      && (forall i :: 0 <= i < |regions| && blocks[regions[i].block].Live? ==>
            regions[i].offset + regions[i].size <= blocks[regions[i].block].size)
    }

    ghost function Used(): Pool
      reads this
    {
      Pool(|blocks|, remaining)
    }

    /** The InitAllocator call of the constructors: one block nobody refers to yet. */
    constructor (defaultBlockSize: nat)
      ensures Valid() && kDefaultBlockSize == defaultBlockSize && kMaxSectorSize == defaultBlockSize / 2
      ensures blocks == [Live(defaultBlockSize)] && ref == [0]
      ensures regions == [] && current == 0 && remaining == defaultBlockSize
    {
      kDefaultBlockSize, kMaxSectorSize := defaultBlockSize, defaultBlockSize / 2;
      remaining, current, start := defaultBlockSize, 0, 0;
      blocks, ref, regions := [Live(defaultBlockSize)], [0], [];
    }

    method AllocateFullBlock(size: nat) returns (r: Region)
      requires Valid()
      modifies this`blocks, this`ref, this`regions
      ensures Valid() && r == Region(|old(blocks)|, 0, size)
      ensures blocks == old(blocks) + [Live(size)] && ref == old(ref) + [1]
      ensures regions == old(regions) + [r]
    {
      r := Region(|blocks|, 0, size);
      blocks := blocks + [Live(size)];
      ref := ref + [1];
      regions := regions + [r];
    }

    // Wastes what is left of the current block.
    method AllocateNewBlock(size: nat) returns (r: Region)
      requires Valid() && size <= kDefaultBlockSize
      modifies this
      ensures Valid() && r == Region(|old(blocks)|, 0, size) && regions == old(regions) + [r]
      ensures blocks == old(blocks) + [Live(kDefaultBlockSize)] && ref == old(ref) + [1]
      ensures remaining == kDefaultBlockSize - size
    {
      r := Region(|blocks|, 0, size);
      blocks := blocks + [Live(kDefaultBlockSize)];
      ref := ref + [1];
      current, start, remaining := |blocks| - 1, size, kDefaultBlockSize - size;
      regions := regions + [r];
    }

    // A tiny block, from the current one.
    method AllocateTiny(size: nat) returns (r: Region)
      requires Valid() && size <= remaining
      modifies this
      ensures Valid() && r == Region(current, old(start), size) && regions == old(regions) + [r]
      ensures blocks == old(blocks) && current == old(current) && remaining == old(remaining) - size
      ensures ref == old(ref)[|old(ref)| - 1 := old(ref)[|old(ref)| - 1] + 1]
    {
      r := Region(current, start, size);
      start := start + size;
      remaining := remaining - size;
      ref := ref[|ref| - 1 := ref[|ref| - 1] + 1];
      regions := regions + [r];
    }

    /** Allocate. The reference it counts is one to the last block of the pool. That is the block of
        the returned memory unless a small request is served from an older block. */
    method Allocate(size: nat) returns (r: Region)
      requires Valid()
      modifies this
      ensures Valid() && r.size == size && regions == old(regions) + [r]
      ensures size > kMaxSectorSize || size > old(remaining) ==>
                && r.block == |old(blocks)|
                && blocks == old(blocks) + [Live(if size > kMaxSectorSize then size else kDefaultBlockSize)]
                && ref == old(ref) + [1]
      ensures size <= kMaxSectorSize && size <= old(remaining) ==>
                && r.block == old(current) && blocks == old(blocks)
                && ref == old(ref)[|old(ref)| - 1 := old(ref)[|old(ref)| - 1] + 1]
      ensures size > kMaxSectorSize ==> current == old(current) && remaining == old(remaining)
      ensures Used() == Take(old(Used()), kDefaultBlockSize, size)
      // The counters name the block that was referenced exactly when the branch below is not taken
      // with a newer block at the end of the pool.
      ensures ref == (if r.block < |old(ref)| then old(ref)[r.block := old(ref)[r.block] + 1] else old(ref) + [1])
              <==> size > kMaxSectorSize || size > old(remaining) || old(current) == |old(ref)| - 1
    {
      if size > kMaxSectorSize {
        r := AllocateFullBlock(size);
        return;
      }
      if size > remaining {
        r := AllocateNewBlock(size);
      } else {
        r := AllocateTiny(size);
        assert current != |ref| - 1 ==> ref[|ref| - 1] != old(ref)[current := old(ref)[current] + 1][|ref| - 1];
      }
    }

    method Unref(blockId: nat)
      modifies this`ref
      ensures old(Valid()) ==> Valid()
      ensures ref == if blockId < |old(ref)| then old(ref)[blockId := old(ref)[blockId] - 1] else old(ref)
    {
      if blockId < |ref| {
        ref := ref[blockId := ref[blockId] - 1];
      }
    }

    method RefLast(times: int)
      requires |ref| > 0
      modifies this`ref
      ensures old(Valid()) ==> Valid()
      ensures ref == old(ref)[|old(ref)| - 1 := old(ref)[|old(ref)| - 1] + times]
    {
      ref := ref[|ref| - 1 := ref[|ref| - 1] + times];
    }

    /** ReleaseIdleSpace frees the blocks whose counter is zero, and no other. */
    method ReleaseIdleSpace()
      requires Valid()
      modifies this`blocks
      ensures Valid() && |blocks| == |old(blocks)|
      ensures forall i :: 0 <= i < |blocks| ==> blocks[i] == if ref[i] == 0 then Freed else old(blocks)[i]
    {
      for i := 0 to |ref|
        invariant Valid() && |blocks| == |old(blocks)|
        invariant forall j :: 0 <= j < |blocks| ==>
                    blocks[j] == if j < i && ref[j] == 0 then Freed else old(blocks)[j]
      {
        if ref[i] == 0 {
          blocks := blocks[i := Freed];
        }
      }
    }
  }

  /** With the default block size, a large request followed by a small one leaves the small one's
      block without a reference: the pool would free memory that is in use. */
  method MiscountedBlock() returns (pool: MemAllocator, small: Region)
    ensures fresh(pool) && pool.Valid() && small in pool.regions
    ensures small.block < |pool.blocks| && pool.blocks[small.block] == Freed
  {
    pool := new MemAllocator(4096);
    var large := pool.Allocate(3000);
    small := pool.Allocate(10);
    assert pool.regions[1] == small;
    pool.ReleaseIdleSpace();
  }
}
