/**
 src/arena.c: a bump allocator over a list of blocks.  Every region it has handed
 out is on record, and every call keeps them apart.
 */
module Arenas {

  /** 16 kB less the size of struct block on a 64-bit system. */
  const MIN_BLOCK_ROOM: nat := 16 * 1024 - 24

  class Block {
    const size: nat
    const next: Block?
    var used: nat
    ghost var freed: bool

    constructor (size: nat, next: Block?)
      ensures this.size == size && this.next == next && used == 0 && !freed
    {
      this.size, this.next, used, freed := size, next, 0, false;
    }

    /** Reading the link, which a freed block no longer has. */
    method Next() returns (next: Block?)
      requires !freed
      ensures next == this.next
    {
      next := this.next;
    }

    /** free: not twice. */
    method Release()
      requires !freed
      modifies this`freed
      ensures freed
    {
      freed := true;
    }
  }

  /** `len` bytes of a block, from `start` on. */
  datatype Region = Region(block: Block, start: nat, len: nat)

  ghost predicate Apart(r: Region, q: Region) {
    r.block != q.block || r.start + r.len <= q.start || q.start + q.len <= r.start
  }

  class Arena {
    var curBlock: Block?
    ghost var blocks: seq<Block>    // newest first
    ghost var regions: seq<Region>  // in the order they were handed out

    ghost predicate Linked()
      reads this
    {
      && curBlock == (if blocks == [] then null else blocks[0])
      && (forall i {:trigger blocks[i].next} :: 0 <= i < |blocks| ==>
            blocks[i].next == if i == |blocks| - 1 then null else blocks[i + 1])
      && (forall i, j :: 0 <= i < j < |blocks| ==> blocks[i] != blocks[j])
    }

    /** Blocks are not overfull; regions lie in the used part of a live block, and apart from each other. */
    ghost predicate Valid()
      reads this, blocks
    {
      && Linked()
      && (forall b :: b in blocks ==> b.used <= b.size && !b.freed)
      && (forall r :: r in regions ==> r.block in blocks && r.start + r.len <= r.block.used)
      && (forall i, j :: 0 <= i < j < |regions| ==> Apart(regions[i], regions[j]))
    }

    constructor ()
      ensures Valid() && blocks == [] && regions == []
    {
      curBlock, blocks, regions := null, [], [];
    }

    method AddBlock(roomWanted: nat)
      requires Valid()
      modifies this`curBlock, this`blocks
      ensures Valid() && |blocks| == |old(blocks)| + 1 && blocks[1..] == old(blocks) && fresh(blocks[0])
      ensures blocks[0].used == 0 && blocks[0].size == (if roomWanted <= 16360 then 16360 else roomWanted)
    {
      var room := if roomWanted < MIN_BLOCK_ROOM then MIN_BLOCK_ROOM else roomWanted;
      curBlock := new Block(room, curBlock);
      blocks := [curBlock] + blocks;
    }

    /** arena_malloc: a new region, apart from all earlier ones, which stay where they are. */
    method Malloc(amount: nat) returns (r: Region)
      requires Valid()
      modifies this, blocks
      ensures Valid() && r.len == amount && regions == old(regions) + [r]
      ensures var fits := old(curBlock != null && amount <= curBlock.size - curBlock.used);
              if fits then blocks == old(blocks) && blocks != [] && r.start == old(blocks[0].used)
              else blocks != [] && blocks[1..] == old(blocks) && fresh(blocks[0]) && r.start == 0
      ensures r.block == blocks[0] && r.block.used == r.start + amount
    {
      if curBlock == null || curBlock.size - curBlock.used < amount {
        AddBlock(amount);
      }
      r := Region(curBlock, curBlock.used, amount);
      ghost var earlier := regions;
      assert forall q :: q in earlier ==> Apart(q, r);
      curBlock.used := curBlock.used + amount;
      regions := regions + [r];
    }

    /** arena_free: every block is freed, once, and not read after that. */
    method Free() returns (freed: seq<Block>)
      requires Valid()
      modifies this, blocks`freed
      ensures Valid() && blocks == [] && regions == [] && curBlock == null
      ensures freed == old(blocks) && forall b :: b in freed ==> b.freed
    {
      freed := [];
      var b := curBlock;
      while b != null
        invariant |freed| <= |blocks| && freed == blocks[..|freed|]
        invariant b == if |freed| == |blocks| then null else blocks[|freed|]
        invariant forall i :: 0 <= i < |blocks| ==> (blocks[i].freed <==> i < |freed|)
        decreases |blocks| - |freed|
        modifies blocks`freed
      {
        var next := b.Next();
        b.Release();
        freed := freed + [b];
        b := next;
      }
      curBlock, blocks, regions := null, [], [];
    }
  }
}
