/**
 src/misc.c: a growable block of memory.  Everything stored in it is addressed by
 offset, so growth may move the bytes but must not change them.
 */
module MemoryBlocks {

  type byte = x: int | 0 <= x < 256

  const SIZE_MAX: nat := 0xFFFF_FFFF_FFFF_FFFF

  class MemoryBlock {
    var ptr: array<byte> // its length is the capacity
    var size: nat

    ghost predicate Valid()
      reads this
    {
      size <= ptr.Length <= SIZE_MAX
    }

    ghost function Contents(): (bytes: seq<byte>)
      requires Valid()
      reads this, ptr
      ensures |bytes| == size
    {
      ptr[..size]
    }

    constructor (capacity: nat)
      requires capacity <= SIZE_MAX
      ensures Valid() && Contents() == [] && ptr.Length == capacity && fresh(ptr)
    {
      ptr := new byte[capacity];
      size := 0;
    }

    /** free_memory_block followed by init_memory_block. */
    method Reset(capacity: nat)
      requires capacity <= SIZE_MAX
      modifies this
      ensures Valid() && Contents() == [] && ptr.Length == capacity && fresh(ptr)
    {
      ptr := new byte[capacity];
      size := 0;
    }

    /**
     grow_memory_block: the block gets longer, what was in it stays.  `ok` is false
     where the program aborts, because the capacity cannot be doubled any more.
     */
    method Grow(amount: nat) returns (ok: bool)
      requires Valid() && size + amount <= SIZE_MAX
      modifies this
      ensures size == old(size) + amount
      ensures ok ==> Valid() && Contents()[..old(size)] == old(Contents())
      ensures ok ==> ptr.Length == old(ptr.Length) || ptr.Length == 8 || ptr.Length < 2 * size
      ensures ptr == old(ptr) || fresh(ptr)
      ensures size <= SIZE_MAX / 2 + 1 ==> ok
    {
      ghost var before := Contents();
      var oldSize := size;
      size := size + amount;
      ok := true;
      if size >= ptr.Length {
        var capacity := ptr.Length;
        while capacity < size
          invariant ptr.Length <= capacity <= SIZE_MAX
          invariant capacity == ptr.Length || capacity == 8 || capacity < 2 * size
          decreases size - capacity
        {
          if capacity == 0 {
            capacity := 8;
          } else {
            if capacity > SIZE_MAX / 2 {
              return false; // abort()
            }
            capacity := 2 * capacity;
          }
        }
        var bigger := new byte[capacity];
        forall i | 0 <= i < oldSize {
          bigger[i] := ptr[i];
        }
        ptr := bigger;
      }
      assert ptr[..oldSize] == before;
    }

    /** Overwrites bytes inside the block. */
    method Write(offset: nat, src: seq<byte>)
      requires Valid() && offset + |src| <= size
      modifies ptr
      ensures Contents() == old(Contents())[..offset] + src + old(Contents())[offset + |src|..]
    {
      forall i | 0 <= i < |src| {
        ptr[offset + i] := src[i];
      }
    }

    /** append_to_memory_block: the offset returned is where the new bytes are. */
    method Append(src: seq<byte>) returns (ok: bool, offset: nat)
      requires Valid() && size + |src| <= SIZE_MAX
      modifies this, ptr
      ensures offset == old(size) && size == old(size) + |src|
      ensures ok ==> Valid() && Contents() == old(Contents()) + src
      ensures ptr == old(ptr) || fresh(ptr)
      ensures size <= SIZE_MAX / 2 + 1 ==> ok
    {
      offset := size;
      ghost var before := Contents();
      ok := Grow(|src|);
      if ok {
        Write(offset, src);
        assert before + src + [] == before + src;
      }
    }
  }

  // ----- Whole runs of appends

  /** The bytes of a block after appending the items in order. */
  function Image(items: seq<seq<byte>>): seq<byte> {
    if items == [] then [] else Image(items[..|items| - 1]) + items[|items| - 1]
  }

  /** The offset returned by append number `k`. */
  function Offset(items: seq<seq<byte>>, k: nat): nat
    requires k <= |items|
  {
    |Image(items[..k])|
  }

  /** However much is appended later, the bytes at an offset stay. */
  lemma {:induction false} ImageKeeps(items: seq<seq<byte>>, k: nat)
    requires k < |items|
    ensures Offset(items, k) + |items[k]| <= |Image(items)|
    ensures Image(items)[Offset(items, k)..][..|items[k]|] == items[k]
    decreases |items|
  {
    var n := |items| - 1;
    assert items[..n][..k] == items[..k];
    if k < n {
      ImageKeeps(items[..n], k);
      var before := Image(items[..n]);
      assert Image(items)[Offset(items, k)..][..|items[k]|] == before[Offset(items, k)..][..|items[k]|];
    } else {
      assert items[..k] == items[..n];
    }
  }

  /** The returned offsets denote the items in a block that holds `bytes` by now. */
  ghost predicate Denote(offsets: seq<nat>, items: seq<seq<byte>>, bytes: seq<byte>) {
    |offsets| == |items| &&
    forall k :: 0 <= k < |items| ==>
      offsets[k] + |items[k]| <= |bytes| && bytes[offsets[k]..][..|items[k]|] == items[k]
  }

  lemma {:induction false} OffsetsDenote(before: seq<byte>, items: seq<seq<byte>>, offsets: seq<nat>)
    requires |offsets| == |items| && forall k :: 0 <= k < |items| ==> offsets[k] == |before| + Offset(items, k)
    ensures Denote(offsets, items, before + Image(items))
  {
    forall k | 0 <= k < |items|
      ensures offsets[k] + |items[k]| <= |before + Image(items)|
      ensures (before + Image(items))[offsets[k]..][..|items[k]|] == items[k]
    {
      ImageKeeps(items, k);
      assert (before + Image(items))[offsets[k]..] == Image(items)[Offset(items, k)..];
    }
  }

  lemma {:induction false} ImageGrows(items: seq<seq<byte>>, i: nat)
    requires i < |items|
    ensures Image(items[..i + 1]) == Image(items[..i]) + items[i]
    ensures |Image(items[..i + 1])| <= |Image(items)|
    decreases |items| - i
  {
    assert items[..i + 1][..i] == items[..i];
    if i + 1 == |items| {
      assert items[..i + 1] == items;
    } else {
      ImageGrows(items, i + 1);
    }
  }

  /**
   A run of appends to one block, as the cache does it: whatever was in the block is
   followed by the items, and at the end every offset returned on the way denotes its
   item, however often the block has moved.  `ok` is false where the program aborts.
   */
  method AppendAll(block: MemoryBlock, items: seq<seq<byte>>) returns (ok: bool, offsets: seq<nat>)
    requires block.Valid() && block.size + |Image(items)| <= SIZE_MAX
    modifies block, block.ptr
    ensures ok ==> block.Valid() && block.Contents() == old(block.Contents()) + Image(items)
    ensures ok ==> Denote(offsets, items, block.Contents())
    ensures ok ==> forall k :: 0 <= k < |items| ==> offsets[k] == old(block.size) + Offset(items, k)
    ensures old(block.size) + |Image(items)| <= SIZE_MAX / 2 + 1 ==> ok
  {
    hide Denote;
    ok, offsets := true, [];
    ghost var before := block.Contents();
    var i := 0;
    while i < |items|
      invariant 0 <= i <= |items| && block.Valid() && (block.ptr == old(block.ptr) || fresh(block.ptr))
      invariant block.Contents() == before + Image(items[..i])
      invariant |offsets| == i && forall k :: 0 <= k < i ==> offsets[k] == |before| + Offset(items, k)
    {
      ImageGrows(items, i);
      var offset;
      ok, offset := block.Append(items[i]);
      if !ok {
        return;
      }
      offsets := offsets + [offset];
      assert before + Image(items[..i]) + items[i] == before + Image(items[..i + 1]);
      i := i + 1;
    }
    assert items[..i] == items;
    ok := true;
    OffsetsDenote(before, items, offsets);
  }
}
