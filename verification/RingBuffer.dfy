/** The buffer of recent blocks, updated in place over a fixed array. */
module RingBuffers {
  import opened Wrappers
  import opened Chain
  import opened Circular

  const MAX_REORG_DEPTH: nat := 10

  type Recent = Ring<Option<Block>>

  function EmptyBuffer(): Recent {
    Ring(seq(MAX_REORG_DEPTH, _ => None), 0, 0)
  }

  /** The k-th oldest block; nothing outside the occupied range. */
  function Get(r: Recent, k: int): Option<Block>
    requires Valid(r)
  {
    if k < 0 || k >= r.size then None else r.slots[Slot(r, k)]
  }

  function Latest(r: Recent): Option<Block>
    requires Valid(r)
  {
    if r.size == 0 then None else Get(r, r.size - 1)
  }

  /** The k-th oldest of the contents, nothing out of range, and the newest of them. */
  lemma GetMeaning(r: Recent, k: int)
    requires Valid(r)
    ensures 0 <= k < |Contents(r)| ==> Get(r, k) == Contents(r)[k]
    ensures k < 0 || k >= |Contents(r)| ==> Get(r, k) == None
    ensures Latest(r) == if Contents(r) == [] then None else Contents(r)[|Contents(r)| - 1]
  {
  }

  class RingBuffer {
    const blocks: array<Option<Block>>
    var index: nat
    var size: nat

    constructor ()
      ensures fresh(blocks) && WellFormed() && View() == EmptyBuffer()
    {
      blocks := new Option<Block>[MAX_REORG_DEPTH](_ => None);
      index := 0;
      size := 0;
      new;
      assert blocks[..] == EmptyBuffer().slots;
    }

    ghost function View(): Recent
      reads this, blocks
    {
      Ring(blocks[..], index, size)
    }

    ghost predicate WellFormed()
      reads this, blocks
    {
      blocks.Length == MAX_REORG_DEPTH && Valid(View())
    }

    method Add(block: Block)
      requires WellFormed()
      modifies this, blocks
      ensures WellFormed()
      ensures View() == Push(old(View()), Some(block))
    {
      PushIsValid(View(), Some(block));
      blocks[index] := Some(block);
      index := (index + 1) % MAX_REORG_DEPTH;
      if size < MAX_REORG_DEPTH {
        size := size + 1;
      }
    }

    method GetAt(idx: int) returns (block: Option<Block>)
      requires WellFormed()
      ensures block == Get(View(), idx)
    {
      if idx < 0 || idx >= size {
        return None;
      }
      var actualIdx := (index - size + idx + MAX_REORG_DEPTH) % MAX_REORG_DEPTH;
      return blocks[actualIdx];
    }

    method GetLatest() returns (block: Option<Block>)
      requires WellFormed()
      ensures block == Latest(View())
    {
      if size == 0 {
        return None;
      }
      block := GetAt(size - 1);
    }

    method TruncateTo(keepSize: int)
      requires WellFormed()
      modifies this
      ensures WellFormed()
      ensures View() == Truncate(old(View()), keepSize)
    {
      TruncateIsValid(View(), keepSize);
      var keep := keepSize;
      if keep < 0 {
        keep := 0;
      }
      if keep > size {
        keep := size;
      }
      size := keep;
      index := keep % MAX_REORG_DEPTH;
    }
  }
}
