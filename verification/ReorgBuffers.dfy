/** What the block buffer holds of a chain, wherever in its slots the blocks lie, and exactly which
    reorganisations keep it. */
module ReorgBuffers {
  import opened Wrappers
  import opened Bytes
  import opened Chain
  import opened Circular
  import opened RingBuffers
  import opened Reorg
  import opened Replays

  const SIGN_BIT: int := 0x8000_0000_0000_0000

  /** How many blocks of a chain the buffer holds. */
  function Held(chain: seq<Block>): (held: nat)
    ensures held <= |chain|
  {
    if |chain| < MAX_REORG_DEPTH then |chain| else MAX_REORG_DEPTH
  }

  function Somes<T>(s: seq<T>): (r: seq<Option<T>>)
    ensures |r| == |s| && forall i :: 0 <= i < |s| ==> r[i] == Some(s[i])
  {
    seq(|s|, i requires 0 <= i < |s| => Some(s[i]))
  }

  /** Oldest first, the buffer holds the last (at most ten) blocks of the chain. */
  ghost predicate Buffered(ring: Recent, chain: seq<Block>) {
    && Valid(ring) && |ring.slots| == MAX_REORG_DEPTH
    && Contents(ring) == LastN(Somes(chain), MAX_REORG_DEPTH)
  }

  lemma BufferSize(ring: Recent, chain: seq<Block>)
    requires Buffered(ring, chain)
    ensures ring.size == Held(chain)
  {
    assert ring.size == |Contents(ring)|;
  }

  lemma BufferedAt(ring: Recent, chain: seq<Block>, k: nat)
    requires Buffered(ring, chain) && k < ring.size
    ensures ring.size == Held(chain) && Get(ring, k) == Some(chain[|chain| - ring.size + k])
  {
    assert Get(ring, k) == Contents(ring)[k];
  }

  lemma SomesAppend<T>(s: seq<T>, t: seq<T>)
    ensures Somes(s + t) == Somes(s) + Somes(t)
  {
  }

  lemma OneSome<T>(x: T)
    ensures Somes([x]) == [Some(x)]
  {
  }

  /** A block on the tip pushes the window one further, whatever the length. */
  lemma PushKeepsBuffered(ring: Recent, chain: seq<Block>, b: Block)
    requires Buffered(ring, chain)
    ensures Buffered(Push(ring, Some(b)), chain + [b])
  {
    PushAppends(ring, Some(b));
    LastNAppend(Somes(chain), Some(b), MAX_REORG_DEPTH);
    SomesAppend(chain, [b]);
    OneSome(b);
  }

  lemma LastNOfLong<T>(s: seq<T>, t: seq<T>, tail: seq<T>, n: nat)
    requires |tail| >= n
    ensures LastN(s + tail, n) == LastN(t + tail, n)
  {
  }

  lemma NextModulo(n: nat)
    ensures (n % MAX_REORG_DEPTH + 1) % MAX_REORG_DEPTH == (n + 1) % MAX_REORG_DEPTH
  {
  }

  // ---- the cut

  /** The reorganisations after which the cut buffer is right: with a tip up to 10 those of a buffer filled
      from slot 0, and beyond that those one block deep of a buffer whose oldest block lies in slot 1. */
  predicate CutIsRight(index: nat, tip: nat, point: nat) {
    if tip <= MAX_REORG_DEPTH then index == tip % MAX_REORG_DEPTH
    else point == tip - 1 && index == 1 && point < SIGN_BIT
  }

  /** How many slots the cut keeps. */
  function Kept(ring: Recent, point: U64): (kept: nat)
    requires Valid(ring)
    ensures kept <= |ring.slots|
  {
    Truncate(ring, AsInt64(point)).size
  }

  lemma CutContents(ring: Recent, point: U64, b: Block)
    requires Valid(ring)
    ensures var cut := CutAndAdd(ring, point, b);
      && Valid(cut) && |cut.slots| == |ring.slots|
      && Contents(cut) == LastN(ring.slots[..Kept(ring, point)] + [Some(b)], |ring.slots|)
  {
    TruncateTakesSlots(ring, AsInt64(point));
    PushAppends(Truncate(ring, AsInt64(point)), Some(b));
  }

  /** The slots kept must be the chain up to the fork, or the nine of its blocks before the new one. */
  lemma CutMeaning(ring: Recent, chain: seq<Block>, point: U64, b: Block)
    requires Buffered(ring, chain) && point <= |chain|
    ensures Buffered(CutAndAdd(ring, point, b), chain[..point] + [b])
       <==> LastN(ring.slots[..Kept(ring, point)] + [Some(b)], MAX_REORG_DEPTH)
            == LastN(Somes(chain[..point]) + [Some(b)], MAX_REORG_DEPTH)
  {
    CutContents(ring, point, b);
    SomesAppend(chain[..point], [b]);
    OneSome(b);
  }

  /** Exactly when the cut buffer holds the end of the new chain. */
  lemma CutKeepsBufferedIff(ring: Recent, chain: seq<Block>, point: U64, b: Block)
    requires Buffered(ring, chain) && Numbered(chain)
    requires |chain| - Held(chain) < point < |chain|
    ensures Buffered(CutAndAdd(ring, point, b), chain[..point] + [b]) <==> CutIsRight(ring.index, |chain|, point)
  {
    CutMeaning(ring, chain, point, b);
    if point >= SIGN_BIT {
      CutToNothing(ring, chain, point, b);
    } else if point < MAX_REORG_DEPTH {
      CutBelowTen(ring, chain, point, b);
    } else {
      CutFromTenOn(ring, chain, point, b);
    }
  }

  /** The signed cast makes the number negative, and the cut keeps nothing. */
  lemma CutToNothing(ring: Recent, chain: seq<Block>, point: U64, b: Block)
    requires Buffered(ring, chain) && SIGN_BIT <= point <= |chain|
    ensures LastN(ring.slots[..Kept(ring, point)] + [Some(b)], MAX_REORG_DEPTH)
         != LastN(Somes(chain[..point]) + [Some(b)], MAX_REORG_DEPTH)
  {
    assert Kept(ring, point) == 0;
  }

  lemma CutBelowTen(ring: Recent, chain: seq<Block>, point: U64, b: Block)
    requires Buffered(ring, chain) && Numbered(chain)
    requires |chain| - Held(chain) < point < |chain| && point < MAX_REORG_DEPTH
    ensures LastN(ring.slots[..Kept(ring, point)] + [Some(b)], MAX_REORG_DEPTH)
         == LastN(Somes(chain[..point]) + [Some(b)], MAX_REORG_DEPTH)
       <==> CutIsRight(ring.index, |chain|, point)
  {
    assert Kept(ring, point) == point;
    SameBeforeLast(ring.slots[..point], Somes(chain[..point]), Some(b));
    if |chain| <= MAX_REORG_DEPTH {
      CutOfShortChain(ring, chain, point);
    } else {
      NewerBlockInSlot0(ring, chain);
      assert Somes(chain[..point])[0] == Some(chain[0]);
    }
  }

  lemma SameBeforeLast<T>(s: seq<T>, t: seq<T>, x: T)
    ensures s + [x] == t + [x] <==> s == t
  {
    if s + [x] == t + [x] {
      assert s == (s + [x])[..|s|] && t == (t + [x])[..|t|];
    }
  }

  lemma CutOfShortChain(ring: Recent, chain: seq<Block>, point: U64)
    requires Buffered(ring, chain) && Numbered(chain)
    requires 0 < point < |chain| <= MAX_REORG_DEPTH && Kept(ring, point) == point
    ensures ring.slots[..point] == Somes(chain[..point]) <==> ring.index == |chain| % MAX_REORG_DEPTH
  {
    assert Contents(ring) == Somes(chain);
    assert Distinct(Contents(ring)) by {
      ChainIsDistinct(chain);
    }
    TruncateTakesSlots(ring, AsInt64(point));
    TruncateKeepsOldestIff(ring, AsInt64(point));
    assert Somes(chain[..point]) == Somes(chain)[..point];
  }

  lemma ChainIsDistinct(chain: seq<Block>)
    requires Numbered(chain)
    ensures Distinct(Somes(chain))
  {
    forall i, j | 0 <= i < j < |chain|
      ensures Somes(chain)[i] != Somes(chain)[j]
    {
      assert chain[i].number != chain[j].number;
    }
  }

  /** With a tip above 10 every slot has lost block 1. */
  lemma NewerBlockInSlot0(ring: Recent, chain: seq<Block>)
    requires Buffered(ring, chain) && Numbered(chain) && |chain| > MAX_REORG_DEPTH
    ensures ring.slots[0] != Some(chain[0])
  {
    SlotsOfFull(ring);
    var j := |chain| - MAX_REORG_DEPTH + if ring.index == 0 then 0 else MAX_REORG_DEPTH - ring.index;
    assert ring.slots[0] == Some(chain[j]);
    assert chain[j].number != chain[0].number;
  }

  /** The new block takes slot 0, and the others must be the nine before it, from slot 1 on. */
  lemma CutFromTenOn(ring: Recent, chain: seq<Block>, point: U64, b: Block)
    requires Buffered(ring, chain) && Numbered(chain)
    requires |chain| - MAX_REORG_DEPTH < point < |chain| && MAX_REORG_DEPTH <= point < SIGN_BIT
    ensures LastN(ring.slots[..Kept(ring, point)] + [Some(b)], MAX_REORG_DEPTH)
         == LastN(Somes(chain[..point]) + [Some(b)], MAX_REORG_DEPTH)
       <==> CutIsRight(ring.index, |chain|, point)
  {
    assert Kept(ring, point) == MAX_REORG_DEPTH;
    assert ring.slots[..MAX_REORG_DEPTH] == ring.slots;
    LastOfMore(ring.slots, Some(b), MAX_REORG_DEPTH);
    LastOfMore(Somes(chain[..point]), Some(b), MAX_REORG_DEPTH);
    SameBeforeLast(ring.slots[1..], Somes(chain[..point])[point - 9..], Some(b));
    SlotsFrom1(ring, chain, point);
  }

  lemma LastOfMore<T>(s: seq<T>, x: T, n: nat)
    requires |s| >= n > 0
    ensures LastN(s + [x], n) == s[|s| - (n - 1)..] + [x]
  {
  }

  lemma SlotsFrom1(ring: Recent, chain: seq<Block>, point: nat)
    requires Buffered(ring, chain) && Numbered(chain)
    requires |chain| - MAX_REORG_DEPTH < point < |chain| && MAX_REORG_DEPTH <= point
    ensures ring.slots[1..] == Somes(chain[..point])[point - 9..] <==> point == |chain| - 1 && ring.index == 1
  {
    var oldest := |chain| - MAX_REORG_DEPTH;
    SlotsOfFull(ring);
    if ring.index == 1 {
      OldestInSlot1(ring, chain, point);
    } else if ring.index == 0 {
      assert ring.slots[1] == Some(chain[oldest + 1]);
      assert Somes(chain[..point])[point - 9] == Some(chain[point - 9]);
      assert chain[oldest + 1].number != chain[point - 9].number;
    } else {
      WrapIsVisible(ring, chain, point);
    }
  }

  lemma OldestInSlot1(ring: Recent, chain: seq<Block>, point: nat)
    requires Buffered(ring, chain) && Numbered(chain) && ring.index == 1
    requires |chain| - MAX_REORG_DEPTH < point < |chain| && MAX_REORG_DEPTH <= point
    ensures ring.slots[1..] == Somes(chain[..point])[point - 9..] <==> point == |chain| - 1
  {
    var oldest := |chain| - MAX_REORG_DEPTH;
    SlotsOfFull(ring);
    assert ring.slots[1..] == Contents(ring)[..9] == Somes(chain[oldest..oldest + 9]);
    assert ring.slots[1..][0] == Some(chain[oldest]);
    assert Somes(chain[..point])[point - 9..][0] == Some(chain[point - 9]);
    assert point - 9 != oldest ==> chain[point - 9].number != chain[oldest].number;
    if point == |chain| - 1 {
      assert Somes(chain[..point])[point - 9..] == Somes(chain[oldest..oldest + 9]);
    }
  }

  /** Somewhere from slot 1 on the newest block is followed by the oldest. */
  lemma WrapIsVisible(ring: Recent, chain: seq<Block>, point: nat)
    requires Buffered(ring, chain) && Numbered(chain) && ring.index > 1
    requires |chain| - MAX_REORG_DEPTH < point < |chain| && MAX_REORG_DEPTH <= point
    ensures ring.slots[1..] != Somes(chain[..point])[point - 9..]
  {
    SlotsOfFull(ring);
    var i := ring.index - 2;
    assert ring.slots[1..][i] == Some(chain[|chain| - 1]);
    assert ring.slots[1..][i + 1] == Some(chain[|chain| - MAX_REORG_DEPTH]);
    assert Somes(chain[..point])[point - 9..][i] == Some(chain[point - 9 + i]);
    assert Somes(chain[..point])[point - 9..][i + 1] == Some(chain[point - 8 + i]);
    assert chain[point - 9 + i].number + 1 == chain[point - 8 + i].number;
    assert chain[|chain| - 1].number > chain[|chain| - MAX_REORG_DEPTH].number;
  }

  /** The index after a cut to `point`. */
  function IndexAfterCut(point: nat): nat {
    (if point < MAX_REORG_DEPTH then point + 1 else 1) % MAX_REORG_DEPTH
  }

  lemma CutIndex(ring: Recent, chain: seq<Block>, point: U64, b: Block)
    requires Buffered(ring, chain) && point < |chain|
    ensures CutAndAdd(ring, point, b).index == IndexAfterCut(point)
  {
    BufferSize(ring, chain);
  }
}
