/** The depth check can fire, but only on a wrong buffer: fifteen blocks, a fork at 14, eight blocks on top, and then
    a block on top of block 10, which a right buffer would no longer hold. */
module DepthExample {
  import opened Wrappers
  import opened Bytes
  import opened Chain
  import opened Circular
  import opened RingBuffers
  import opened Ffi
  import opened Reorg
  import opened Replays
  import opened ReorgBuffers
  import opened ReorgSync
  import opened ReorgRuns
  import opened ReorgHealing
  import opened ReorgErrors
  import opened ReorgExample
  import opened HealingExample
  import opened UnlinkedExample

  /** Oldest first: the stale block 10, the fork's block 15, and the eight blocks 16 to 23. */
  function Stale(chain: seq<Block>, b: Block, blocks: seq<Block>): (all: seq<Block>)
    requires |chain| == 15 && |blocks| == 8
    ensures |all| == 10
  {
    [chain[9], b] + blocks
  }

  /** No other of these blocks shares the hash of block 10 without sharing its header. */
  ghost predicate TenIsDistinct(sha256: Digest, all: seq<Block>) {
    forall i :: 0 < i < |all| && BlockHash(sha256, all[i]) == BlockHash(sha256, all[0]) ==>
      Header(all[i]) == Header(all[0])
  }

  lemma StaleContents(ring: Recent, chain: seq<Block>, b: Block, blocks: seq<Block>)
    requires Buffered(ring, chain) && |chain| == 15 && ring.index == 5 && |blocks| == 8
    ensures Valid(CutAndAdd(ring, 14, b))
    ensures Contents(PushAll(CutAndAdd(ring, 14, b), Somes(blocks))) == Somes(Stale(chain, b, blocks))
  {
    CutContents(ring, 14, b);
    FilledFromSlot0(ring, chain, 9);
    KeepsTen(ring, chain);
    PushAllIsLastN(CutAndAdd(ring, 14, b), Somes(blocks));
    LastTen(ring.slots, Some(b), Somes(blocks));
    TwoSomes(chain[9], b, blocks);
  }

  lemma KeepsTen(ring: Recent, chain: seq<Block>)
    requires Buffered(ring, chain) && |chain| == 15
    ensures Kept(ring, 14) == 10
  {
    BufferSize(ring, chain);
  }

  lemma TwoSomes<T>(x: T, y: T, t: seq<T>)
    ensures Somes([x, y] + t) == [Some(x), Some(y)] + Somes(t)
  {
  }

  lemma LastTen<T>(slots: seq<T>, x: T, tail: seq<T>)
    requires |slots| == 10 && |tail| == 8
    ensures LastN(LastN(slots[..10] + [x], 10) + tail, 10) == [slots[9], x] + tail
  {
    assert slots[..10] == slots;
    assert LastN(slots + [x], 10) == slots[1..] + [x];
  }

  lemma StaleIsHeld(ring: Recent, all: seq<Block>)
    requires Valid(ring) && Contents(ring) == Somes(all)
    ensures Holds(ring, all)
  {
    assert ring.size == |Contents(ring)|;
    forall i | 0 <= i < |all|
      ensures Get(ring, i) == Some(all[i])
    {
      GetMeaning(ring, i);
    }
  }

  lemma TenIsTooDeep(sha256: Digest, ring: Recent, all: seq<Block>, b: Block)
    requires Holds(ring, all) && |all| == 10 && TenIsDistinct(sha256, all)
    requires all[0].number == 10 && all[9].number == 23 && forall i :: 0 < i < 10 ==> all[i].number > 10
    requires b.parentHash == BlockHash(sha256, all[0])
    ensures DetectReorg(sha256, ring, b) == Err(DepthExceeded(13))
  {
    forall i | 0 < i < 10
      ensures BlockHash(sha256, all[i]) != BlockHash(sha256, all[0])
    {
      HeaderIdentifies(all[i], all[0]);
    }
    VerdictOnAnyBuffer(sha256, ring, all, b);
    assert NewestMatch(sha256, all, b.parentHash, 0);
    assert TooDeep(23, 10, 13);
  }

  /** Every call succeeds up to the last. The buffer then holds block 10 below blocks 15 to 23 of the new chain, and a
      block on top of block 10 is refused for its depth of 13, while a right buffer would not know its parent. */
  lemma DepthCheckFires(
        sha256: Digest, blake3: Digest, chain: seq<Block>, node: Node, timestamp: U64, b: Block)
      returns (end: Node)
    requires Undisturbed(sha256, blake3, chain, node) && NoCollision(sha256, chain) && |chain| == 15
    requires b.parentHash == BlockHash(sha256, chain[9])
    requires var forked := Forked(sha256, chain, 14, timestamp);
      TenIsDistinct(sha256, Stale(chain, ForkBlock(sha256, chain, 14, timestamp), Grow(sha256, forked, 8)[15..]))
    ensures var (cut, e) := ProcessBlock(sha256, blake3, node, ForkBlock(sha256, chain, 14, timestamp));
      var blocks := Grow(sha256, Forked(sha256, chain, 14, timestamp), 8)[15..];
      && e.None? && Valid(cut.ring) && AllAccepted(sha256, blake3, cut, blocks)
      && end == RunBlocks(sha256, blake3, cut, blocks)
    ensures Valid(end.ring) && ProcessBlock(sha256, blake3, end, b) == (end, Some(DepthExceeded(13)))
  {
    var fork, forked := ForkBlock(sha256, chain, 14, timestamp), Forked(sha256, chain, 14, timestamp);
    var grown := Grow(sha256, forked, 8);
    var blocks := grown[15..];
    ForkIsCut(sha256, blake3, chain, node, 14, timestamp);
    ForkOnPlain(sha256, blake3, chain, node, fork, 14);
    var cut := ProcessBlock(sha256, blake3, node, fork).0;
    EightMore(sha256, blake3, forked, cut);
    end := RunBlocks(sha256, blake3, cut, blocks);
    StaleContents(node.ring, chain, fork, blocks);
    StaleIsHeld(end.ring, Stale(chain, fork, blocks));
    StaleNumbers(sha256, chain, forked, blocks);
    TenIsTooDeep(sha256, end.ring, Stale(chain, fork, blocks), b);
  }

  lemma EightMore(sha256: Digest, blake3: Digest, forked: seq<Block>, cut: Node)
    requires EndsRight(sha256, blake3, forked, cut) && |forked| == 15
    ensures var blocks := Grow(sha256, forked, 8)[15..];
      && AllAccepted(sha256, blake3, cut, blocks)
      && RunBlocks(sha256, blake3, cut, blocks).ring == PushAll(cut.ring, Somes(blocks))
  {
    AgreesAtEnd(blake3, map[], forked, cut.client.core.value);
    GrowthContinues(sha256, map[], forked, 8);
    ContinuationRun(sha256, blake3, map[], forked, cut, Grow(sha256, forked, 8)[15..]);
  }

  lemma StaleNumbers(sha256: Digest, chain: seq<Block>, forked: seq<Block>, blocks: seq<Block>)
    requires |chain| == 15 && Numbered(chain) && |forked| == 15 && Numbered(forked)
    requires blocks == Grow(sha256, forked, 8)[15..]
    ensures var all := Stale(chain, forked[14], blocks);
      all[0].number == 10 && all[9].number == 23 && forall i :: 0 < i < 10 ==> all[i].number > 10
  {
    var grown := Grow(sha256, forked, 8);
    assert forall i :: 0 <= i < 8 ==> blocks[i] == grown[15 + i];
  }
}
