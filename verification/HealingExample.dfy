/** The condition on the cut is about where the buffer's blocks lie, not about the tip's number: a run in which a
    wrong cut is healed by the blocks that follow, and then one more reorganisation. */
module HealingExample {
  import opened Wrappers
  import opened Bytes
  import opened Chain
  import opened Ledger
  import opened Circular
  import opened RingBuffers
  import opened Ffi
  import opened Reorg
  import opened Replays
  import opened ReorgBuffers
  import opened ReorgSync
  import opened ReorgRuns
  import opened ReorgHealing
  import opened ReorgExample
  import Engine

  lemma {:induction false} ReplayOfGrown(sha256: Digest, genesis: Accounts, chain: seq<Block>, m: nat)
    requires |chain| + m < U64_LIMIT
    ensures Replay(genesis, Grow(sha256, chain, m)) == Replay(genesis, chain)
    decreases m
  {
    if m > 0 {
      ReplayOfGrown(sha256, genesis, chain, m - 1);
      var below := Grow(sha256, chain, m - 1);
      ReplayAppend(genesis, below, PlainBlock(sha256, below));
    }
  }

  lemma {:induction false} GrownIsPlain(sha256: Digest, chain: seq<Block>, m: nat, i: nat)
    requires |chain| + m < U64_LIMIT && |chain| <= i < |chain| + m
    ensures Grow(sha256, chain, m)[i].transactions == []
    decreases m
  {
    if i < |chain| + m - 1 {
      GrownIsPlain(sha256, chain, m - 1, i);
    }
  }

  /** Plain blocks continue any chain that has a replay. */
  lemma GrowthContinues(sha256: Digest, genesis: Accounts, chain: seq<Block>, m: nat)
    requires |chain| + m < U64_LIMIT && Linked(sha256, chain) && Numbered(chain)
    requires Replay(genesis, chain).Some?
    ensures var longer := Grow(sha256, chain, m);
      chain + longer[|chain|..] == longer && Continues(sha256, genesis, chain, longer[|chain|..])
  {
    var longer := Grow(sha256, chain, m);
    ReplayOfGrown(sha256, genesis, chain, m);
    forall i | 0 <= i < m
      ensures Passes(longer[|chain|..][i])
    {
      GrownIsPlain(sha256, chain, m, |chain| + i);
      PlainBlockPasses(longer[|chain|..][i]);
    }
    Rejoin(chain, longer);
  }

  lemma Rejoin<T>(prefix: seq<T>, s: seq<T>)
    requires prefix <= s
    ensures prefix + s[|prefix|..] == s
  {
  }

  /** A block without transactions on top of block `point`. */
  function ForkBlock(sha256: Digest, chain: seq<Block>, point: nat, timestamp: U64): Block
    requires 0 < point < |chain| && point + 1 < U64_LIMIT
  {
    Block(point + 1, BlockHash(sha256, chain[point - 1]), timestamp, [])
  }

  /** The chain up to the fork and that block. */
  function Forked(sha256: Digest, chain: seq<Block>, point: nat, timestamp: U64): (forked: seq<Block>)
    requires 0 < point < |chain| && point + 1 < U64_LIMIT
    ensures |forked| == point + 1
  {
    chain[..point] + [ForkBlock(sha256, chain, point, timestamp)]
  }

  /** The engine has the replay of a linked chain, and the newest buffered block is its last. */
  ghost predicate EndsRight(sha256: Digest, blake3: Digest, chain: seq<Block>, node: Node) {
    && Linked(sha256, chain) && NewestIsLast(node.ring, chain) && Follows(blake3, map[], chain, node.client)
  }

  lemma ForkIsCut(sha256: Digest, blake3: Digest, chain: seq<Block>, node: Node, point: nat, timestamp: U64)
    requires Undisturbed(sha256, blake3, chain, node) && NoCollision(sha256, chain)
    requires |chain| - Held(chain) < point < |chain| && point + 1 < U64_LIMIT
    ensures var (cut, e) := ProcessBlock(sha256, blake3, node, ForkBlock(sha256, chain, point, timestamp));
      && e.None? && cut.ring.index == IndexAfterCut(point)
      && EndsRight(sha256, blake3, Forked(sha256, chain, point, timestamp), cut)
  {
    var b := ForkBlock(sha256, chain, point, timestamp);
    ForkOnPlain(sha256, blake3, chain, node, b, point);
    CutIndex(node.ring, chain, point, b);
    CutEndsRight(node.ring, chain[..point], point, b);
    ExtendLinks(sha256, chain, point, b);
  }

  /** The blocks that grow the chain, as a run. */
  ghost function Regrow(sha256: Digest, blake3: Digest, forked: seq<Block>, cut: Node, m: nat): Node
    requires Valid(cut.ring) && |forked| + m < U64_LIMIT
  {
    RunBlocks(sha256, blake3, cut, Grow(sha256, forked, m)[|forked|..])
  }

  /** A continuation of at least nine plain blocks, from a buffer whose newest block alone is right. */
  lemma RegrownRun(sha256: Digest, blake3: Digest, forked: seq<Block>, cut: Node, m: nat)
    requires EndsRight(sha256, blake3, forked, cut) && 9 <= m && |forked| + m < U64_LIMIT
    ensures var blocks := Grow(sha256, forked, m)[|forked|..];
      && AllAccepted(sha256, blake3, cut, blocks)
      && var end := Regrow(sha256, blake3, forked, cut, m);
      && Synced(sha256, blake3, map[], Grow(sha256, forked, m), end)
      && end.ring.index == Advance(cut.ring.index, m)
      && Engine.Rollback(end.client.core.value, |forked| + m - 1).Some?
  {
    AgreesAtEnd(blake3, map[], forked, cut.client.core.value);
    GrowthContinues(sha256, map[], forked, m);
    var longer := Grow(sha256, forked, m);
    var blocks := longer[|forked|..];
    assert |blocks| == m;
    HealsWithin(sha256, blake3, map[], forked, cut, blocks, longer);
  }

  lemma OneDeep(sha256: Digest, blake3: Digest, chain: seq<Block>, node: Node, timestamp: U64)
    requires Synced(sha256, blake3, map[], chain, node) && NoCollision(sha256, chain) && 1 < |chain| < U64_LIMIT
    requires Engine.Rollback(node.client.core.value, |chain| - 1).Some?
    ensures var (node', e) := ProcessBlock(sha256, blake3, node, ForkBlock(sha256, chain, |chain| - 1, timestamp));
      && e.None?
      && (Synced(sha256, blake3, map[], Forked(sha256, chain, |chain| - 1, timestamp), node')
          <==> CutIsRight(node.ring.index, |chain|, |chain| - 1))
  {
    var point, b := |chain| - 1, ForkBlock(sha256, chain, |chain| - 1, timestamp);
    BufferSize(node.ring, chain);
    ForkDetection(sha256, node.ring, chain, b, point);
    ReplayedIsAccepted(sha256, blake3, node, b, point);
    FollowerIsRecoverable(blake3, map[], chain, node.client, point);
    ReorgStep(sha256, blake3, map[], chain, node, b, point);
  }

  /** From a buffer whose newest block is right, m plain blocks are accepted and heal it, and a reorganisation one
      block deep after them keeps buffer and engine on one chain exactly when the index has come round to 1. */
  ghost predicate HealsThenOneDeep(
        sha256: Digest, blake3: Digest, forked: seq<Block>, cut: Node, index: nat, m: nat, timestamp: U64)
    requires Valid(cut.ring) && |forked| > 1 && |forked| + m < U64_LIMIT
  {
    var grown := Grow(sha256, forked, m);
    && AllAccepted(sha256, blake3, cut, grown[|forked|..])
    && var end := Regrow(sha256, blake3, forked, cut, m);
    && Synced(sha256, blake3, map[], grown, end)
    && var (last, e) := ProcessBlock(sha256, blake3, end, ForkBlock(sha256, grown, |grown| - 1, timestamp));
    && e.None?
    && (Synced(sha256, blake3, map[], Forked(sha256, grown, |grown| - 1, timestamp), last) <==> Advance(index, m) == 1)
  }

  lemma HealedThenOneDeep(
        sha256: Digest, blake3: Digest, forked: seq<Block>, cut: Node, index: nat, m: nat, timestamp: U64)
    requires EndsRight(sha256, blake3, forked, cut) && cut.ring.index == index
    requires |forked| > 1 && 9 <= m && |forked| + m < SIGN_BIT && NoCollision(sha256, Grow(sha256, forked, m))
    ensures HealsThenOneDeep(sha256, blake3, forked, cut, index, m, timestamp)
  {
    RegrownRun(sha256, blake3, forked, cut, m);
    var grown := Grow(sha256, forked, m);
    OneDeep(sha256, blake3, grown, Regrow(sha256, blake3, forked, cut, m), timestamp);
  }

  /** A plain run, a fork at any buffered block, at least nine blocks on the tip, and a reorganisation one block
      deep. */
  lemma OneDeepAfterHealing(
        sha256: Digest, blake3: Digest, chain: seq<Block>, node: Node, point: nat, m: nat, timestamp: U64, later: U64)
      returns (cut: Node)
    requires Undisturbed(sha256, blake3, chain, node) && NoCollision(sha256, chain)
    requires |chain| - Held(chain) < point < |chain| && 9 <= m && point + 1 + m < SIGN_BIT
    requires NoCollision(sha256, Grow(sha256, Forked(sha256, chain, point, timestamp), m))
    ensures (cut, None) == ProcessBlock(sha256, blake3, node, ForkBlock(sha256, chain, point, timestamp))
    ensures Valid(cut.ring)
    ensures HealsThenOneDeep(
      sha256, blake3, Forked(sha256, chain, point, timestamp), cut, IndexAfterCut(point), m, later)
  {
    ForkIsCut(sha256, blake3, chain, node, point, timestamp);
    cut := ProcessBlock(sha256, blake3, node, ForkBlock(sha256, chain, point, timestamp)).0;
    HealedThenOneDeep(sha256, blake3, Forked(sha256, chain, point, timestamp), cut, IndexAfterCut(point), m, later);
  }

  /** The tip's number says neither: from a fork at 14 of sixteen the last step is right with the tip at 25 and
      wrong with the tip at 31. */
  lemma TipSaysNeither()
    ensures Advance(IndexAfterCut(14), 10) == 1 && 25 % MAX_REORG_DEPTH != 1
    ensures Advance(IndexAfterCut(14), 16) != 1 && 31 % MAX_REORG_DEPTH == 1
  {
  }
}
