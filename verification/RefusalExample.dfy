/** Runs from a fresh start in which one refused block strands the node, and in which ten refused blocks put an end
    to reorganisations. */
module RefusalExample {
  import opened Wrappers
  import opened Bytes
  import opened Chain
  import opened Arithmetic256
  import opened Circular
  import opened Codec
  import opened Ffi
  import opened Reorg
  import opened Replays
  import opened ReorgBuffers
  import opened ReorgSync
  import opened ReorgRuns
  import opened ReorgRefusals
  import opened ReorgRecovery
  import opened ReorgExample
  import opened HealingExample

  ghost function ModelOf(chain: seq<Block>, node: Node): Model
    requires node.client.core.Some?
  {
    Model(chain, Numbers(node.client.core.value.history), node.ring.index)
  }

  lemma UndisturbedRefines(sha256: Digest, blake3: Digest, chain: seq<Block>, node: Node)
    requires Undisturbed(sha256, blake3, chain, node)
    ensures Refines(sha256, blake3, map[], ModelOf(chain, node), node)
    ensures Oldest(ModelOf(chain, node).retained) == |chain| - Held(chain)
  {
    var h := node.client.core.value.history;
    assert h != [] ==> Oldest(ModelOf(chain, node).retained) == h[0].number;
  }

  /** Without collisions the parent is the block whose hash is named. */
  lemma ParentOnFork(sha256: Digest, chain: seq<Block>, b: Block, point: nat)
    requires NoCollision(sha256, chain) && Numbered(chain) && |chain| - Held(chain) < point < |chain|
    requires b.parentHash == BlockHash(sha256, chain[point - 1])
    ensures Parent(sha256, chain, b) == Some(point)
  {
    OnlyMatch(sha256, chain, b.parentHash, point - 1);
    assert BuildsOn(sha256, chain, b, point);
  }

  lemma ParentOnTip(sha256: Digest, chain: seq<Block>, b: Block)
    requires chain == [] || b.parentHash == BlockHash(sha256, chain[|chain| - 1])
    ensures Parent(sha256, chain, b) == Some(|chain|)
  {
    assert BuildsOn(sha256, chain, b, |chain|);
  }

  // ---- stranded

  /** A block on top of block `point` that carries the number 0. */
  function BadBlock(sha256: Digest, chain: seq<Block>, point: nat, timestamp: U64): Block
    requires 0 < point < |chain|
  {
    Block(0, BlockHash(sha256, chain[point - 1]), timestamp, [])
  }

  lemma BadBlockStrands(
        sha256: Digest, blake3: Digest, chain: seq<Block>, node: Node, point: nat, timestamp: U64)
    requires Undisturbed(sha256, blake3, chain, node) && NoCollision(sha256, chain)
    requires |chain| - Held(chain) < point < |chain|
    ensures var (stranded, e) := ProcessBlock(sha256, blake3, node, BadBlock(sha256, chain, point, timestamp));
      e.Some? && Stranded(sha256, blake3, map[], chain, stranded, point)
  {
    var b, m := BadBlock(sha256, chain, point, timestamp), ModelOf(chain, node);
    UndisturbedRefines(sha256, blake3, chain, node);
    ParentOnFork(sha256, chain, b, point);
    assert chain[point].number == point + 1;
    NotNumberZero(point);
    AcceptsIff(sha256, blake3, map[], m, node, b);
    FailedReplayStrands(sha256, blake3, map[], m, node, b, point);
  }

  lemma NotNumberZero(point: nat)
    requires point + 1 < U64_LIMIT
    ensures (point + 1) % U64_LIMIT != 0
  {
    DivUnique(point + 1, U64_LIMIT, 0, point + 1);
  }

  lemma OldChainIsRefused(sha256: Digest, blake3: Digest, chain: seq<Block>, node: Node, point: U64)
    requires Stranded(sha256, blake3, map[], chain, node, point) && |chain| + 1 < U64_LIMIT
    ensures var (node', e) := ProcessBlock(sha256, blake3, node, PlainBlock(sha256, chain)); e.Some? && node' == node
  {
    ParentOnTip(sha256, chain, PlainBlock(sha256, chain));
    AboveTheForkIsRefused(sha256, blake3, map[], chain, node, point, PlainBlock(sha256, chain));
  }

  lemma ForkIsStillOpen(
        sha256: Digest, blake3: Digest, chain: seq<Block>, node: Node, point: U64, timestamp: U64)
    requires Stranded(sha256, blake3, map[], chain, node, point) && NoCollision(sha256, chain)
    requires |chain| - Held(chain) < point && point + 1 < U64_LIMIT
    ensures ProcessBlock(sha256, blake3, node, ForkBlock(sha256, chain, point, timestamp)).1.None?
  {
    var b := ForkBlock(sha256, chain, point, timestamp);
    ParentOnFork(sha256, chain, b, point);
    BehindReaches(blake3, map[], chain, node.client, point, point);
    AgreesAtEnd(blake3, map[], chain[..point], ClientRollback(node.client, point).value.core.value);
    ReplayAppend(map[], chain[..point], b);
    PlainBlockPasses(b);
    DivUnique(point + 1, U64_LIMIT, 0, point + 1);
    StrandedAcceptsIff(sha256, blake3, map[], chain, node, point, b);
  }

  /** n plain blocks, then a block numbered 0 on top of any buffered block but the tip: it is refused and strands
      the node. The old chain's next block is refused too and changes nothing, while a block on the fork would
      still be accepted. */
  lemma OneBadBlockStrands(sha256: Digest, blake3: Digest, n: nat, point: nat, timestamp: U64, later: U64)
    requires n + 1 < U64_LIMIT && NoCollision(sha256, Plain(sha256, n))
    requires n - Held(Plain(sha256, n)) < point < n
    ensures var chain := Plain(sha256, n);
      var node := RunBlocks(sha256, blake3, Begin(), chain);
      && Synced(sha256, blake3, map[], chain, node)
      && var (stranded, e) := ProcessBlock(sha256, blake3, node, BadBlock(sha256, chain, point, timestamp));
      && e.Some? && Stranded(sha256, blake3, map[], chain, stranded, point)
      && var (same, e') := ProcessBlock(sha256, blake3, stranded, PlainBlock(sha256, chain));
      && e'.Some? && same == stranded
      && ProcessBlock(sha256, blake3, stranded, ForkBlock(sha256, chain, point, later)).1.None?
  {
    PlainRun(sha256, blake3, n);
    var chain := Plain(sha256, n);
    var node := RunBlocks(sha256, blake3, Begin(), chain);
    BadBlockStrands(sha256, blake3, chain, node, point, timestamp);
    var stranded := ProcessBlock(sha256, blake3, node, BadBlock(sha256, chain, point, timestamp)).0;
    OldChainIsRefused(sha256, blake3, chain, stranded, point);
    ForkIsStillOpen(sha256, blake3, chain, stranded, point, later);
  }

  // ---- bounces

  /** The next block on the tip, with a transfer of 1 from an account that does not exist. */
  ghost function PoorBlock(sha256: Digest, chain: seq<Block>): Block
    requires |chain| + 1 < U64_LIMIT
  {
    OneFits();
    PlainBlock(sha256, chain).(transactions := [Transaction(Zeros(20), Zeros(20), WordOf(1), [])])
  }

  lemma {:induction false} PoorBlockBounces(sha256: Digest, chain: seq<Block>)
    requires |chain| + 1 < U64_LIMIT && Replay(map[], chain) == Some(map[])
    ensures Bounces(sha256, map[], chain, PoorBlock(sha256, chain))
  {
    var b := PoorBlock(sha256, chain);
    OneFits();
    ParentOnTip(sha256, chain, b);
    PayloadLength(b.transactions);
    DivUnique(|chain| + 1, U64_LIMIT, 0, |chain| + 1);
  }

  lemma BouncesEndForks(
        sha256: Digest, blake3: Digest, chain: seq<Block>, node: Node, point: nat, timestamp: U64, blocks: seq<Block>)
    requires Undisturbed(sha256, blake3, chain, node) && NoCollision(sha256, chain)
    requires |chain| - Held(chain) < point < |chain| && point + 1 < U64_LIMIT
    requires |blocks| >= 10 && forall i :: 0 <= i < |blocks| ==> Bounces(sha256, map[], chain, blocks[i])
    ensures var end, b := RunBlocks(sha256, blake3, node, blocks), ForkBlock(sha256, chain, point, timestamp);
      && ProcessBlock(sha256, blake3, node, b).1.None?
      && Valid(end.ring) && ProcessBlock(sha256, blake3, end, b) == (end, Some(RollbackFailed))
  {
    var b := ForkBlock(sha256, chain, point, timestamp);
    ForkOnPlain(sha256, blake3, chain, node, b, point);
    UndisturbedRefines(sha256, blake3, chain, node);
    ParentOnFork(sha256, chain, b, point);
    BouncesEndReorgs(sha256, blake3, map[], ModelOf(chain, node), node, blocks, b);
  }

  /** n plain blocks, and then ten times a block that is refused for want of money: a fork that was open before is
      closed. */
  lemma TenPoorBlocksEndForks(sha256: Digest, blake3: Digest, n: nat, point: nat, timestamp: U64)
    requires n + 1 < U64_LIMIT && NoCollision(sha256, Plain(sha256, n))
    requires n - Held(Plain(sha256, n)) < point < n
    ensures var chain := Plain(sha256, n);
      var node := RunBlocks(sha256, blake3, Begin(), chain);
      && Valid(node.ring)
      && var end := RunBlocks(sha256, blake3, node, seq(10, _ => PoorBlock(sha256, chain)));
      var b := ForkBlock(sha256, chain, point, timestamp);
      && ProcessBlock(sha256, blake3, node, b).1.None?
      && Valid(end.ring) && ProcessBlock(sha256, blake3, end, b) == (end, Some(RollbackFailed))
  {
    PlainRun(sha256, blake3, n);
    var chain := Plain(sha256, n);
    ReplayOfGrown(sha256, map[], [], n);
    PoorBlockBounces(sha256, chain);
    BouncesEndForks(sha256, blake3, chain, RunBlocks(sha256, blake3, Begin(), chain), point, timestamp,
                    seq(10, _ => PoorBlock(sha256, chain)));
  }
}
