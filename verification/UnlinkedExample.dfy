/** What a wrong cut leads to: after a fork at block 12 of fifteen the buffer still holds old blocks, and
    block 15 of the old chain is accepted on top of block 14 of the new one. */
module UnlinkedExample {
  import opened Wrappers
  import opened Bytes
  import opened Chain
  import opened Circular
  import opened RingBuffers
  import opened Ffi
  import opened Reorg
  import opened Replays
  import opened EngineRuns
  import opened ReorgBuffers
  import opened ReorgSync
  import opened ReorgRuns
  import opened ReorgHealing
  import opened ReorgExample
  import Engine

  /** Blocks 13, 14 and 15 of the new chain, without transactions. */
  function Branch(sha256: Digest, fork: Hash, timestamp: U64): (branch: seq<Block>)
    ensures IsBranch(sha256, fork, branch) && branch[1].timestamp == timestamp
  {
    var b13 := Block(13, fork, timestamp, []);
    var b14 := Block(14, BlockHash(sha256, b13), timestamp, []);
    [b13, b14, Block(15, BlockHash(sha256, b14), timestamp, [])]
  }

  ghost predicate IsBranch(sha256: Digest, fork: Hash, branch: seq<Block>) {
    && |branch| == 3 && branch[0].parentHash == fork
    && branch[1].parentHash == BlockHash(sha256, branch[0]) && branch[2].parentHash == BlockHash(sha256, branch[1])
    && forall i :: 0 <= i < 3 ==> branch[i].number == 13 + i && branch[i].transactions == []
  }

  /** None of the new blocks shares the hash of the old block 14 without sharing its header. */
  ghost predicate BranchIsDistinct(sha256: Digest, branch: seq<Block>, stale: Block) {
    forall i :: 0 <= i < |branch| && BlockHash(sha256, branch[i]) == BlockHash(sha256, stale) ==>
      Header(branch[i]) == Header(stale)
  }

  // ---- blocks on top of the newest buffered one

  lemma NewestIsTip(sha256: Digest, slots: seq<Option<Block>>, index: nat, b: Block)
    requires |slots| == MAX_REORG_DEPTH && 0 < index < MAX_REORG_DEPTH - 1
    requires slots[index - 1].Some? && b.parentHash == BlockHash(sha256, slots[index - 1].value)
    ensures var ring := Ring(slots, index, MAX_REORG_DEPTH);
      && Valid(ring) && DetectReorg(sha256, ring, b) == Ok(OnTip)
      && Push(ring, Some(b)) == Ring(slots[index := Some(b)], index + 1, MAX_REORG_DEPTH)
  {
    assert Latest(Ring(slots, index, MAX_REORG_DEPTH)) == slots[index - 1];
  }

  lemma OnNewest(sha256: Digest, blake3: Digest, node: Node, slots: seq<Option<Block>>, index: nat, b: Block)
    requires |slots| == MAX_REORG_DEPTH && 0 < index < MAX_REORG_DEPTH - 1
    requires node.ring == Ring(slots, index, MAX_REORG_DEPTH)
    requires slots[index - 1].Some? && b.parentHash == BlockHash(sha256, slots[index - 1].value)
    requires ClientApply(blake3, node.client, b).1.Ok?
    ensures Valid(node.ring)
    ensures var (node', e) := ProcessBlock(sha256, blake3, node, b);
      && e.None? && node'.ring == Ring(slots[index := Some(b)], index + 1, MAX_REORG_DEPTH)
      && node'.client == ClientApply(blake3, node.client, b).0
  {
    NewestIsTip(sha256, slots, index, b);
    TipUnfolds(sha256, blake3, node, b);
  }

  lemma PlainBlockExtends(blake3: Digest, chain: seq<Block>, client: Client, b: Block)
    requires Follows(blake3, map[], chain, client) && b.number == |chain| + 1 && b.transactions == []
    ensures var (client', r) := ClientApply(blake3, client, b);
      r.Ok? && Follows(blake3, map[], chain + [b], client') && Engine.Rollback(client'.core.value, |chain|).Some?
  {
    PlainBlockApplies(blake3, client, b);
    ClientExtends(blake3, map[], chain, client, b);
    LastSavedRestores(client.core.value, ClientApply(blake3, client, b).0.core.value);
  }

  // ---- the three blocks of the branch

  lemma ForkAtTwelve(sha256: Digest, blake3: Digest, chain: seq<Block>, node: Node, b: Block)
    requires Synced(sha256, blake3, map[], chain, node) && Straight(node.client.core.value)
    requires |chain| == 15 && NoCollision(sha256, chain)
    requires b.number == 13 && b.parentHash == BlockHash(sha256, chain[11]) && b.transactions == []
    ensures Valid(node.ring)
    ensures var (node', e) := ProcessBlock(sha256, blake3, node, b);
      && e.None? && node'.ring == Ring(node.ring.slots[0 := Some(b)], 1, MAX_REORG_DEPTH)
      && Follows(blake3, map[], chain[..12] + [b], node'.client)
  {
    ForkOnPlain(sha256, blake3, chain, node, b, 12);
    CutAtTwelve(node.ring, b);
  }

  lemma CutAtTwelve(ring: Recent, b: Block)
    requires Valid(ring) && |ring.slots| == ring.size == MAX_REORG_DEPTH
    ensures CutAndAdd(ring, 12, b) == Ring(ring.slots[0 := Some(b)], 1, MAX_REORG_DEPTH)
  {
  }

  lemma ClientTakesTwo(
        blake3: Digest, chain: seq<Block>, client: Client, b: Block, c: Block)
      returns (two: Client, three: Client)
    requires Follows(blake3, map[], chain, client) && b.transactions == [] && c.transactions == []
    requires b.number == |chain| + 1 && c.number == b.number + 1
    ensures ClientApply(blake3, client, b).1.Ok? && two == ClientApply(blake3, client, b).0
    ensures ClientApply(blake3, two, c).1.Ok? && three == ClientApply(blake3, two, c).0
    ensures Follows(blake3, map[], chain + [b] + [c], three) && Engine.Rollback(three.core.value, b.number).Some?
  {
    PlainBlockExtends(blake3, chain, client, b);
    two := ClientApply(blake3, client, b).0;
    PlainBlockExtends(blake3, chain + [b], two, c);
    three := ClientApply(blake3, two, c).0;
  }

  /** The three blocks are accepted, and overwrite slots 0 to 2. */
  lemma BranchIsTaken(sha256: Digest, blake3: Digest, chain: seq<Block>, node: Node, branch: seq<Block>)
    requires Synced(sha256, blake3, map[], chain, node) && Straight(node.client.core.value)
    requires |chain| == 15 && NoCollision(sha256, chain)
    requires IsBranch(sha256, BlockHash(sha256, chain[11]), branch)
    ensures Valid(node.ring)
    ensures var end := RunBlocks(sha256, blake3, node, branch);
      && end.ring == Ring(AfterBranch(node.ring.slots, branch), 3, MAX_REORG_DEPTH)
      && Follows(blake3, map[], chain[..12] + branch, end.client) && Engine.Rollback(end.client.core.value, 14).Some?
  {
    ForkAtTwelve(sha256, blake3, chain, node, branch[0]);
    var one := ProcessBlock(sha256, blake3, node, branch[0]).0;
    var second, third := ClientTakesTwo(blake3, chain[..12] + [branch[0]], one.client, branch[1], branch[2]);
    OneByOne(chain[..12], branch);
    RestIsTaken(sha256, blake3, node.ring.slots, one, branch, second);
    RunThree(sha256, blake3, node, branch);
  }

  lemma OneByOne<T>(s: seq<T>, t: seq<T>)
    requires |t| == 3
    ensures s + [t[0]] + [t[1]] + [t[2]] == s + t
    ensures (s + t)[..|s| + 2] == s + t[..2]
  {
  }

  lemma RestIsTaken(
        sha256: Digest, blake3: Digest, slots: seq<Option<Block>>, node: Node, branch: seq<Block>, second: Client)
    requires |slots| == MAX_REORG_DEPTH && |branch| == 3 && IsBranch(sha256, branch[0].parentHash, branch)
    requires node.ring == Ring(slots[0 := Some(branch[0])], 1, MAX_REORG_DEPTH)
    requires ClientApply(blake3, node.client, branch[1]).1.Ok?
    requires second == ClientApply(blake3, node.client, branch[1]).0
    requires ClientApply(blake3, second, branch[2]).1.Ok?
    ensures Valid(node.ring)
    ensures var two := ProcessBlock(sha256, blake3, node, branch[1]).0;
      && Valid(two.ring)
      && var end := ProcessBlock(sha256, blake3, two, branch[2]).0;
      && end.ring == Ring(AfterBranch(slots, branch), 3, MAX_REORG_DEPTH)
      && end.client == ClientApply(blake3, second, branch[2]).0
  {
    OnNewest(sha256, blake3, node, slots[0 := Some(branch[0])], 1, branch[1]);
    OnNewest(sha256, blake3, ProcessBlock(sha256, blake3, node, branch[1]).0,
             slots[0 := Some(branch[0])][1 := Some(branch[1])], 2, branch[2]);
  }

  function AfterBranch(slots: seq<Option<Block>>, branch: seq<Block>): (after: seq<Option<Block>>)
    requires |slots| == MAX_REORG_DEPTH && |branch| == 3
    ensures |after| == MAX_REORG_DEPTH
  {
    slots[0 := Some(branch[0])][1 := Some(branch[1])][2 := Some(branch[2])]
  }

  lemma RunThree(sha256: Digest, blake3: Digest, node: Node, blocks: seq<Block>)
    requires Valid(node.ring) && |blocks| == 3
    ensures var one := ProcessBlock(sha256, blake3, node, blocks[0]).0;
      && Valid(one.ring)
      && var two := ProcessBlock(sha256, blake3, one, blocks[1]).0;
      && Valid(two.ring)
      && RunBlocks(sha256, blake3, node, blocks) == ProcessBlock(sha256, blake3, two, blocks[2]).0
  {
    RunFirst(sha256, blake3, node, blocks);
    var one := ProcessBlock(sha256, blake3, node, blocks[0]).0;
    RunFirst(sha256, blake3, one, blocks[1..]);
    var two := ProcessBlock(sha256, blake3, one, blocks[1]).0;
    assert blocks[1..][1..] == [blocks[2]];
    RunSingle(sha256, blake3, two, blocks[2]);
  }

  // ---- the old block

  /** Oldest first: the old blocks 14 and 15, then 6 to 10, then the branch. */
  function Mixed(chain: seq<Block>, branch: seq<Block>): (blocks: seq<Block>)
    requires |chain| == 15 && |branch| == 3
    ensures |blocks| == MAX_REORG_DEPTH
  {
    chain[13..] + chain[5..10] + branch
  }

  /** In a buffer that was filled from slot 0 block n lies in slot (n - 1) mod 10. */
  lemma FilledFromSlot0(ring: Recent, chain: seq<Block>, j: nat)
    requires Buffered(ring, chain) && |chain| == 15 && ring.index == 5 && 5 <= j < 15
    ensures ring.slots[j % MAX_REORG_DEPTH] == Some(chain[j])
  {
    SlotsOfFull(ring);
  }

  lemma BufferIsMixed(ring: Recent, chain: seq<Block>, branch: seq<Block>, mixed: Recent, k: nat)
    requires Buffered(ring, chain) && |chain| == 15 && ring.index == 5 && |branch| == 3
    requires mixed == Ring(AfterBranch(ring.slots, branch), 3, MAX_REORG_DEPTH)
    requires k < MAX_REORG_DEPTH
    ensures Valid(mixed) && Get(mixed, k) == Some(Mixed(chain, branch)[k])
  {
    if k < 2 {
      FilledFromSlot0(ring, chain, 13 + k);
    } else if k < 7 {
      FilledFromSlot0(ring, chain, 3 + k);
    }
  }

  lemma ChainDiffers(sha256: Digest, chain: seq<Block>, j: nat)
    requires |chain| == 15 && NoCollision(sha256, chain) && Numbered(chain) && 5 <= j < 15 && j != 13
    ensures BlockHash(sha256, chain[j]) != BlockHash(sha256, chain[13])
  {
    HeaderIdentifies(chain[j], chain[13]);
    HeaderIdentifies(chain[13], chain[j]);
  }

  lemma BranchDiffers(sha256: Digest, branch: seq<Block>, stale: Block, i: nat)
    requires BranchIsDistinct(sha256, branch, stale) && i < |branch|
    requires branch[i].number != stale.number || branch[i].timestamp != stale.timestamp
    ensures BlockHash(sha256, branch[i]) != BlockHash(sha256, stale)
  {
    HeaderIdentifies(branch[i], stale);
  }

  /** Only the old block 14 has its hash. */
  lemma OnlyOldFourteen(sha256: Digest, chain: seq<Block>, branch: seq<Block>, k: nat)
    requires |chain| == 15 && |branch| == 3 && NoCollision(sha256, chain) && Numbered(chain)
    requires BranchIsDistinct(sha256, branch, chain[13]) && IsBranch(sha256, BlockHash(sha256, chain[11]), branch)
    requires branch[1].timestamp != chain[13].timestamp
    requires 0 < k < MAX_REORG_DEPTH
    ensures BlockHash(sha256, Mixed(chain, branch)[k]) != BlockHash(sha256, chain[13])
  {
    if k >= 7 {
      BranchDiffers(sha256, branch, chain[13], k - 7);
    } else {
      ChainDiffers(sha256, chain, if k == 1 then 14 else 3 + k);
    }
  }

  /** The backward search passes the branch and the blocks below the fork, and stops at the old block 14. */
  lemma OldFourteenIsFound(sha256: Digest, chain: seq<Block>, branch: seq<Block>, mixed: Recent)
    requires |chain| == 15 && |branch| == 3 && NoCollision(sha256, chain) && Numbered(chain)
    requires BranchIsDistinct(sha256, branch, chain[13]) && IsBranch(sha256, BlockHash(sha256, chain[11]), branch)
    requires branch[1].timestamp != chain[13].timestamp
    requires Valid(mixed) && mixed.size == MAX_REORG_DEPTH
    requires forall k :: 0 <= k < MAX_REORG_DEPTH ==> Get(mixed, k) == Some(Mixed(chain, branch)[k])
    ensures FindForkPoint(sha256, mixed, BlockHash(sha256, chain[13]), MAX_REORG_DEPTH) == Some(14)
  {
    var k := FindInContents(sha256, mixed, Mixed(chain, branch), BlockHash(sha256, chain[13]), MAX_REORG_DEPTH);
    assert Mixed(chain, branch)[0] == chain[13];
    if k > 0 {
      OnlyOldFourteen(sha256, chain, branch, k);
    }
  }

  lemma OldParentIsFound(sha256: Digest, ring: Recent, chain: seq<Block>, branch: seq<Block>, mixed: Recent)
    requires Buffered(ring, chain) && |chain| == 15 && |branch| == 3 && NoCollision(sha256, chain)
    requires Numbered(chain) && Linked(sha256, chain) && ring.index == 5
    requires BranchIsDistinct(sha256, branch, chain[13]) && IsBranch(sha256, BlockHash(sha256, chain[11]), branch)
    requires branch[1].timestamp != chain[13].timestamp
    requires mixed == Ring(AfterBranch(ring.slots, branch), 3, MAX_REORG_DEPTH)
    ensures Valid(mixed) && DetectReorg(sha256, mixed, chain[14]) == Ok(Fork(14))
  {
    forall k | 0 <= k < MAX_REORG_DEPTH
      ensures Valid(mixed) && Get(mixed, k) == Some(Mixed(chain, branch)[k])
    {
      BufferIsMixed(ring, chain, branch, mixed, k);
    }
    OldFourteenIsFound(sha256, chain, branch, mixed);
    OnlyOldFourteen(sha256, chain, branch, MAX_REORG_DEPTH - 1);
    StaleVerdict(sha256, mixed, branch[2], chain[14]);
  }

  lemma StaleVerdict(sha256: Digest, mixed: Recent, newest: Block, b: Block)
    requires Valid(mixed) && mixed.size == MAX_REORG_DEPTH && Get(mixed, MAX_REORG_DEPTH - 1) == Some(newest)
    requires newest.number == 15 && b.parentHash != BlockHash(sha256, newest)
    requires FindForkPoint(sha256, mixed, b.parentHash, MAX_REORG_DEPTH) == Some(14)
    ensures DetectReorg(sha256, mixed, b) == Ok(Fork(14))
  {
  }

  lemma OldBlockIsTaken(sha256: Digest, blake3: Digest, chain: seq<Block>, node: Node, b: Block)
    requires |chain| == 15 && Follows(blake3, map[], chain, node.client)
    requires Valid(node.ring) && DetectReorg(sha256, node.ring, b) == Ok(Fork(14))
    requires Engine.Rollback(node.client.core.value, 14).Some?
    requires b.number == 15 && b.transactions == []
    ensures var (end, e) := ProcessBlock(sha256, blake3, node, b);
      e.None? && Follows(blake3, map[], chain[..14] + [b], end.client)
  {
    FollowerIsRecoverable(blake3, map[], chain, node.client, 14);
    ReplayedIsAccepted(sha256, blake3, node, b, 14);
    ReorgUnfolds(sha256, blake3, node, b, 14);
    ClientExtends(blake3, map[], chain[..14], ClientRollback(node.client, 14).value, b);
  }

  lemma NotLinkedAtFifteen(sha256: Digest, accepted: seq<Block>, below: Block, parent: Block)
    requires |accepted| == 15 && accepted[13] == below && accepted[14].parentHash == BlockHash(sha256, parent)
    requires BlockHash(sha256, below) != BlockHash(sha256, parent)
    ensures !Linked(sha256, accepted)
  {
    assert accepted[14].parentHash != BlockHash(sha256, accepted[13]);
  }

  lemma StaleBlockIsTaken(
        sha256: Digest, blake3: Digest, chain: seq<Block>, ring: Recent, forked: Node, branch: seq<Block>)
    requires Buffered(ring, chain) && Numbered(chain) && Linked(sha256, chain) && ring.index == 5
    requires |chain| == 15 && NoCollision(sha256, chain) && chain[14].transactions == []
    requires BranchIsDistinct(sha256, branch, chain[13]) && IsBranch(sha256, BlockHash(sha256, chain[11]), branch)
    requires branch[1].timestamp != chain[13].timestamp
    requires forked.ring == Ring(AfterBranch(ring.slots, branch), 3, MAX_REORG_DEPTH)
    requires Follows(blake3, map[], chain[..12] + branch, forked.client)
    requires Engine.Rollback(forked.client.core.value, 14).Some?
    ensures Valid(forked.ring) && DetectReorg(sha256, forked.ring, chain[14]) == Ok(Fork(14))
    ensures var (end, e) := ProcessBlock(sha256, blake3, forked, chain[14]);
      e.None? && Follows(blake3, map[], chain[..12] + branch[..2] + [chain[14]], end.client)
  {
    OldParentIsFound(sha256, ring, chain, branch, forked.ring);
    OldBlockIsTaken(sha256, blake3, chain[..12] + branch, forked, chain[14]);
    OneByOne(chain[..12], branch);
  }

  lemma StaleBlockIsUnlinked(sha256: Digest, chain: seq<Block>, branch: seq<Block>)
    requires |chain| == 15 && NoCollision(sha256, chain) && Numbered(chain) && Linked(sha256, chain)
    requires BranchIsDistinct(sha256, branch, chain[13]) && IsBranch(sha256, BlockHash(sha256, chain[11]), branch)
    requires branch[1].timestamp != chain[13].timestamp
    ensures !Linked(sha256, chain[..12] + branch[..2] + [chain[14]])
  {
    OnlyOldFourteen(sha256, chain, branch, 8);
    NotLinkedAtFifteen(sha256, chain[..12] + branch[..2] + [chain[14]], branch[1], chain[13]);
  }

  /** Fifteen plain blocks, a branch of three from block 12, and then the old block 15 once more, with a digest
      that does not collide on them: every call succeeds. The engine ends with a chain whose last block names
      a parent that is not on it. */
  lemma UnlinkedChainIsAccepted(sha256: Digest, blake3: Digest, timestamp: U64)
    requires NoCollision(sha256, Plain(sha256, 15)) && timestamp != 14
    requires var chain := Plain(sha256, 15);
      BranchIsDistinct(sha256, Branch(sha256, BlockHash(sha256, chain[11]), timestamp), chain[13])
    ensures var chain := Plain(sha256, 15);
      var branch := Branch(sha256, BlockHash(sha256, chain[11]), timestamp);
      var node := RunBlocks(sha256, blake3, Begin(), chain);
      && Valid(node.ring)
      && var forked := RunBlocks(sha256, blake3, node, branch);
      && Valid(forked.ring) && Follows(blake3, map[], chain[..12] + branch, forked.client)
      && DetectReorg(sha256, forked.ring, chain[14]) == Ok(Fork(14))
      && var (end, e) := ProcessBlock(sha256, blake3, forked, chain[14]);
      var accepted := chain[..12] + branch[..2] + [chain[14]];
      e.None? && Follows(blake3, map[], accepted, end.client) && !Linked(sha256, accepted)
  {
    PlainRun(sha256, blake3, 15);
    PlainFields(sha256, 15, 13);
    PlainFields(sha256, 15, 14);
    var chain := Plain(sha256, 15);
    var branch := Branch(sha256, BlockHash(sha256, chain[11]), timestamp);
    var node := RunBlocks(sha256, blake3, Begin(), chain);
    BranchIsTaken(sha256, blake3, chain, node, branch);
    StaleBlockIsTaken(sha256, blake3, chain, node.ring, RunBlocks(sha256, blake3, node, branch), branch);
    StaleBlockIsUnlinked(sha256, chain, branch);
  }

  lemma StampIsDistinct(branch: seq<Block>, stale: Block)
    requires forall i :: 0 <= i < |branch| ==>
      branch[i].number != stale.number || branch[i].timestamp != stale.timestamp
    ensures BranchIsDistinct(Stamp, branch, stale)
  {
    forall i | 0 <= i < |branch|
      ensures BlockHash(Stamp, branch[i]) != BlockHash(Stamp, stale)
    {
      StampSeparates(branch[i], stale);
    }
  }

  /** There is a digest with which no fifteen blocks and no branch on them collide. */
  lemma StampTellsApart(chain: seq<Block>, branch: seq<Block>)
    requires |chain| == 15 && Numbered(chain) && IsBranch(Stamp, BlockHash(Stamp, chain[11]), branch)
    requires branch[1].timestamp != chain[13].timestamp
    ensures NoCollision(Stamp, chain) && BranchIsDistinct(Stamp, branch, chain[13])
  {
    StampNeverCollides(chain);
    StampIsDistinct(branch, chain[13]);
  }
}
