/** What a stranded node does with blocks on the old tip that carry the number after the fork's: the only
    blocks of the old chain that reach the engine. */
module ReorgMislabelled {
  import opened Wrappers
  import opened Bytes
  import opened Chain
  import opened Ledger
  import opened Ffi
  import opened Reorg
  import opened Replays
  import opened EngineRuns
  import opened Recovery
  import opened ReorgBuffers
  import opened ReorgSync
  import opened ReorgRuns
  import opened ReorgRecovery
  import Engine

  /** Such a block is applied to the engine at the fork, on top of whatever was left there. Accepted, it is taken
      for the next block of the old chain by the buffer. */
  lemma MislabelledStep(
        sha256: Digest, blake3: Digest, genesis: Accounts, chain: seq<Block>, node: Node, point: U64, b: Block)
    requires Stranded(sha256, blake3, genesis, chain, node, point) && Mislabelled(sha256, chain, node.client, b)
    ensures var (node', e) := ProcessBlock(sha256, blake3, node, b);
      var stuck := ApplyTransactions(node.client.core.value.accounts, b.transactions).error.Some?;
      && (e.None? <==> Passes(b) && !stuck)
      && (e.None? ==> Buffered(node'.ring, chain + [b]) && node'.client.last == point + 1 < |chain + [b]|)
      && (e.Some? ==> node' == if stuck && Passes(b) then node.(client := StuckClient(node.client, b)) else node)
  {
    OldTipGetsThrough(sha256, chain, node, point, b);
    TipUnfolds(sha256, blake3, node, b);
    ApplyReachesEngine(blake3, node.client, b);
    PushKeepsBuffered(node.ring, chain, b);
  }

  lemma OldTipGetsThrough(sha256: Digest, chain: seq<Block>, node: Node, point: U64, b: Block)
    requires Buffered(node.ring, chain) && Numbered(chain) && point < |chain| && node.client.last == point
    requires Mislabelled(sha256, chain, node.client, b)
    ensures DetectReorg(sha256, node.ring, b) == Ok(OnTip) && b.number == (point + 1) % U64_LIMIT
  {
    DetectFindsParent(sha256, node.ring, chain, b);
    assert chain[point].number == point + 1;
    SmallModulo(point + 1, U64_LIMIT);
  }

  // ---- runs of such blocks that get stuck

  /** Mislabelled when it arrives, and stuck in a transaction. */
  ghost predicate SticksOnOldTip(sha256: Digest, chain: seq<Block>, client: Client, b: Block) {
    && Mislabelled(sha256, chain, client, b) && Passes(b) && client.core.Some?
    && ApplyTransactions(client.core.value.accounts, b.transactions).error.Some?
  }

  ghost predicate AllStick(sha256: Digest, chain: seq<Block>, client: Client, blocks: seq<Block>)
    decreases |blocks|
  {
    blocks == []
    || (SticksOnOldTip(sha256, chain, client, blocks[0])
        && AllStick(sha256, chain, StuckClient(client, blocks[0]), blocks[1..]))
  }

  function Applies(blocks: seq<Block>): (ops: seq<Op>)
    ensures |ops| == |blocks|
  {
    if blocks == [] then [] else [Op.Apply(blocks[0])] + Applies(blocks[1..])
  }

  ghost predicate OnOldTip(chain: seq<Block>, node: Node) {
    && Numbered(chain) && Buffered(node.ring, chain)
    && LockStep(node.client) && node.client.core.Some? && node.client.last < |chain|
  }

  lemma StickStep(sha256: Digest, blake3: Digest, chain: seq<Block>, node: Node, b: Block)
    requires OnOldTip(chain, node) && SticksOnOldTip(sha256, chain, node.client, b)
    ensures ProcessBlock(sha256, blake3, node, b).1.Some?
    ensures ProcessBlock(sha256, blake3, node, b).0 == node.(client := StuckClient(node.client, b))
    ensures Step(blake3, node.client.core.value, Op.Apply(b)) == (Stuck(node.client.core.value, b), HalfDone)
  {
    OldTipGetsThrough(sha256, chain, node, node.client.last, b);
    TipUnfolds(sha256, blake3, node, b);
    ClientSticks(blake3, node.client, b);
  }

  lemma ClientSticks(blake3: Digest, client: Client, b: Block)
    requires LockStep(client) && client.core.Some? && Passes(b)
    requires b.number == (client.last + 1) % U64_LIMIT
    requires ApplyTransactions(client.core.value.accounts, b.transactions).error.Some?
    ensures ClientApply(blake3, client, b).1.Err? && ClientApply(blake3, client, b).0 == StuckClient(client, b)
    ensures Step(blake3, client.core.value, Op.Apply(b)) == (Stuck(client.core.value, b), HalfDone)
  {
    ApplyReachesEngine(blake3, client, b);
  }

  lemma {:induction false} StickRun(
        sha256: Digest, blake3: Digest, chain: seq<Block>, node: Node, blocks: seq<Block>)
    requires OnOldTip(chain, node) && AllStick(sha256, chain, node.client, blocks)
    ensures var s := node.client.core.value;
      && Failing(blake3, s, Applies(blocks)) && |StartingAccounts(blake3, s, Applies(blocks))| == |blocks|
      && RunBlocks(sha256, blake3, node, blocks)
         == node.(client := node.client.(core := Some(After(blake3, s, Applies(blocks)))))
    decreases |blocks|
  {
    if blocks != [] {
      var s, next := node.client.core.value, node.(client := StuckClient(node.client, blocks[0]));
      StickStep(sha256, blake3, chain, node, blocks[0]);
      RunFirst(sha256, blake3, node, blocks);
      StickRun(sha256, blake3, chain, next, blocks[1..]);
      FirstFailure(blake3, s, Stuck(s, blocks[0]), Applies(blocks));
      assert Applies(blocks)[1..] == Applies(blocks[1..]);
    }
  }

  lemma FirstFailure(blake3: Digest, s: Engine.State, next: Engine.State, ops: seq<Op>)
    requires ops != [] && Step(blake3, s, ops[0]) == (next, HalfDone) && Failing(blake3, next, ops[1..])
    ensures Failing(blake3, s, ops) && After(blake3, s, ops) == After(blake3, next, ops[1..])
    ensures StartingAccounts(blake3, s, ops) == [s.accounts] + StartingAccounts(blake3, next, ops[1..])
  {
    AfterFirst(blake3, s, ops);
  }

  /** A client that started at the fork with the replay, and to which nothing but failures happened since: it is
      still behind, in the sense of being recoverable, exactly when the rollback is clean. */
  lemma BehindIff(
        blake3: Digest, genesis: Accounts, chain: seq<Block>, client: Client, point: U64, s: Engine.State,
        ops: seq<Op>)
    requires point <= |chain| && Agrees(blake3, genesis, chain[..point], s) && Gapless(s)
    requires Failing(blake3, s, ops) && StartingAccounts(blake3, s, ops) != []
    requires client == Client(point, Some(After(blake3, s, ops)))
    ensures Behind(blake3, genesis, chain, client, point)
       <==> LeavesNoTrace(StartingAccounts(blake3, s, ops), s.accounts)
  {
    RecoversIff(blake3, genesis, chain[..point], s, ops);
    FailuresOnlyPush(blake3, s, ops);
    FailingStaysGapless(blake3, s, ops);
    BehindIfClean(blake3, genesis, chain, client, point);
  }

  lemma BehindIfClean(blake3: Digest, genesis: Accounts, chain: seq<Block>, client: Client, point: U64)
    requires point <= |chain| && LockStep(client) && client.core.Some? && client.last == point
    requires Gapless(client.core.value) && Engine.Rollback(client.core.value, point).Some?
    ensures Behind(blake3, genesis, chain, client, point)
       <==> Agrees(blake3, genesis, chain[..point], Engine.Rollback(client.core.value, point).value)
  {
    RollbackStaysGapless(client.core.value, point);
  }

  lemma StrandedIfBehind(
        sha256: Digest, blake3: Digest, genesis: Accounts, chain: seq<Block>, node: Node, client: Client, point: U64)
    requires Stranded(sha256, blake3, genesis, chain, node, point)
    ensures Stranded(sha256, blake3, genesis, chain, node.(client := client), point)
       <==> Behind(blake3, genesis, chain, client, point)
  {
  }

  lemma StickRunFrom(
        sha256: Digest, blake3: Digest, chain: seq<Block>, node: Node, s: Engine.State, before: seq<Op>,
        blocks: seq<Block>)
    requires OnOldTip(chain, node) && AllStick(sha256, chain, node.client, blocks)
    requires Failing(blake3, s, before) && node.client.core == Some(After(blake3, s, before))
    ensures var ops := before + Applies(blocks);
      && Failing(blake3, s, ops)
      && |StartingAccounts(blake3, s, ops)| == |StartingAccounts(blake3, s, before)| + |blocks|
      && RunBlocks(sha256, blake3, node, blocks)
         == node.(client := Client(node.client.last, Some(After(blake3, s, ops))))
  {
    StickRun(sha256, blake3, chain, node, blocks);
    FailingAppend(blake3, s, before, Applies(blocks));
    AfterAppend(blake3, s, before, Applies(blocks));
    StartsAppend(blake3, s, before, Applies(blocks));
  }

  /** A run of blocks that stick on the old tip, at a stranded node whose engine failed `before` since it had the
      replay of the fork. Up to ten failures in all the fork can still be recovered; from the eleventh on it
      cannot, unless those before the last ten left nothing behind. */
  lemma StickingLosesTheFork(
        sha256: Digest, blake3: Digest, genesis: Accounts, chain: seq<Block>, node: Node, point: U64,
        s: Engine.State, before: seq<Op>, blocks: seq<Block>)
      returns (starts: seq<Accounts>)
    requires Stranded(sha256, blake3, genesis, chain, node, point)
    requires Agrees(blake3, genesis, chain[..point], s) && Gapless(s)
    requires Failing(blake3, s, before) && node.client.core == Some(After(blake3, s, before))
    requires AllStick(sha256, chain, node.client, blocks) && blocks != []
    ensures starts == StartingAccounts(blake3, s, before + Applies(blocks))
    ensures |starts| == |StartingAccounts(blake3, s, before)| + |blocks|
    ensures Stranded(sha256, blake3, genesis, chain, RunBlocks(sha256, blake3, node, blocks), point)
       <==> LeavesNoTrace(starts, s.accounts)
  {
    StickRunFrom(sha256, blake3, chain, node, s, before, blocks);
    starts := StartingAccounts(blake3, s, before + Applies(blocks));
    var client := Client(point, Some(After(blake3, s, before + Applies(blocks))));
    BehindIff(blake3, genesis, chain, client, point, s, before + Applies(blocks));
    StrandedIfBehind(sha256, blake3, genesis, chain, node, client, point);
    assert RunBlocks(sha256, blake3, node, blocks) == node.(client := client);
  }
}
