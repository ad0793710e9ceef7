/** What happens after a replay that fails: the engine is already at the fork, the buffer still at
    the old tip. */
module ReorgRecovery {
  import opened Wrappers
  import opened Bytes
  import opened Chain
  import opened Ledger
  import opened Circular
  import opened Ffi
  import opened Reorg
  import opened Replays
  import opened EngineRuns
  import opened Recovery
  import opened ReorgBuffers
  import opened ReorgSync
  import opened ReorgRuns
  import Engine

  /** The engine has the fork's number, possibly with the accounts a failed transaction left, but can be rolled
      back to the fork cleanly. */
  ghost predicate Behind(blake3: Digest, genesis: Accounts, chain: seq<Block>, client: Client, point: U64) {
    && LockStep(client) && client.core.Some? && client.last == point
    && Gapless(client.core.value)
    && Recoverable(blake3, genesis, chain, client, point)
  }

  /** Besides, the buffer stands for the whole chain. */
  ghost predicate Stranded(
        sha256: Digest, blake3: Digest, genesis: Accounts, chain: seq<Block>, node: Node, point: U64) {
    && Linked(sha256, chain) && Numbered(chain) && Buffered(node.ring, chain)
    && 0 < point < |chain|
    && Behind(blake3, genesis, chain, node.client, point)
  }

  // ---- the engine

  /** The state can be rolled back, at its own number, to the end of the branch. */
  ghost predicate Restores(blake3: Digest, genesis: Accounts, branch: seq<Block>, s: Engine.State) {
    && Gapless(s) && s.number == |branch|
    && var back := Engine.Rollback(s, s.number);
      back.Some? && Agrees(blake3, genesis, branch, back.value) && Gapless(back.value)
  }

  lemma CleanStateRestores(blake3: Digest, genesis: Accounts, branch: seq<Block>, s: Engine.State)
    requires Agrees(blake3, genesis, branch, s) && Gapless(s) && Engine.Rollback(s, s.number).Some?
    ensures Restores(blake3, genesis, branch, s)
  {
    RollbackTakesPrefix(blake3, genesis, branch, s, s.number);
    RollbackStaysGapless(s, s.number);
    assert branch[..|branch|] == branch;
  }

  /** The clean snapshot survives one more failure. */
  lemma FailedApplyRestores(blake3: Digest, genesis: Accounts, branch: seq<Block>, s: Engine.State, b: Block)
    requires Agrees(blake3, genesis, branch, s) && Gapless(s)
    requires Engine.Rollback(s, s.number).Some? && Engine.Apply(blake3, s, b).1.Err?
    ensures Restores(blake3, genesis, branch, Engine.Apply(blake3, s, b).0)
  {
    var ops := [Op.Apply(b)];
    if Step(blake3, s, ops[0]).1 == Refused {
      CleanStateRestores(blake3, genesis, branch, s);
    } else {
      OneFailure(blake3, s, ops);
      FailureRecovery(blake3, genesis, branch, s, ops);
      StepStaysGapless(blake3, s, ops[0]);
      RollbackStaysGapless(Engine.Apply(blake3, s, b).0, s.number);
    }
  }

  lemma OneFailure(blake3: Digest, s: Engine.State, ops: seq<Op>)
    requires |ops| == 1 && Step(blake3, s, ops[0]).1 == HalfDone
    ensures Failing(blake3, s, ops) && StartingAccounts(blake3, s, ops) == [s.accounts]
    ensures After(blake3, s, ops) == Step(blake3, s, ops[0]).0
  {
    var next := Step(blake3, s, ops[0]).0;
    assert Failing(blake3, next, ops[1..]);
    assert StartingAccounts(blake3, next, ops[1..]) == [];
    AfterFirst(blake3, s, ops);
    assert After(blake3, next, ops[1..]) == next;
  }

  /** Rolling back keeps the target's snapshot, so the same rollback works again. */
  lemma RollbackIsRepeatable(s: Engine.State, target: U64)
    requires Engine.Rollback(s, target).Some?
    ensures Engine.Rollback(Engine.Rollback(s, target).value, target).Some?
  {
    var p := Engine.Position(s.history, target).value;
    var back := Engine.Rollback(s, target).value;
    assert back.history[p].number == target;
  }

  /** From the fork downwards a rollback finds what it would have found before the failures; above the fork it
      finds nothing. */
  lemma RollbackBelow(s: Engine.State, point: U64, target: U64)
    requires Gapless(s) && s.number == point
    requires Engine.Rollback(s, point).Some? && Engine.Rollback(s, target).Some?
    ensures target <= point
    ensures Engine.Rollback(s, target) == Engine.Rollback(Engine.Rollback(s, point).value, target)
  {
    var h := s.history;
    var p, i := Engine.Position(h, point).value, Engine.Position(h, target).value;
    Rises(h, i, |h| - 1);
    if i > p {
      Rises(h, p, i);
    }
    PositionInPrefix(h, target, p);
    assert h[..p + 1][..i + 1] == h[..i + 1];
  }

  lemma PositionInPrefix(h: seq<Engine.Snapshot>, target: U64, p: nat)
    requires p < |h| && Engine.Position(h, target).Some? && Engine.Position(h, target).value <= p
    ensures Engine.Position(h[..p + 1], target) == Engine.Position(h, target)
  {
    assert h[..p + 1][Engine.Position(h, target).value].number == target;
  }

  lemma BehindIsRecoverable(
        blake3: Digest, genesis: Accounts, chain: seq<Block>, client: Client, point: U64, target: U64)
    requires Behind(blake3, genesis, chain, client, point) && ClientRollback(client, target).Some?
    ensures target <= point && Recoverable(blake3, genesis, chain, client, target)
  {
    var s := client.core.value;
    RollbackBelow(s, point, target);
    RollbackTakesPrefix(blake3, genesis, chain[..point], Engine.Rollback(s, point).value, target);
    assert chain[..point][..target] == chain[..target];
    RollbackStaysGapless(s, target);
  }

  lemma FailedApplyStaysBehind(
        blake3: Digest, genesis: Accounts, chain: seq<Block>, client: Client, point: U64, b: Block)
    requires point <= |chain| && Follows(blake3, genesis, chain[..point], client)
    requires Engine.Rollback(client.core.value, point).Some? && ClientApply(blake3, client, b).1.Err?
    ensures Behind(blake3, genesis, chain, ClientApply(blake3, client, b).0, point)
  {
    ApplyReachesEngine(blake3, client, b);
    CleanStateRestores(blake3, genesis, chain[..point], client.core.value);
    if Engine.Apply(blake3, client.core.value, b).1.Err? {
      FailedApplyRestores(blake3, genesis, chain[..point], client.core.value, b);
    }
    RestoringIsBehind(blake3, genesis, chain, ClientApply(blake3, client, b).0, point);
  }

  lemma RestoringIsBehind(blake3: Digest, genesis: Accounts, chain: seq<Block>, client: Client, point: U64)
    requires point <= |chain| && client.core.Some? && client.last == point
    requires Restores(blake3, genesis, chain[..point], client.core.value)
    ensures Behind(blake3, genesis, chain, client, point)
  {
  }

  lemma FailedReplayIsBehind(blake3: Digest, genesis: Accounts, chain: seq<Block>, client: Client, point: U64, b: Block)
    requires client.core.Some? && Recoverable(blake3, genesis, chain, client, point)
    requires ReplayOnFork(blake3, client, point, b).1.Some?
    ensures Behind(blake3, genesis, chain, ReplayOnFork(blake3, client, point, b).0, point)
  {
    RollbackIsRepeatable(client.core.value, point);
    FailedApplyStaysBehind(blake3, genesis, chain, ClientRollback(client, point).value, point, b);
  }

  // ---- one block

  /** While buffer and engine stand for one chain, exactly the blocks that are in reach and cannot be replayed
      on their fork strand the node there. */
  lemma FailedReplayStrands(
        sha256: Digest, blake3: Digest, genesis: Accounts, m: Model, node: Node, b: Block, point: U64)
    requires Refines(sha256, blake3, genesis, m, node)
    requires Parent(sha256, m.chain, b) == Some(point) && point < |m.chain|
    ensures Valid(node.ring)
    ensures Stranded(sha256, blake3, genesis, m.chain, ProcessBlock(sha256, blake3, node, b).0, point)
       <==> Oldest(m.retained) <= point && !Extends(genesis, m.chain, b, point)
  {
    ForkAccepts(sha256, blake3, genesis, m, node, b, point);
    DetectFindsParent(sha256, node.ring, m.chain, b);
    InReach(blake3, genesis, m, node.client, point);
    if Oldest(m.retained) <= point {
      FollowerIsRecoverable(blake3, genesis, m.chain, node.client, point);
      if Extends(genesis, m.chain, b, point) {
        AcceptedForkMovesOn(sha256, blake3, node, b, point);
        ForkIsNumbered(m.chain, b, point);
      } else {
        FailedReplayIsBehind(blake3, genesis, m.chain, node.client, point, b);
      }
    }
  }

  lemma AcceptedForkMovesOn(sha256: Digest, blake3: Digest, node: Node, b: Block, point: U64)
    requires Valid(node.ring) && DetectReorg(sha256, node.ring, b) == Ok(Fork(point))
    requires ProcessBlock(sha256, blake3, node, b).1.None?
    ensures ProcessBlock(sha256, blake3, node, b).0.client.last == b.number
  {
    if ClientRollback(node.client, point).Some? {
      ApplyReachesEngine(blake3, ClientRollback(node.client, point).value, b);
    }
  }

  /** A block on top of the tip, but with the number after the engine's: the only ones on the tip that get past
      the number check while the engine is at a fork. */
  ghost predicate Mislabelled(sha256: Digest, chain: seq<Block>, client: Client, b: Block) {
    Parent(sha256, chain, b) == Some(|chain|) && b.number == client.last + 1
  }

  /** A stranded node refuses the old chain: what names a block above the fork as its parent, the tip included,
      or no buffered block at all, changes nothing. */
  lemma AboveTheForkIsRefused(
        sha256: Digest, blake3: Digest, genesis: Accounts, chain: seq<Block>, node: Node, point: U64, b: Block)
    requires Stranded(sha256, blake3, genesis, chain, node, point) && !Mislabelled(sha256, chain, node.client, b)
    requires var parent := Parent(sha256, chain, b); parent.None? || parent.value > point
    ensures Valid(node.ring)
    ensures ProcessBlock(sha256, blake3, node, b).1.Some? && ProcessBlock(sha256, blake3, node, b).0 == node
  {
    DetectFindsParent(sha256, node.ring, chain, b);
    if DetectReorg(sha256, node.ring, b) == Ok(OnTip) {
      OldTipIsNotNext(sha256, chain, node.client, b);
    } else if DetectReorg(sha256, node.ring, b).Ok? {
      var q := DetectReorg(sha256, node.ring, b).value.point;
      if ClientRollback(node.client, q).Some? {
        BehindIsRecoverable(blake3, genesis, chain, node.client, point, q);
      }
    }
    RefusalChangesNothing(sha256, blake3, node, b);
  }

  lemma OldTipIsNotNext(sha256: Digest, chain: seq<Block>, client: Client, b: Block)
    requires Numbered(chain) && client.last < |chain|
    requires Parent(sha256, chain, b) == Some(|chain|) && !Mislabelled(sha256, chain, client, b)
    ensures b.number != (client.last + 1) % U64_LIMIT
  {
    assert chain[client.last].number == client.last + 1;
    SmallModulo(client.last + 1, U64_LIMIT);
  }

  /** Exactly which blocks a stranded node accepts: those on top of a block up to the fork that is still in reach
      and that they extend. */
  lemma StrandedAcceptsIff(
        sha256: Digest, blake3: Digest, genesis: Accounts, chain: seq<Block>, node: Node, point: U64, b: Block)
    requires Stranded(sha256, blake3, genesis, chain, node, point) && !Mislabelled(sha256, chain, node.client, b)
    ensures Valid(node.ring)
    ensures ProcessBlock(sha256, blake3, node, b).1.None?
       <==> match Parent(sha256, chain, b)
            case None => false
            case Some(q) =>
              Oldest(Numbers(node.client.core.value.history)) <= q <= point && Extends(genesis, chain, b, q)
  {
    var parent := Parent(sha256, chain, b);
    DetectFindsParent(sha256, node.ring, chain, b);
    if parent.None? || parent.value > point {
      AboveTheForkIsRefused(sha256, blake3, genesis, chain, node, point, b);
    } else {
      var q := DetectReorg(sha256, node.ring, b).value.point;
      BehindReaches(blake3, genesis, chain, node.client, point, q);
      ForkResult(sha256, blake3, genesis, chain, node, b, q);
    }
  }

  lemma BehindReaches(blake3: Digest, genesis: Accounts, chain: seq<Block>, client: Client, point: U64, q: U64)
    requires Behind(blake3, genesis, chain, client, point) && q <= point
    ensures ClientRollback(client, q).Some? <==> Oldest(Numbers(client.core.value.history)) <= q
    ensures ClientRollback(client, q).Some? ==> Recoverable(blake3, genesis, chain, client, q)
  {
    RollbackSucceedsIff(client.core.value, q);
    RollbackSucceedsIff(client.core.value, point);
    if ClientRollback(client, q).Some? {
      BehindIsRecoverable(blake3, genesis, chain, client, point, q);
    }
  }

  /** One block at a stranded node. Refused, it leaves the node stranded, at the same fork or an older one.
      Accepted, it goes on a fork that is no newer, and heals the node exactly when the cut is right. */
  lemma StrandedStep(
        sha256: Digest, blake3: Digest, genesis: Accounts, chain: seq<Block>, node: Node, point: U64, b: Block)
      returns (q: U64)
    requires Stranded(sha256, blake3, genesis, chain, node, point) && !Mislabelled(sha256, chain, node.client, b)
    ensures Valid(node.ring) && q <= point
    ensures var (node', e) := ProcessBlock(sha256, blake3, node, b);
      && (e.Some? ==> Stranded(sha256, blake3, genesis, chain, node', q))
      && (e.None? ==> Parent(sha256, chain, b) == Some(q)
                      && Healed(sha256, blake3, genesis, chain, node.ring.index, node', q, b))
  {
    q := point;
    var parent := Parent(sha256, chain, b);
    DetectFindsParent(sha256, node.ring, chain, b);
    if parent.None? || parent.value > point {
      AboveTheForkIsRefused(sha256, blake3, genesis, chain, node, point, b);
    } else {
      BehindReaches(blake3, genesis, chain, node.client, point, DetectReorg(sha256, node.ring, b).value.point);
      q := StrandedForkStep(sha256, blake3, genesis, chain, node, point, b);
    }
  }

  /** The engine has the replay of the new chain, and the buffer its last blocks exactly when the cut is right. */
  ghost predicate Healed(
        sha256: Digest, blake3: Digest, genesis: Accounts, chain: seq<Block>, index: nat, node: Node, q: nat,
        b: Block) {
    && q <= |chain| && Linked(sha256, chain[..q] + [b])
    && Follows(blake3, genesis, chain[..q] + [b], node.client)
    && (Synced(sha256, blake3, genesis, chain[..q] + [b], node) <==> CutIsRight(index, |chain|, q))
  }

  lemma StrandedForkStep(
        sha256: Digest, blake3: Digest, genesis: Accounts, chain: seq<Block>, node: Node, point: U64, b: Block)
      returns (q: U64)
    requires Stranded(sha256, blake3, genesis, chain, node, point) && Valid(node.ring)
    requires DetectReorg(sha256, node.ring, b).Ok? && DetectReorg(sha256, node.ring, b).value.Fork?
    requires var q := DetectReorg(sha256, node.ring, b).value.point;
      0 < q <= point && (ClientRollback(node.client, q).Some? ==> Recoverable(blake3, genesis, chain, node.client, q))
    ensures q <= point
    ensures var (node', e) := ProcessBlock(sha256, blake3, node, b);
      && (e.Some? ==> Stranded(sha256, blake3, genesis, chain, node', q))
      && (e.None? ==> q == DetectReorg(sha256, node.ring, b).value.point
                      && Healed(sha256, blake3, genesis, chain, node.ring.index, node', q, b))
  {
    q := DetectReorg(sha256, node.ring, b).value.point;
    ForkResult(sha256, blake3, genesis, chain, node, b, q);
    if ClientRollback(node.client, q).None? {
      q := point;
    } else if ProcessBlock(sha256, blake3, node, b).1.Some? {
      FailedReplayIsBehind(blake3, genesis, chain, node.client, q, b);
    } else {
      ForkIsNumbered(chain, b, q);
      ReorgStep(sha256, blake3, genesis, chain, node, b, q);
    }
  }

  // ---- runs

  /** Every block of the run is refused, and none is mislabelled when it arrives. */
  ghost predicate AllRefused(sha256: Digest, blake3: Digest, chain: seq<Block>, node: Node, blocks: seq<Block>)
    requires Valid(node.ring)
    decreases |blocks|
  {
    if blocks == [] then true
    else
      ProcessKeepsBufferValid(sha256, blake3, node, blocks[0]);
      var (next, e) := ProcessBlock(sha256, blake3, node, blocks[0]);
      && e.Some? && !Mislabelled(sha256, chain, node.client, blocks[0])
      && AllRefused(sha256, blake3, chain, next, blocks[1..])
  }

  /** However many blocks are refused, the node stays stranded, at the same fork or an older one. */
  lemma {:induction false} StrandedRun(
        sha256: Digest, blake3: Digest, genesis: Accounts, chain: seq<Block>, node: Node, point: U64,
        blocks: seq<Block>)
      returns (q: U64)
    requires Stranded(sha256, blake3, genesis, chain, node, point)
    requires AllRefused(sha256, blake3, chain, node, blocks)
    ensures q <= point && Stranded(sha256, blake3, genesis, chain, RunBlocks(sha256, blake3, node, blocks), q)
    decreases |blocks|
  {
    q := point;
    if blocks != [] {
      ProcessKeepsBufferValid(sha256, blake3, node, blocks[0]);
      q := StrandedStep(sha256, blake3, genesis, chain, node, point, blocks[0]);
      q := StrandedRun(sha256, blake3, genesis, chain, ProcessBlock(sha256, blake3, node, blocks[0]).0, q, blocks[1..]);
    }
  }

  /** The first block that is accepted after any number of refusals goes on the fork or below it, and whatever
      failed in between leaves no trace: the engine has the replay of the new chain. */
  lemma FirstReplayHeals(
        sha256: Digest, blake3: Digest, genesis: Accounts, chain: seq<Block>, node: Node, point: U64,
        blocks: seq<Block>, b: Block)
      returns (q: U64)
    requires Stranded(sha256, blake3, genesis, chain, node, point)
    requires AllRefused(sha256, blake3, chain, node, blocks)
    requires !Mislabelled(sha256, chain, RunBlocks(sha256, blake3, node, blocks).client, b)
    ensures var end := RunBlocks(sha256, blake3, node, blocks);
      && Valid(end.ring)
      && var (healed, e) := ProcessBlock(sha256, blake3, end, b);
      (e.None? ==>
        && q <= point && Parent(sha256, chain, b) == Some(q)
        && Healed(sha256, blake3, genesis, chain, end.ring.index, healed, q, b))
  {
    q := StrandedRun(sha256, blake3, genesis, chain, node, point, blocks);
    q := StrandedStep(sha256, blake3, genesis, chain, RunBlocks(sha256, blake3, node, blocks), q, b);
  }

  /** One bad fork block halts the old chain for good: blocks that build on it above the fork, or on nothing that
      is buffered, are all refused, and the node does not change. */
  lemma {:induction false} OldChainHalts(
        sha256: Digest, blake3: Digest, genesis: Accounts, chain: seq<Block>, node: Node, point: U64,
        blocks: seq<Block>)
    requires Stranded(sha256, blake3, genesis, chain, node, point)
    requires forall i :: 0 <= i < |blocks| ==> !Mislabelled(sha256, chain, node.client, blocks[i])
    requires forall i :: 0 <= i < |blocks| ==>
      Parent(sha256, chain, blocks[i]).None? || Parent(sha256, chain, blocks[i]).value > point
    ensures AllRefused(sha256, blake3, chain, node, blocks) && RunBlocks(sha256, blake3, node, blocks) == node
    decreases |blocks|
  {
    if blocks != [] {
      AboveTheForkIsRefused(sha256, blake3, genesis, chain, node, point, blocks[0]);
      OldChainHalts(sha256, blake3, genesis, chain, node, point, blocks[1..]);
    }
  }
}
