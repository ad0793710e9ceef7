/** Runs from a fresh start: any number of plain blocks, then a fork at any buffered block. */
module ReorgExample {
  import opened Wrappers
  import opened Bytes
  import opened Chain
  import opened Ledger
  import opened Circular
  import opened RingBuffers
  import opened Codec
  import opened Ffi
  import opened Reorg
  import opened Replays
  import opened EngineRuns
  import opened ReorgBuffers
  import opened ReorgSync
  import opened ReorgRuns
  import Engine

  /** The chain with m more blocks on it, none with transactions. */
  function Grow(sha256: Digest, chain: seq<Block>, m: nat): (longer: seq<Block>)
    requires |chain| + m < U64_LIMIT
    ensures |longer| == |chain| + m && chain <= longer
    ensures Numbered(chain) ==> Numbered(longer)
    ensures Linked(sha256, chain) ==> Linked(sha256, longer)
  {
    if m == 0 then chain
    else
      var below := Grow(sha256, chain, m - 1);
      below + [PlainBlock(sha256, below)]
  }

  /** The next block without transactions. */
  function PlainBlock(sha256: Digest, chain: seq<Block>): Block
    requires |chain| + 1 < U64_LIMIT
  {
    var parent := if chain == [] then Zeros(32) else BlockHash(sha256, chain[|chain| - 1]);
    Block(|chain| + 1, parent, |chain| + 1, [])
  }

  /** n linked blocks without transactions. */
  function Plain(sha256: Digest, n: nat): (chain: seq<Block>)
    requires n < U64_LIMIT
    ensures |chain| == n && Numbered(chain) && Linked(sha256, chain)
  {
    Grow(sha256, [], n)
  }

  lemma {:induction false} PlainFields(sha256: Digest, n: nat, i: nat)
    requires i < n < U64_LIMIT
    ensures Plain(sha256, n)[i].timestamp == i + 1 && Plain(sha256, n)[i].transactions == []
    decreases n
  {
    if i < n - 1 {
      PlainFields(sha256, n - 1, i);
    }
  }

  /** A digest that shows the number and the timestamp of a header. */
  function Stamp(data: seq<Byte>): Hash {
    if |data| == 48 then data[..8] + data[40..] + Zeros(16) else Zeros(32)
  }

  lemma StampSeparates(a: Block, b: Block)
    requires a.number != b.number || a.timestamp != b.timestamp
    ensures BlockHash(Stamp, a) != BlockHash(Stamp, b)
  {
    StampShows(a);
    StampShows(b);
    U64Limit();
    if BlockHash(Stamp, a) == BlockHash(Stamp, b) {
      BigEndianInjective(a.number, b.number, 8);
      BigEndianInjective(a.timestamp, b.timestamp, 8);
    }
  }

  lemma StampShows(b: Block)
    ensures BlockHash(Stamp, b)[..8] == BigEndian(b.number, 8)
    ensures BlockHash(Stamp, b)[8..16] == BigEndian(b.timestamp, 8)
  {
    assert Header(b)[..8] == BigEndian(b.number, 8) && Header(b)[40..] == BigEndian(b.timestamp, 8);
  }

  lemma StampNeverCollides(chain: seq<Block>)
    requires Numbered(chain)
    ensures NoCollision(Stamp, chain)
  {
    forall i, j | 0 <= i < j < |chain|
      ensures BlockHash(Stamp, chain[i]) != BlockHash(Stamp, chain[j])
    {
      StampSeparates(chain[i], chain[j]);
    }
  }

  function Begin(): Node {
    StartNode(map[])
  }

  lemma PlainBlockApplies(blake3: Digest, client: Client, b: Block)
    requires LockStep(client) && client.core.Some?
    requires b.transactions == [] && b.number == client.last + 1
    ensures ClientApply(blake3, client, b).1.Ok?
    ensures var s' := ClientApply(blake3, client, b).0.core.value;
      s'.number == b.number && s'.history == Engine.Saved(client.core.value)
  {
    PlainBlockPasses(b);
    PlainBlockIsApplied(blake3, client.core.value, b);
    ApplyReachesEngine(blake3, client, b);
  }

  lemma PlainBlockIsApplied(blake3: Digest, s: Engine.State, b: Block)
    requires b.transactions == [] && b.number == s.number + 1
    ensures var (s', r) := Engine.Apply(blake3, s, b);
      r.Ok? && s'.number == b.number && s'.history == Engine.Saved(s)
  {
    assert ApplyTransactions(s.accounts, []).error.None?;
  }

  lemma PlainBlockPasses(b: Block)
    requires b.transactions == []
    ensures Passes(b)
  {
    assert EncodeTransactions(b.transactions) == [];
  }

  /** The buffer has been filled from slot 0 on and nothing was rolled back. */
  ghost predicate Undisturbed(sha256: Digest, blake3: Digest, chain: seq<Block>, node: Node) {
    && Synced(sha256, blake3, map[], chain, node)
    && node.ring.index == |chain| % MAX_REORG_DEPTH && Straight(node.client.core.value)
  }

  lemma PlainStep(sha256: Digest, blake3: Digest, chain: seq<Block>, node: Node, b: Block)
    requires Synced(sha256, blake3, map[], chain, node) && Straight(node.client.core.value)
    requires b.transactions == [] && b.number == |chain| + 1
    requires chain == [] || HashedAt(sha256, chain, |chain| - 1, b.parentHash)
    ensures DetectReorg(sha256, node.ring, b) == Ok(OnTip)
    ensures var (node', e) := ProcessBlock(sha256, blake3, node, b);
      && e.None? && Synced(sha256, blake3, map[], chain + [b], node') && Straight(node'.client.core.value)
      && node'.ring == Push(node.ring, Some(b))
  {
    DetectMeaning(sha256, node.ring, chain, b);
    PlainBlockApplies(blake3, node.client, b);
    TipUnfolds(sha256, blake3, node, b);
    TipStep(sha256, blake3, map[], chain, node, b);
    SaveStaysStraight(node.client.core.value, ClientApply(blake3, node.client, b).0.core.value);
  }

  lemma UndisturbedStep(sha256: Digest, blake3: Digest, chain: seq<Block>, node: Node, b: Block)
    requires Undisturbed(sha256, blake3, chain, node) && |chain| + 1 < U64_LIMIT && b == PlainBlock(sha256, chain)
    ensures Undisturbed(sha256, blake3, chain + [b], ProcessBlock(sha256, blake3, node, b).0)
  {
    PlainStep(sha256, blake3, chain, node, b);
    PushAligned(node.ring, |chain|, b);
  }

  lemma PushAligned(ring: Recent, length: nat, b: Block)
    requires Valid(ring) && |ring.slots| == MAX_REORG_DEPTH && ring.index == length % MAX_REORG_DEPTH
    ensures Push(ring, Some(b)).index == (length + 1) % MAX_REORG_DEPTH
  {
    NextModulo(length);
  }

  lemma {:induction false} PlainRun(sha256: Digest, blake3: Digest, n: nat)
    requires n < U64_LIMIT
    ensures Undisturbed(sha256, blake3, Plain(sha256, n), RunBlocks(sha256, blake3, Begin(), Plain(sha256, n)))
    decreases n
  {
    if n == 0 {
      StartIsSynced(sha256, blake3, map[]);
    } else {
      PlainRun(sha256, blake3, n - 1);
      var below := Plain(sha256, n - 1);
      var b := PlainBlock(sha256, below);
      RunOneMore(sha256, blake3, Begin(), below, b);
      UndisturbedStep(sha256, blake3, below, RunBlocks(sha256, blake3, Begin(), below), b);
    }
  }

  lemma StraightRestores(s: Engine.State, point: U64)
    requires Straight(s) && s.number - |s.history| <= point < s.number
    ensures Engine.Rollback(s, point).Some?
  {
    assert s.history[point - (s.number - |s.history|)].number == point;
  }

  lemma ReplayedIsAccepted(sha256: Digest, blake3: Digest, node: Node, b: Block, point: U64)
    requires Valid(node.ring) && DetectReorg(sha256, node.ring, b) == Ok(Fork(point))
    requires LockStep(node.client) && ClientRollback(node.client, point).Some?
    requires b.transactions == [] && b.number == point + 1
    ensures ProcessBlock(sha256, blake3, node, b).1.None?
  {
    PlainBlockApplies(blake3, ClientRollback(node.client, point).value, b);
  }

  lemma ForkGoesThrough(sha256: Digest, blake3: Digest, chain: seq<Block>, node: Node, b: Block, point: U64)
    requires Synced(sha256, blake3, map[], chain, node) && Straight(node.client.core.value)
    requires Valid(node.ring) && DetectReorg(sha256, node.ring, b) == Ok(Fork(point))
    requires |chain| - Held(chain) < point < |chain| && b.number == point + 1 && b.transactions == []
    ensures ProcessBlock(sha256, blake3, node, b).1.None?
  {
    StraightRestores(node.client.core.value, point);
    ReplayedIsAccepted(sha256, blake3, node, b, point);
  }

  /** A plain block on top of a buffered block other than the tip. */
  lemma ForkOnPlain(sha256: Digest, blake3: Digest, chain: seq<Block>, node: Node, b: Block, point: U64)
    requires Synced(sha256, blake3, map[], chain, node) && Straight(node.client.core.value)
    requires NoCollision(sha256, chain) && |chain| - Held(chain) < point < |chain|
    requires b.number == point + 1 && b.parentHash == BlockHash(sha256, chain[point - 1]) && b.transactions == []
    ensures Valid(node.ring)
    ensures var (node', e) := ProcessBlock(sha256, blake3, node, b);
      && e.None?
      && (Synced(sha256, blake3, map[], chain[..point] + [b], node') <==> CutIsRight(node.ring.index, |chain|, point))
      && Follows(blake3, map[], chain[..point] + [b], node'.client) && node'.ring == CutAndAdd(node.ring, point, b)
  {
    ForkDetection(sha256, node.ring, chain, b, point);
    ForkGoesThrough(sha256, blake3, chain, node, b, point);
    FollowerIsRecoverable(blake3, map[], chain, node.client, point);
    ReorgStep(sha256, blake3, map[], chain, node, b, point);
    ReorgUnfolds(sha256, blake3, node, b, point);
  }

  /** n plain blocks from a fresh start, then a plain block on top of any buffered block but the tip, with a
      digest that does not collide on them: every call succeeds, and buffer and engine then stand for the
      new chain exactly when the cut is right: with n up to 10, or one block deep with n just past a multiple
      of 10. */
  lemma ForkAfterPlainRun(sha256: Digest, blake3: Digest, n: nat, point: nat, timestamp: U64)
    requires n < U64_LIMIT && NoCollision(sha256, Plain(sha256, n))
    requires n - Held(Plain(sha256, n)) < point < n
    ensures var chain := Plain(sha256, n);
      var node := RunBlocks(sha256, blake3, Begin(), chain);
      var b := Block(point + 1, BlockHash(sha256, chain[point - 1]), timestamp, []);
      && Valid(node.ring) && Synced(sha256, blake3, map[], chain, node)
      && ProcessBlock(sha256, blake3, node, b).1.None?
      && (Synced(sha256, blake3, map[], chain[..point] + [b], ProcessBlock(sha256, blake3, node, b).0)
          <==> CutIsRight(n % MAX_REORG_DEPTH, n, point))
  {
    PlainRun(sha256, blake3, n);
    var chain := Plain(sha256, n);
    ForkOnPlain(sha256, blake3, chain, RunBlocks(sha256, blake3, Begin(), chain),
                Block(point + 1, BlockHash(sha256, chain[point - 1]), timestamp, []), point);
  }

  /** Three blocks and a fork at block 1 end in sync; eleven blocks and a fork at block 5 do not. */
  lemma ForkAtOneOfThreeAndFiveOfEleven(sha256: Digest, blake3: Digest)
    requires NoCollision(sha256, Plain(sha256, 3)) && NoCollision(sha256, Plain(sha256, 11))
    ensures var (chain, node) := (Plain(sha256, 3), RunBlocks(sha256, blake3, Begin(), Plain(sha256, 3)));
      var b := Block(2, BlockHash(sha256, chain[0]), 12, []);
      && Valid(node.ring) && Synced(sha256, blake3, map[], chain[..1] + [b], ProcessBlock(sha256, blake3, node, b).0)
    ensures var (chain, node) := (Plain(sha256, 11), RunBlocks(sha256, blake3, Begin(), Plain(sha256, 11)));
      var b := Block(6, BlockHash(sha256, chain[4]), 0, []);
      && Valid(node.ring) && ProcessBlock(sha256, blake3, node, b).1.None?
      && !Synced(sha256, blake3, map[], chain[..5] + [b], ProcessBlock(sha256, blake3, node, b).0)
  {
    ForkAfterPlainRun(sha256, blake3, 3, 1, 12);
    ForkAfterPlainRun(sha256, blake3, 11, 5, 0);
  }
}
