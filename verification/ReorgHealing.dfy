/** What holds whatever the buffer holds: the engine replays a list of accepted blocks over every run, and
    nine blocks on the tip make a wrong buffer right again. */
module ReorgHealing {
  import opened Wrappers
  import opened Bytes
  import opened Chain
  import opened Ledger
  import opened Circular
  import opened RingBuffers
  import opened Ffi
  import opened Reorg
  import opened Replays
  import opened ReorgBuffers
  import opened ReorgSync
  import opened ReorgRuns
  import Engine

  // ---- the engine, whatever the buffer holds

  /** What a block is applied to under a verdict: the chain, its first `point` blocks, or nothing. */
  ghost function Base(m: Model, verdict: Result<Verdict, ReorgError>): Option<Model> {
    match verdict
    case Err(_) => None
    case Ok(OnTip) => Some(m)
    case Ok(Fork(point)) =>
      if point in m.retained && point <= |m.chain| then
        Some(m.(chain := m.chain[..point], retained := UpTo(m.retained, point)))
      else None
  }

  ghost function EngineNext(genesis: Accounts, m: Model, verdict: Result<Verdict, ReorgError>, b: Block): Model {
    match Base(m, verdict)
    case None => m
    case Some(base) => NextOnTip(genesis, base, b)
  }

  /** The block does not get stuck after a first debit on what it is applied to, and does not wrap the number. */
  ghost predicate EngineGood(genesis: Accounts, m: Model, verdict: Result<Verdict, ReorgError>, b: Block) {
    match Base(m, verdict)
    case None => true
    case Some(base) => GoodTip(genesis, base.chain, b)
  }

  lemma RetainedIsRestorable(blake3: Digest, genesis: Accounts, m: Model, client: Client, point: U64)
    requires Tracks(blake3, genesis, m, client)
    ensures ClientRollback(client, point).Some? <==> point in m.retained && point <= |m.chain|
  {
    var h := client.core.value.history;
    if point in m.retained {
      var i :| 0 <= i < |h| && m.retained[i] == point;
      assert h[i].number == point;
    }
    if ClientRollback(client, point).Some? {
      assert m.retained[Engine.Position(h, point).value] == point;
      RollbackTakesPrefix(blake3, genesis, m.chain, client.core.value, point);
    }
  }

  lemma RestoredTracks(blake3: Digest, genesis: Accounts, m: Model, client: Client, point: U64)
    requires Tracks(blake3, genesis, m, client) && ClientRollback(client, point).Some? && point <= |m.chain|
    ensures var base := m.(chain := m.chain[..point], retained := UpTo(m.retained, point));
      Tracks(blake3, genesis, base, ClientRollback(client, point).value)
  {
    FollowerIsRecoverable(blake3, genesis, m.chain, client, point);
    ClientRestoresNumbers(client, point);
  }

  lemma ClientRestoresNumbers(client: Client, point: U64)
    requires ClientRollback(client, point).Some?
    ensures Numbers(ClientRollback(client, point).value.core.value.history)
         == UpTo(Numbers(client.core.value.history), point)
  {
    RestoredNumbers(client.core.value.history, point);
  }

  lemma ForkUnfolds(sha256: Digest, blake3: Digest, node: Node, b: Block, point: U64)
    requires Valid(node.ring) && DetectReorg(sha256, node.ring, b) == Ok(Fork(point))
    ensures ProcessBlock(sha256, blake3, node, b).0.client
         == match ClientRollback(node.client, point)
            case None => node.client
            case Some(back) => ClientApply(blake3, back, b).0
  {
  }

  /** One block, whatever the buffer holds: the engine goes on to the replay of the next list of blocks exactly
      when the block is a good one. */
  lemma EngineStepIff(sha256: Digest, blake3: Digest, genesis: Accounts, m: Model, node: Node, b: Block)
    requires Tracks(blake3, genesis, m, node.client) && Valid(node.ring)
    ensures var verdict := DetectReorg(sha256, node.ring, b);
      Tracks(blake3, genesis, EngineNext(genesis, m, verdict, b), ProcessBlock(sha256, blake3, node, b).0.client)
      <==> EngineGood(genesis, m, verdict, b)
  {
    match DetectReorg(sha256, node.ring, b)
    case Err(_) =>
    case Ok(OnTip) =>
      TipUnfolds(sha256, blake3, node, b);
      ClientTracksIff(blake3, genesis, m, node.client, b);
    case Ok(Fork(point)) =>
      ForkUnfolds(sha256, blake3, node, b, point);
      RetainedIsRestorable(blake3, genesis, m, node.client, point);
      if ClientRollback(node.client, point).Some? {
        RestoredTracks(blake3, genesis, m, node.client, point);
        var base := m.(chain := m.chain[..point], retained := UpTo(m.retained, point));
        ClientTracksIff(blake3, genesis, base, ClientRollback(node.client, point).value, b);
      }
  }

  /** After every block of the run the engine has the replay of the specification's list. */
  ghost predicate AlwaysTracks(
        sha256: Digest, blake3: Digest, genesis: Accounts, m: Model, node: Node, blocks: seq<Block>)
    requires Valid(node.ring)
    decreases |blocks|
  {
    && Tracks(blake3, genesis, m, node.client)
    && if blocks == [] then true
       else
         ProcessKeepsBufferValid(sha256, blake3, node, blocks[0]);
         var m' := EngineNext(genesis, m, DetectReorg(sha256, node.ring, blocks[0]), blocks[0]);
         AlwaysTracks(sha256, blake3, genesis, m', ProcessBlock(sha256, blake3, node, blocks[0]).0, blocks[1..])
  }

  ghost predicate EngineGoodRun(
        sha256: Digest, blake3: Digest, genesis: Accounts, m: Model, node: Node, blocks: seq<Block>)
    requires Valid(node.ring)
    decreases |blocks|
  {
    if blocks == [] then true
    else
      ProcessKeepsBufferValid(sha256, blake3, node, blocks[0]);
      var verdict := DetectReorg(sha256, node.ring, blocks[0]);
      && EngineGood(genesis, m, verdict, blocks[0])
      && EngineGoodRun(sha256, blake3, genesis, EngineNext(genesis, m, verdict, blocks[0]),
                       ProcessBlock(sha256, blake3, node, blocks[0]).0, blocks[1..])
  }

  lemma {:induction false} EngineRunIff(
        sha256: Digest, blake3: Digest, genesis: Accounts, m: Model, node: Node, blocks: seq<Block>)
    requires Tracks(blake3, genesis, m, node.client) && Valid(node.ring)
    ensures AlwaysTracks(sha256, blake3, genesis, m, node, blocks)
       <==> EngineGoodRun(sha256, blake3, genesis, m, node, blocks)
    decreases |blocks|
  {
    if blocks != [] {
      var verdict := DetectReorg(sha256, node.ring, blocks[0]);
      EngineStepIff(sha256, blake3, genesis, m, node, blocks[0]);
      ProcessKeepsBufferValid(sha256, blake3, node, blocks[0]);
      if EngineGood(genesis, m, verdict, blocks[0]) {
        EngineRunIff(sha256, blake3, genesis, EngineNext(genesis, m, verdict, blocks[0]),
                     ProcessBlock(sha256, blake3, node, blocks[0]).0, blocks[1..]);
      }
    }
  }

  /** From a fresh start, whatever blocks arrive and whatever becomes of the buffer: the engine has the replay of
      a list of accepted blocks throughout the run exactly when no block gets stuck after a first debit on what
      it is applied to, or wraps the number. */
  lemma EngineEndToEnd(sha256: Digest, blake3: Digest, genesis: Accounts, blocks: seq<Block>)
    ensures AlwaysTracks(sha256, blake3, genesis, StartModel(), StartNode(genesis), blocks)
       <==> EngineGoodRun(sha256, blake3, genesis, StartModel(), StartNode(genesis), blocks)
  {
    StartRefines(sha256, blake3, genesis);
    EngineRunIff(sha256, blake3, genesis, StartModel(), StartNode(genesis), blocks);
  }

  /** In particular an accepted block goes on top of a prefix of the list. */
  lemma AcceptedIsReplayed(
        sha256: Digest, blake3: Digest, genesis: Accounts, chain: seq<Block>, node: Node, b: Block) returns (q: nat)
    requires Follows(blake3, genesis, chain, node.client) && Valid(node.ring)
    requires ProcessBlock(sha256, blake3, node, b).1.None? && b.number != 0
    ensures q <= |chain| && Follows(blake3, genesis, chain[..q] + [b], ProcessBlock(sha256, blake3, node, b).0.client)
  {
    if DetectReorg(sha256, node.ring, b) == Ok(OnTip) {
      q := |chain|;
      TipUnfolds(sha256, blake3, node, b);
      ClientExtends(blake3, genesis, chain, node.client, b);
      assert chain[..q] == chain;
    } else {
      var point := DetectReorg(sha256, node.ring, b).value.point;
      FollowerIsRecoverable(blake3, genesis, chain, node.client, point);
      q := point;
      ReorgUnfolds(sha256, blake3, node, b, point);
      ClientExtends(blake3, genesis, chain[..q], ClientRollback(node.client, point).value, b);
    }
  }

  // ---- the buffer

  /** The newest block in the buffer is the chain's last. */
  ghost predicate NewestIsLast(ring: Recent, chain: seq<Block>) {
    && Valid(ring) && |ring.slots| == MAX_REORG_DEPTH && chain != []
    && Latest(ring) == Some(chain[|chain| - 1])
  }

  lemma BufferedEndsRight(ring: Recent, chain: seq<Block>)
    requires Buffered(ring, chain) && chain != []
    ensures NewestIsLast(ring, chain)
  {
    BufferSize(ring, chain);
    BufferedAt(ring, chain, ring.size - 1);
  }

  lemma PushEndsRight(ring: Recent, chain: seq<Block>, b: Block)
    requires Valid(ring) && |ring.slots| == MAX_REORG_DEPTH
    ensures NewestIsLast(Push(ring, Some(b)), chain + [b])
  {
    PushAppends(ring, Some(b));
    var ring' := Push(ring, Some(b));
    assert Latest(ring') == Contents(ring')[ring'.size - 1];
  }

  /** Nine more blocks are enough, whatever the buffer held below its newest one. */
  lemma NinePushesRestore(ring: Recent, chain: seq<Block>, blocks: seq<Block>)
    requires NewestIsLast(ring, chain) && |blocks| >= MAX_REORG_DEPTH - 1
    ensures Buffered(PushAll(ring, Somes(blocks)), chain + blocks)
  {
    var last, rest, below := chain[|chain| - 1], Contents(ring)[..ring.size - 1], Somes(chain[..|chain| - 1]);
    PushAllIsLastN(ring, Somes(blocks));
    SomesAppend(chain, blocks);
    assert Latest(ring) == Contents(ring)[ring.size - 1];
    assert Contents(ring) == rest + [Some(last)] && Somes(chain) == below + [Some(last)];
    TailOfTen(rest, below, Some(last), Somes(blocks));
  }

  lemma TailOfTen<T>(s: seq<T>, t: seq<T>, x: T, tail: seq<T>)
    requires |tail| >= MAX_REORG_DEPTH - 1
    ensures LastN(s + [x] + tail, MAX_REORG_DEPTH) == LastN(t + [x] + tail, MAX_REORG_DEPTH)
  {
    assert s + [x] + tail == s + ([x] + tail) && t + [x] + tail == t + ([x] + tail);
    LastNOfLong(s, t, [x] + tail, MAX_REORG_DEPTH);
  }

  lemma PushesKeepBuffered(ring: Recent, chain: seq<Block>, blocks: seq<Block>)
    requires Buffered(ring, chain)
    ensures Buffered(PushAll(ring, Somes(blocks)), chain + blocks)
  {
    PushAllIsLastN(ring, Somes(blocks));
    SomesAppend(chain, blocks);
    LastNTwice(Somes(chain), Somes(blocks), MAX_REORG_DEPTH);
  }

  lemma LastNTwice<T>(s: seq<T>, tail: seq<T>, n: nat)
    ensures LastN(LastN(s, n) + tail, n) == LastN(s + tail, n)
  {
  }

  // ---- a run of blocks on the tip

  /** The blocks continue the chain: linked, numbered, passing the boundary, and with a replay. */
  ghost predicate Continues(sha256: Digest, genesis: Accounts, chain: seq<Block>, blocks: seq<Block>) {
    && Linked(sha256, chain + blocks) && Numbered(chain + blocks)
    && (forall i :: 0 <= i < |blocks| ==> Passes(blocks[i]))
    && Replay(genesis, chain + blocks).Some?
  }

  lemma ContinuesLess(sha256: Digest, genesis: Accounts, chain: seq<Block>, front: seq<Block>, b: Block)
    requires Continues(sha256, genesis, chain, front + [b])
    ensures Continues(sha256, genesis, chain, front) && Passes(b)
    ensures Replay(genesis, chain + front + [b]).Some? && b.number == |chain + front| + 1
    ensures chain != [] ==> b.parentHash == BlockHash(sha256, (chain + front)[|chain + front| - 1])
  {
    var longer := chain + (front + [b]);
    AppendOne(chain, front, b);
    ReplayAppend(genesis, chain + front, b);
    LinkedLess(sha256, chain + front, b);
    assert (front + [b])[|front|] == b;
    forall i | 0 <= i < |front|
      ensures Passes(front[i])
    {
      assert (front + [b])[i] == front[i];
    }
  }

  lemma AppendOne<T>(s: seq<T>, t: seq<T>, x: T)
    ensures s + (t + [x]) == s + t + [x]
  {
  }

  lemma LinkedLess(sha256: Digest, chain: seq<Block>, b: Block)
    requires Linked(sha256, chain + [b]) && Numbered(chain + [b])
    ensures Linked(sha256, chain) && Numbered(chain) && b.number == |chain| + 1
    ensures chain != [] ==> b.parentHash == BlockHash(sha256, chain[|chain| - 1])
  {
    var longer := chain + [b];
    assert longer[|chain|] == b && (chain != [] ==> longer[|chain| - 1] == chain[|chain| - 1]);
    forall j | 0 <= j < |chain|
      ensures chain[j].number == j + 1 && (j > 0 ==> chain[j].parentHash == BlockHash(sha256, chain[j - 1]))
    {
      assert longer[j] == chain[j] && (j > 0 ==> longer[j - 1] == chain[j - 1]);
    }
  }

  lemma ContinuationIsAccepted(
        sha256: Digest, blake3: Digest, genesis: Accounts, chain: seq<Block>, node: Node, b: Block)
    requires NewestIsLast(node.ring, chain) && Follows(blake3, genesis, chain, node.client)
    requires b.parentHash == BlockHash(sha256, chain[|chain| - 1]) && b.number == |chain| + 1
    requires Passes(b) && Replay(genesis, chain + [b]).Some?
    ensures var (node', e) := ProcessBlock(sha256, blake3, node, b);
      && e.None? && node'.ring == Push(node.ring, Some(b)) && Follows(blake3, genesis, chain + [b], node'.client)
      && Engine.Rollback(node'.client.core.value, |chain|).Some?
  {
    AgreesAtEnd(blake3, genesis, chain, node.client.core.value);
    ClientOnBranch(blake3, genesis, chain, node.client, b);
    SmallModulo(|chain| + 1, U64_LIMIT);
    assert DetectReorg(sha256, node.ring, b) == Ok(OnTip);
    TipUnfolds(sha256, blake3, node, b);
    ClientExtends(blake3, genesis, chain, node.client, b);
    LastSavedRestores(node.client.core.value, ProcessBlock(sha256, blake3, node, b).0.client.core.value);
  }

  lemma LastSavedRestores(before: Engine.State, s: Engine.State)
    requires s.history == Engine.Saved(before)
    ensures Engine.Rollback(s, before.number).Some?
  {
    assert s.history[|s.history| - 1].number == before.number;
  }

  /** Every block of the run is accepted. */
  ghost predicate AllAccepted(sha256: Digest, blake3: Digest, node: Node, blocks: seq<Block>)
    requires Valid(node.ring)
    decreases |blocks|
  {
    if blocks == [] then true
    else
      ProcessKeepsBufferValid(sha256, blake3, node, blocks[0]);
      var (next, e) := ProcessBlock(sha256, blake3, node, blocks[0]);
      e.None? && AllAccepted(sha256, blake3, next, blocks[1..])
  }

  lemma {:induction false} AcceptedOneMore(sha256: Digest, blake3: Digest, node: Node, blocks: seq<Block>, b: Block)
    requires Valid(node.ring) && AllAccepted(sha256, blake3, node, blocks)
    requires Valid(RunBlocks(sha256, blake3, node, blocks).ring)
    requires ProcessBlock(sha256, blake3, RunBlocks(sha256, blake3, node, blocks), b).1.None?
    ensures AllAccepted(sha256, blake3, node, blocks + [b])
    decreases |blocks|
  {
    if blocks == [] {
      AcceptedSingle(sha256, blake3, node, b);
      assert blocks + [b] == [b];
    } else {
      var next := ProcessBlock(sha256, blake3, node, blocks[0]).0;
      RunFirst(sha256, blake3, node, blocks);
      AcceptedOneMore(sha256, blake3, next, blocks[1..], b);
      TailOfMore(blocks, b);
    }
  }

  lemma AcceptedSingle(sha256: Digest, blake3: Digest, node: Node, b: Block)
    requires Valid(node.ring) && ProcessBlock(sha256, blake3, node, b).1.None?
    ensures AllAccepted(sha256, blake3, node, [b])
  {
    ProcessKeepsBufferValid(sha256, blake3, node, b);
    var one := ProcessBlock(sha256, blake3, node, b).0;
    assert AllAccepted(sha256, blake3, one, []);
  }

  /** The engine has the replay of the longer chain and can undo its last block, and the buffer has taken the
      blocks. */
  ghost predicate HasTaken(
        blake3: Digest, genesis: Accounts, chain: seq<Block>, ring: Recent, blocks: seq<Block>, end: Node) {
    && Follows(blake3, genesis, chain + blocks, end.client) && NewestIsLast(end.ring, chain + blocks)
    && Valid(ring) && end.ring == PushAll(ring, Somes(blocks))
    && (blocks != [] ==> Engine.Rollback(end.client.core.value, |chain + blocks| - 1).Some?)
  }

  lemma TakesOneMore(
        sha256: Digest, blake3: Digest, genesis: Accounts, chain: seq<Block>, ring: Recent, front: seq<Block>,
        mid: Node, b: Block)
    requires HasTaken(blake3, genesis, chain, ring, front, mid) && chain != []
    requires Continues(sha256, genesis, chain, front + [b])
    ensures ProcessBlock(sha256, blake3, mid, b).1.None?
    ensures HasTaken(blake3, genesis, chain, ring, front + [b], ProcessBlock(sha256, blake3, mid, b).0)
  {
    ContinuesLess(sha256, genesis, chain, front, b);
    AppendOne(chain, front, b);
    ContinuationIsAccepted(sha256, blake3, genesis, chain + front, mid, b);
    PushEndsRight(mid.ring, chain + front, b);
    PushAllOneMore(ring, front, b);
  }

  lemma PushAllOneMore(ring: Recent, front: seq<Block>, b: Block)
    requires Valid(ring)
    ensures PushAll(ring, Somes(front + [b])) == Push(PushAll(ring, Somes(front)), Some(b))
  {
    SomesAppend(front, [b]);
    OneSome(b);
    assert (Somes(front) + [Some(b)])[..|front|] == Somes(front);
  }

  lemma {:induction false} ContinuationRun(
        sha256: Digest, blake3: Digest, genesis: Accounts, chain: seq<Block>, node: Node, blocks: seq<Block>)
    requires NewestIsLast(node.ring, chain) && Follows(blake3, genesis, chain, node.client)
    requires Continues(sha256, genesis, chain, blocks)
    ensures AllAccepted(sha256, blake3, node, blocks)
    ensures HasTaken(blake3, genesis, chain, node.ring, blocks, RunBlocks(sha256, blake3, node, blocks))
    decreases |blocks|
  {
    if blocks == [] {
      assert chain + blocks == chain;
    } else {
      var front, b := blocks[..|blocks| - 1], blocks[|blocks| - 1];
      FrontAndLast(blocks);
      ContinuesLess(sha256, genesis, chain, front, b);
      ContinuationRun(sha256, blake3, genesis, chain, node, front);
      TakesOneMore(sha256, blake3, genesis, chain, node.ring, front, RunBlocks(sha256, blake3, node, front), b);
      RunOneMore(sha256, blake3, node, front, b);
      AcceptedOneMore(sha256, blake3, node, front, b);
    }
  }

  lemma FrontAndLast<T>(s: seq<T>)
    requires s != []
    ensures s == s[..|s| - 1] + [s[|s| - 1]]
  {
  }

  /** Nine blocks of a continuation make buffer and engine stand for the longer chain, whatever else the buffer
      held; where the next block goes follows from where the first went. */
  lemma HealsWithin(
        sha256: Digest, blake3: Digest, genesis: Accounts, chain: seq<Block>, node: Node, blocks: seq<Block>,
        longer: seq<Block>)
    requires NewestIsLast(node.ring, chain) && Follows(blake3, genesis, chain, node.client)
    requires Continues(sha256, genesis, chain, blocks) && longer == chain + blocks
    requires |blocks| >= MAX_REORG_DEPTH - 1
    ensures AllAccepted(sha256, blake3, node, blocks)
    ensures var end := RunBlocks(sha256, blake3, node, blocks);
      && Synced(sha256, blake3, genesis, longer, end)
      && end.ring.index == Advance(node.ring.index, |blocks|)
      && Engine.Rollback(end.client.core.value, |longer| - 1).Some?
  {
    ContinuationRun(sha256, blake3, genesis, chain, node, blocks);
    NinePushesRestore(node.ring, chain, blocks);
    PushAllIndex(node.ring, Somes(blocks));
  }

  /** The index after n more blocks. */
  function Advance(index: nat, n: nat): nat {
    (index + n) % MAX_REORG_DEPTH
  }

  lemma {:induction false} PushAllIndex(ring: Recent, xs: seq<Option<Block>>)
    requires Valid(ring) && |ring.slots| == MAX_REORG_DEPTH
    ensures PushAll(ring, xs).index == Advance(ring.index, |xs|)
  {
    if xs != [] {
      PushAllIndex(ring, xs[..|xs| - 1]);
      NextModulo(ring.index + (|xs| - 1));
    }
  }

  /** The honest case: while buffer and engine stand for a chain, every continuation of it is accepted block by
      block and kept in sync. */
  lemma ContinuationIsTaken(
        sha256: Digest, blake3: Digest, genesis: Accounts, chain: seq<Block>, node: Node, blocks: seq<Block>)
    requires Synced(sha256, blake3, genesis, chain, node) && chain != []
    requires Continues(sha256, genesis, chain, blocks)
    ensures AllAccepted(sha256, blake3, node, blocks)
    ensures Synced(sha256, blake3, genesis, chain + blocks, RunBlocks(sha256, blake3, node, blocks))
  {
    BufferedEndsRight(node.ring, chain);
    ContinuationRun(sha256, blake3, genesis, chain, node, blocks);
    PushesKeepBuffered(node.ring, chain, blocks);
  }

  /** A reorganisation that goes through, however wrong its cut: every continuation of the new chain is accepted,
      and from the ninth block on buffer and engine stand for it. */
  lemma NineBlocksHeal(
        sha256: Digest, blake3: Digest, genesis: Accounts, chain: seq<Block>, node: Node, b: Block, point: U64,
        blocks: seq<Block>)
    requires Linked(sha256, chain) && Numbered(chain) && Buffered(node.ring, chain)
    requires DetectReorg(sha256, node.ring, b) == Ok(Fork(point))
    requires Recoverable(blake3, genesis, chain, node.client, point)
    requires ProcessBlock(sha256, blake3, node, b).1.None? && b.number != 0
    requires Continues(sha256, genesis, chain[..point] + [b], blocks)
    ensures var cut := ProcessBlock(sha256, blake3, node, b).0;
      && Valid(cut.ring) && AllAccepted(sha256, blake3, cut, blocks)
      && var end := RunBlocks(sha256, blake3, cut, blocks);
      && Follows(blake3, genesis, chain[..point] + [b] + blocks, end.client)
      && (|blocks| >= MAX_REORG_DEPTH - 1 ==> Synced(sha256, blake3, genesis, chain[..point] + [b] + blocks, end))
  {
    ReorgStep(sha256, blake3, genesis, chain, node, b, point);
    ReorgUnfolds(sha256, blake3, node, b, point);
    CutEndsRight(node.ring, chain[..point], point, b);
    var cut := ProcessBlock(sha256, blake3, node, b).0;
    ContinuationRun(sha256, blake3, genesis, chain[..point] + [b], cut, blocks);
    if |blocks| >= MAX_REORG_DEPTH - 1 {
      NinePushesRestore(cut.ring, chain[..point] + [b], blocks);
    }
  }

  lemma CutEndsRight(ring: Recent, below: seq<Block>, point: U64, b: Block)
    requires Valid(ring) && |ring.slots| == MAX_REORG_DEPTH
    ensures NewestIsLast(CutAndAdd(ring, point, b), below + [b])
  {
    TruncateIsValid(ring, AsInt64(point));
    PushEndsRight(Truncate(ring, AsInt64(point)), below, b);
  }
}
