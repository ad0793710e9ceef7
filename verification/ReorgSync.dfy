/** The two halves together: the block buffer and the state engine stand for one chain, and exactly which
    reorganisations keep them so. */
module ReorgSync {
  import opened Wrappers
  import opened Bytes
  import opened Chain
  import opened Ledger
  import opened Circular
  import opened RingBuffers
  import opened Ffi
  import opened Reorg
  import opened Replays
  import opened EngineRuns
  import opened ReorgBuffers
  import Engine

  /** Each block names the hash of the one below it. */
  ghost predicate Linked(sha256: Digest, chain: seq<Block>) {
    forall j :: 0 < j < |chain| ==> chain[j].parentHash == BlockHash(sha256, chain[j - 1])
  }

  /** The client has the replay of the chain, and a history without gaps. */
  ghost predicate Follows(blake3: Digest, genesis: Accounts, chain: seq<Block>, client: Client) {
    && LockStep(client) && client.core.Some?
    && Agrees(blake3, genesis, chain, client.core.value)
    && Gapless(client.core.value)
  }

  /** One chain of numbered, linked blocks: the buffer holds its end and the engine its replay. */
  ghost predicate Synced(sha256: Digest, blake3: Digest, genesis: Accounts, chain: seq<Block>, node: Node) {
    && Linked(sha256, chain)
    && Buffered(node.ring, chain)
    && Follows(blake3, genesis, chain, node.client)
  }

  lemma StartIsSynced(sha256: Digest, blake3: Digest, genesis: Accounts)
    ensures Synced(sha256, blake3, genesis, [], EmptyNode(Client(0, Some(Engine.Genesis(genesis)))))
  {
    GenesisAgrees(blake3, genesis);
  }

  // ---- fork detection

  ghost predicate HashedAt(sha256: Digest, chain: seq<Block>, j: int, hash: Hash) {
    0 <= j < |chain| && BlockHash(sha256, chain[j]) == hash
  }

  /** The search over the blocks in the buffer, whatever they are: k is the newest match, if any. */
  lemma {:induction false} FindInContents(
        sha256: Digest, ring: Recent, blocks: seq<Block>, parent: Hash, n: nat)
      returns (k: int)
    requires Valid(ring) && n <= ring.size == |blocks|
    requires forall i :: 0 <= i < |blocks| ==> Get(ring, i) == Some(blocks[i])
    ensures -1 <= k < n
    ensures FindForkPoint(sha256, ring, parent, n) == if k < 0 then None else Some(blocks[k].number)
    ensures k >= 0 ==> BlockHash(sha256, blocks[k]) == parent
    ensures forall i :: k < i < n ==> BlockHash(sha256, blocks[i]) != parent
  {
    if n == 0 {
      k := -1;
    } else if BlockHash(sha256, blocks[n - 1]) == parent {
      k := n - 1;
    } else {
      k := FindInContents(sha256, ring, blocks, parent, n - 1);
    }
  }

  ghost predicate IsNewestMatch(sha256: Digest, chain: seq<Block>, parent: Hash, found: Option<U64>) {
    var oldest := |chain| - Held(chain);
    match found
    case None => forall j :: oldest <= j < |chain| ==> !HashedAt(sha256, chain, j, parent)
    case Some(point) =>
      && oldest < point <= |chain| && HashedAt(sha256, chain, point - 1, parent)
      && forall j :: point <= j < |chain| ==> !HashedAt(sha256, chain, j, parent)
  }

  /** The search returns the newest match, and fails only when there is none. */
  lemma FindMeaning(sha256: Digest, ring: Recent, chain: seq<Block>, parent: Hash)
    requires Buffered(ring, chain) && Numbered(chain)
    ensures IsNewestMatch(sha256, chain, parent, FindForkPoint(sha256, ring, parent, ring.size))
  {
    var oldest := |chain| - Held(chain);
    BufferHolds(ring, chain);
    var k := FindInContents(sha256, ring, chain[oldest..], parent, ring.size);
    OnlyBefore(sha256, chain, oldest, parent, k);
  }

  lemma BufferHolds(ring: Recent, chain: seq<Block>)
    requires Buffered(ring, chain)
    ensures ring.size == Held(chain)
    ensures forall i :: 0 <= i < ring.size ==> Get(ring, i) == Some(chain[|chain| - Held(chain)..][i])
  {
    forall i | 0 <= i < ring.size
      ensures Get(ring, i) == Some(chain[|chain| - Held(chain)..][i])
    {
      BufferedAt(ring, chain, i);
    }
    BufferSize(ring, chain);
  }

  /** From a position in the end of the chain to block numbers. */
  lemma OnlyBefore(sha256: Digest, chain: seq<Block>, oldest: nat, parent: Hash, k: int)
    requires oldest <= |chain| && Numbered(chain) && -1 <= k < |chain| - oldest
    requires k >= 0 ==> BlockHash(sha256, chain[oldest..][k]) == parent
    requires forall i :: k < i < |chain| - oldest ==> BlockHash(sha256, chain[oldest..][i]) != parent
    ensures k >= 0 ==> chain[oldest..][k].number == oldest + k + 1 && HashedAt(sha256, chain, oldest + k, parent)
    ensures forall j :: oldest + k < j < |chain| && oldest <= j ==> !HashedAt(sha256, chain, j, parent)
  {
    forall j | oldest + k < j < |chain| && oldest <= j
      ensures !HashedAt(sha256, chain, j, parent)
    {
      assert chain[oldest..][j - oldest] == chain[j];
    }
  }

  lemma SmallDepth(tip: U64, point: U64)
    requires point < tip
    ensures tip - point < SIGN_BIT ==> AsInt64((tip - point) % U64_LIMIT) == tip - point
  {
    SmallModulo(tip - point, U64_LIMIT);
  }

  /** A block without a buffered parent is not placed; otherwise the newest buffered parent counts. The depth
      check never fires. */
  ghost predicate Explains(sha256: Digest, chain: seq<Block>, parent: Hash, verdict: Result<Verdict, ReorgError>) {
    var tip, oldest := |chain| - 1, |chain| - Held(chain);
    match verdict
    case Ok(OnTip) => chain == [] || HashedAt(sha256, chain, tip, parent)
    case Ok(Fork(point)) =>
      && oldest < point <= tip && HashedAt(sha256, chain, point - 1, parent)
      && forall j :: point <= j <= tip ==> !HashedAt(sha256, chain, j, parent)
    case Err(e) =>
      && e == ForkPointNotFound && chain != []
      && forall j :: oldest <= j <= tip ==> !HashedAt(sha256, chain, j, parent)
  }

  /** What the verdict says about the chain. */
  lemma DetectMeaning(sha256: Digest, ring: Recent, chain: seq<Block>, b: Block)
    requires Buffered(ring, chain) && Numbered(chain)
    ensures Explains(sha256, chain, b.parentHash, DetectReorg(sha256, ring, b))
  {
    if chain == [] {
      BufferSize(ring, chain);
    } else {
      DetectUnfolds(sha256, ring, chain, b);
      FindMeaning(sha256, ring, chain, b.parentHash);
      var found := FindForkPoint(sha256, ring, b.parentHash, ring.size);
      FoundExplains(sha256, chain, b.parentHash, found, DetectReorg(sha256, ring, b));
    }
  }

  lemma FoundExplains(
        sha256: Digest, chain: seq<Block>, parent: Hash, found: Option<U64>, verdict: Result<Verdict, ReorgError>)
    requires chain != []
    requires IsNewestMatch(sha256, chain, parent, found) && FollowsSearch(sha256, chain, parent, found, verdict)
    ensures Explains(sha256, chain, parent, verdict)
  {
  }

  ghost predicate FollowsSearch(
        sha256: Digest, chain: seq<Block>, parent: Hash, found: Option<U64>, verdict: Result<Verdict, ReorgError>) {
    if HashedAt(sha256, chain, |chain| - 1, parent) then verdict == Ok(OnTip)
    else if found.None? then verdict == Err(ForkPointNotFound)
    else 0 < |chain| - found.value <= MAX_REORG_DEPTH ==> verdict == Ok(Fork(found.value))
  }

  lemma DetectUnfolds(sha256: Digest, ring: Recent, chain: seq<Block>, b: Block)
    requires Buffered(ring, chain) && Numbered(chain) && chain != []
    ensures FollowsSearch(sha256, chain, b.parentHash, FindForkPoint(sha256, ring, b.parentHash, ring.size),
                          DetectReorg(sha256, ring, b))
  {
    BufferSize(ring, chain);
    BufferedAt(ring, chain, ring.size - 1);
    var found := FindForkPoint(sha256, ring, b.parentHash, ring.size);
    if found.Some? && found.value < |chain| {
      SmallDepth(|chain|, found.value);
    }
  }

  /** No two buffered blocks with different headers share a hash. */
  ghost predicate NoCollision(sha256: Digest, chain: seq<Block>) {
    forall i, j :: |chain| - Held(chain) <= i < j < |chain| ==>
      BlockHash(sha256, chain[i]) == BlockHash(sha256, chain[j]) ==> Header(chain[i]) == Header(chain[j])
  }

  /** Without collisions in the buffer a reorganisation is reported exactly when a buffered block other
      than the tip is the parent; that block is unique, and it is between 1 and size - 1 blocks deep. */
  lemma ForkDetection(sha256: Digest, ring: Recent, chain: seq<Block>, b: Block, point: U64)
    requires Buffered(ring, chain) && Numbered(chain) && NoCollision(sha256, chain)
    ensures DetectReorg(sha256, ring, b) == Ok(Fork(point))
       <==> 1 <= |chain| - point < ring.size && HashedAt(sha256, chain, point - 1, b.parentHash)
  {
    BufferSize(ring, chain);
    DetectMeaning(sha256, ring, chain, b);
    if 1 <= |chain| - point < ring.size && HashedAt(sha256, chain, point - 1, b.parentHash) {
      OnlyMatch(sha256, chain, b.parentHash, point - 1);
    }
  }

  lemma OnlyMatch(sha256: Digest, chain: seq<Block>, hash: Hash, i: nat)
    requires Numbered(chain) && NoCollision(sha256, chain)
    requires |chain| - Held(chain) <= i && HashedAt(sha256, chain, i, hash)
    ensures forall j :: |chain| - Held(chain) <= j < |chain| && HashedAt(sha256, chain, j, hash) ==> j == i
  {
    forall j | |chain| - Held(chain) <= j < |chain| && HashedAt(sha256, chain, j, hash)
      ensures j == i
    {
      HeaderIdentifies(chain[j], chain[i]);
    }
  }

  // ---- steps

  lemma ExtendLinks(sha256: Digest, chain: seq<Block>, point: nat, b: Block)
    requires Linked(sha256, chain) && point <= |chain|
    requires point == 0 || HashedAt(sha256, chain, point - 1, b.parentHash)
    ensures Linked(sha256, chain[..point] + [b])
  {
  }

  lemma ClientExtends(blake3: Digest, genesis: Accounts, chain: seq<Block>, client: Client, b: Block)
    requires Follows(blake3, genesis, chain, client)
    requires ClientApply(blake3, client, b).1.Ok? && b.number != 0
    ensures Follows(blake3, genesis, chain + [b], ClientApply(blake3, client, b).0) && b.number == |chain| + 1
  {
    ApplyReachesEngine(blake3, client, b);
    ApplyExtends(blake3, genesis, chain, client.core.value, b);
    StepStaysGapless(blake3, client.core.value, Op.Apply(b));
    assert (chain + [b])[|chain|] == b;
  }

  /** A rollback to `point` would give the engine for the first `point` blocks of the chain. */
  ghost predicate Recoverable(blake3: Digest, genesis: Accounts, chain: seq<Block>, client: Client, point: U64) {
    && point <= |chain|
    && ClientRollback(client, point).Some?
    && Follows(blake3, genesis, chain[..point], ClientRollback(client, point).value)
  }

  lemma FollowerIsRecoverable(blake3: Digest, genesis: Accounts, chain: seq<Block>, client: Client, point: U64)
    requires Follows(blake3, genesis, chain, client)
    requires ClientRollback(client, point).Some?
    ensures Recoverable(blake3, genesis, chain, client, point)
  {
    RollbackTakesPrefix(blake3, genesis, chain, client.core.value, point);
    RollbackStaysGapless(client.core.value, point);
  }

  /** A reorganisation that goes through, from any engine that can be rolled back to the fork and wherever in the
      buffer the chain's end lies: the engine ends with the replay of the new linked chain, and the buffer with
      its last blocks exactly when the cut was right. */
  lemma ReorgStep(
        sha256: Digest, blake3: Digest, genesis: Accounts, chain: seq<Block>, node: Node, b: Block, point: U64)
    requires Linked(sha256, chain) && Numbered(chain) && Buffered(node.ring, chain)
    requires DetectReorg(sha256, node.ring, b) == Ok(Fork(point))
    requires Recoverable(blake3, genesis, chain, node.client, point)
    requires ProcessBlock(sha256, blake3, node, b).1.None? && b.number != 0
    ensures var node' := ProcessBlock(sha256, blake3, node, b).0;
      var chain' := chain[..point] + [b];
      && Linked(sha256, chain') && Follows(blake3, genesis, chain', node'.client)
      && (Buffered(node'.ring, chain') <==> CutIsRight(node.ring.index, |chain|, point))
      && node'.events == node.events + [ReorgEvent(point, |chain| - point)]
  {
    ForkTaken(sha256, blake3, genesis, chain, node, b, point);
    ForkBuffered(sha256, blake3, chain, node, b, point);
  }

  lemma ForkTaken(
        sha256: Digest, blake3: Digest, genesis: Accounts, chain: seq<Block>, node: Node, b: Block, point: U64)
    requires Valid(node.ring) && DetectReorg(sha256, node.ring, b) == Ok(Fork(point))
    requires Recoverable(blake3, genesis, chain, node.client, point)
    requires ProcessBlock(sha256, blake3, node, b).1.None? && b.number != 0
    ensures Follows(blake3, genesis, chain[..point] + [b], ProcessBlock(sha256, blake3, node, b).0.client)
  {
    ReorgUnfolds(sha256, blake3, node, b, point);
    ClientExtends(blake3, genesis, chain[..point], ClientRollback(node.client, point).value, b);
  }

  lemma ForkBuffered(sha256: Digest, blake3: Digest, chain: seq<Block>, node: Node, b: Block, point: U64)
    requires Linked(sha256, chain) && Numbered(chain) && Buffered(node.ring, chain)
    requires DetectReorg(sha256, node.ring, b) == Ok(Fork(point))
    requires ClientRollback(node.client, point).Some? && ProcessBlock(sha256, blake3, node, b).1.None?
    ensures |chain| - Held(chain) < point < |chain|
    ensures var node', chain' := ProcessBlock(sha256, blake3, node, b).0, chain[..point] + [b];
      && Linked(sha256, chain')
      && (Buffered(node'.ring, chain') <==> CutIsRight(node.ring.index, |chain|, point))
      && node'.events == node.events + [ReorgEvent(point, |chain| - point)]
  {
    ForkChain(sha256, node.ring, chain, b, point);
    ReorgUnfolds(sha256, blake3, node, b, point);
    EventDepthIs(node.ring, chain, point);
    CutKeepsBufferedIff(node.ring, chain, point, b);
  }

  lemma ForkChain(sha256: Digest, ring: Recent, chain: seq<Block>, b: Block, point: U64)
    requires Linked(sha256, chain) && Numbered(chain) && Buffered(ring, chain)
    requires DetectReorg(sha256, ring, b) == Ok(Fork(point))
    ensures |chain| - Held(chain) < point < |chain| && Linked(sha256, chain[..point] + [b])
  {
    DetectMeaning(sha256, ring, chain, b);
    ExtendLinks(sha256, chain, point, b);
  }

  lemma ReorgUnfolds(sha256: Digest, blake3: Digest, node: Node, b: Block, point: U64)
    requires Valid(node.ring) && DetectReorg(sha256, node.ring, b) == Ok(Fork(point))
    requires ClientRollback(node.client, point).Some? && ProcessBlock(sha256, blake3, node, b).1.None?
    ensures var (client', r) := ClientApply(blake3, ClientRollback(node.client, point).value, b);
      && r.Ok?
      && ProcessBlock(sha256, blake3, node, b).0
         == Node(CutAndAdd(node.ring, point, b), client',
                 node.events + [ReorgEvent(point, EventDepth(node.ring, point))])
  {
  }

  lemma EventDepthIs(ring: Recent, chain: seq<Block>, point: U64)
    requires Buffered(ring, chain) && Numbered(chain) && Valid(ring)
    requires |chain| - Held(chain) < point < |chain|
    ensures EventDepth(ring, point) == |chain| - point
  {
    BufferSize(ring, chain);
    BufferedAt(ring, chain, ring.size - 1);
  }

  lemma TipUnfolds(sha256: Digest, blake3: Digest, node: Node, b: Block)
    requires Valid(node.ring) && DetectReorg(sha256, node.ring, b) == Ok(OnTip)
    ensures var (client', r) := ClientApply(blake3, node.client, b);
      var (node', e) := ProcessBlock(sha256, blake3, node, b);
      && (e.None? <==> r.Ok?)
      && node'.ring == (if r.Ok? then Push(node.ring, Some(b)) else node.ring)
      && node'.client == client' && node'.events == node.events
  {
  }

  lemma TipIsLinked(sha256: Digest, ring: Recent, chain: seq<Block>, b: Block)
    requires Linked(sha256, chain) && Buffered(ring, chain) && Numbered(chain)
    requires Valid(ring) && DetectReorg(sha256, ring, b) == Ok(OnTip)
    ensures Linked(sha256, chain + [b])
  {
    DetectMeaning(sha256, ring, chain, b);
    ExtendLinks(sha256, chain, |chain|, b);
    assert chain[..|chain|] == chain;
  }

  lemma TipStep(sha256: Digest, blake3: Digest, genesis: Accounts, chain: seq<Block>, node: Node, b: Block)
    requires Synced(sha256, blake3, genesis, chain, node) && Valid(node.ring)
    requires DetectReorg(sha256, node.ring, b) == Ok(OnTip)
    requires ProcessBlock(sha256, blake3, node, b).1.None? && b.number != 0
    ensures Synced(sha256, blake3, genesis, chain + [b], ProcessBlock(sha256, blake3, node, b).0)
  {
    TipUnfolds(sha256, blake3, node, b);
    TipIsLinked(sha256, node.ring, chain, b);
    ClientExtends(blake3, genesis, chain, node.client, b);
    PushKeepsBuffered(node.ring, chain, b);
  }
}
