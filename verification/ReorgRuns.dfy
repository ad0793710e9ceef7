/** Whole runs of ProcessBlock, measured against a specification that knows only the chain, the numbers that
    can be rolled back to, and where the buffer's next block goes. */
module ReorgRuns {
  import opened Wrappers
  import opened Bytes
  import opened Chain
  import opened Ledger
  import opened Circular
  import opened RingBuffers
  import opened Codec
  import opened Ffi
  import opened Reorg
  import opened Replays
  import opened EngineRuns
  import opened ReorgBuffers
  import opened ReorgSync
  import Engine

  // ---- the parent of a block

  /** The newest buffered block with the parent's hash is number `point`. */
  ghost predicate BuildsOn(sha256: Digest, chain: seq<Block>, b: Block, point: nat) {
    if chain == [] then point == 0
    else
      && |chain| - Held(chain) < point <= |chain|
      && HashedAt(sha256, chain, point - 1, b.parentHash)
      && forall j :: point <= j < |chain| ==> !HashedAt(sha256, chain, j, b.parentHash)
  }

  ghost function Parent(sha256: Digest, chain: seq<Block>, b: Block): (parent: Option<nat>)
    ensures forall point: nat :: BuildsOn(sha256, chain, b, point) <==> parent == Some(point)
  {
    if exists point: nat :: BuildsOn(sha256, chain, b, point) then
      var point: nat :| BuildsOn(sha256, chain, b, point);
      ParentIsUnique(sha256, chain, b, point);
      Some(point)
    else None
  }

  lemma ParentIsUnique(sha256: Digest, chain: seq<Block>, b: Block, point: nat)
    requires BuildsOn(sha256, chain, b, point)
    ensures forall other: nat :: BuildsOn(sha256, chain, b, other) ==> other == point
  {
    forall other: nat | BuildsOn(sha256, chain, b, other)
      ensures other == point
    {
      assert chain != [] ==>
        HashedAt(sha256, chain, point - 1, b.parentHash) && HashedAt(sha256, chain, other - 1, b.parentHash);
    }
  }

  lemma DetectFindsParent(sha256: Digest, ring: Recent, chain: seq<Block>, b: Block)
    requires Buffered(ring, chain) && Numbered(chain)
    ensures Valid(ring)
    ensures var verdict := DetectReorg(sha256, ring, b);
      match Parent(sha256, chain, b)
      case None => verdict == Err(ForkPointNotFound)
      case Some(point) =>
        verdict.Ok? && point <= |chain|
        && if point == |chain| then verdict.value.OnTip?
           else point > 0 && verdict.value.Fork? && verdict.value.point == point
  {
    DetectMeaning(sha256, ring, chain, b);
    match DetectReorg(sha256, ring, b)
    case Ok(OnTip) => assert BuildsOn(sha256, chain, b, |chain|);
    case Ok(Fork(point)) => assert BuildsOn(sha256, chain, b, point);
    case Err(_) =>
  }

  // ---- the client on a branch

  /** What the boundary asks of a block, whatever the state. */
  predicate Passes(b: Block) {
    FirstTooLarge(b.transactions, 0).None? && |EncodeBlock(b)| <= MAX_BLOCK_SIZE
  }

  /** The state after a block that got stuck in a transaction. */
  ghost function Stuck(s: Engine.State, b: Block): Engine.State {
    s.(accounts := ApplyTransactions(s.accounts, b.transactions).accounts, history := Engine.Saved(s))
  }

  ghost function StuckClient(client: Client, b: Block): Client
    requires client.core.Some?
  {
    client.(core := Some(Stuck(client.core.value, b)))
  }

  lemma ClientOnBranch(blake3: Digest, genesis: Accounts, branch: seq<Block>, client: Client, b: Block)
    requires LockStep(client) && client.core.Some? && AtEndOf(genesis, branch, client.core.value)
    ensures var (client', r) := ClientApply(blake3, client, b);
      var next := b.number == (|branch| + 1) % U64_LIMIT && Passes(b);
      && (r.Ok? <==> next && Replay(genesis, branch + [b]).Some?)
      && (!next ==> client' == client)
      && (next && r.Err? ==> client' == StuckClient(client, b)
                             && ApplyTransactions(client.core.value.accounts, b.transactions).error.Some?)
      && (r.Ok? ==> client'.core.Some? && client'.core.value.history == Engine.Saved(client.core.value))
  {
    ApplyReachesEngine(blake3, client, b);
    ApplyOnBranch(blake3, genesis, branch, client.core.value, b);
  }

  // ---- the specification

  /** The chain, the numbers of the states that can still be restored, and the slot of the next block. */
  datatype Model = Model(chain: seq<Block>, retained: seq<nat>, index: nat)

  function Numbers(history: seq<Engine.Snapshot>): (numbers: seq<nat>)
    ensures |numbers| == |history|
  {
    seq(|history|, i requires 0 <= i < |history| => history[i].number)
  }

  function Keep(retained: seq<nat>, number: nat): seq<nat> {
    LastN(retained + [number], Engine.MAX_HISTORY_SIZE)
  }

  function UpTo(retained: seq<nat>, number: nat): seq<nat> {
    if retained == [] then []
    else if retained[0] == number then [number]
    else [retained[0]] + UpTo(retained[1..], number)
  }

  function Oldest(retained: seq<nat>): nat {
    if retained == [] then 0 else retained[0]
  }

  /** A block goes on top of the first `point` blocks of the chain: it has the next number, it passes the
      boundary, and the branch with it replays. */
  ghost predicate Extends(genesis: Accounts, chain: seq<Block>, b: Block, point: nat) {
    && point <= |chain| && b.number == (point + 1) % U64_LIMIT && Passes(b)
    && Replay(genesis, chain[..point] + [b]).Some?
  }

  /** Exactly the blocks that are accepted: the parent is buffered and not older than the oldest state kept. */
  ghost predicate Accepts(sha256: Digest, genesis: Accounts, m: Model, b: Block) {
    match Parent(sha256, m.chain, b)
    case None => false
    case Some(point) => (point == |m.chain| || Oldest(m.retained) <= point) && Extends(genesis, m.chain, b, point)
  }

  ghost function NextOnTip(genesis: Accounts, m: Model, b: Block): Model {
    var tip := |m.chain|;
    if Extends(genesis, m.chain, b, tip) then
      Model(m.chain + [b], Keep(m.retained, tip), (m.index + 1) % MAX_REORG_DEPTH)
    else if b.number == (tip + 1) % U64_LIMIT && Passes(b) then m.(retained := Keep(m.retained, tip))
    else m
  }

  ghost function NextOnFork(genesis: Accounts, m: Model, b: Block, point: nat): Model {
    if point < Oldest(m.retained) || !Extends(genesis, m.chain, b, point) then m
    else Model(m.chain[..point] + [b], Keep(UpTo(m.retained, point), point), IndexAfterCut(point))
  }

  ghost function Next(sha256: Digest, genesis: Accounts, m: Model, b: Block): Model {
    match Parent(sha256, m.chain, b)
    case None => m
    case Some(point) => if point == |m.chain| then NextOnTip(genesis, m, b) else NextOnFork(genesis, m, b, point)
  }

  /** A block on the tip does no harm unless it is stuck in a transaction after the first debit, or wraps the
      block number. */
  ghost predicate GoodTip(genesis: Accounts, chain: seq<Block>, b: Block) {
    if Extends(genesis, chain, b, |chain|) then b.number != 0
    else
      b.number == (|chain| + 1) % U64_LIMIT && Passes(b) ==>
        Replay(genesis, chain).Some? && RefusedAtOnce(Replay(genesis, chain).value, b.transactions)
  }

  /** A block on a fork does no harm exactly when the fork is out of reach, or when the block goes through and
      the cut of the buffer is right. */
  ghost predicate GoodFork(genesis: Accounts, m: Model, b: Block, point: nat) {
    point < Oldest(m.retained) || (Extends(genesis, m.chain, b, point) && CutIsRight(m.index, |m.chain|, point))
  }

  ghost predicate GoodBlock(sha256: Digest, genesis: Accounts, m: Model, b: Block) {
    match Parent(sha256, m.chain, b)
    case None => true
    case Some(point) => if point == |m.chain| then GoodTip(genesis, m.chain, b) else GoodFork(genesis, m, b, point)
  }

  /** The client has the replay of the chain, and can restore exactly the numbers retained. */
  ghost predicate Tracks(blake3: Digest, genesis: Accounts, m: Model, client: Client) {
    Follows(blake3, genesis, m.chain, client) && m.retained == Numbers(client.core.value.history)
  }

  /** Besides, the chain is linked and the buffer holds its last blocks. */
  ghost predicate Refines(sha256: Digest, blake3: Digest, genesis: Accounts, m: Model, node: Node) {
    && Linked(sha256, m.chain) && Buffered(node.ring, m.chain) && m.index == node.ring.index
    && Tracks(blake3, genesis, m, node.client)
  }

  // ---- the history's numbers

  lemma SavedNumbers(s: Engine.State)
    ensures Numbers(Engine.Saved(s)) == Keep(Numbers(s.history), s.number)
  {
  }

  lemma {:induction false} RestoredNumbers(history: seq<Engine.Snapshot>, point: U64)
    ensures var p := Engine.Position(history, point);
      p.Some? ==> Numbers(history[..p.value + 1]) == UpTo(Numbers(history), point)
  {
    if history != [] {
      assert Numbers(history)[1..] == Numbers(history[1..]);
      var p := Engine.Position(history, point);
      if p.Some? && p.value > 0 {
        RestoredNumbers(history[1..], point);
        assert history[..p.value + 1] == [history[0]] + history[1..][..p.value];
        assert Numbers(history[..p.value + 1]) == [history[0].number] + Numbers(history[1..][..p.value]);
      }
    }
  }

  /** Below the tip, what can be restored is what is not older than the oldest number kept. */
  lemma InReach(blake3: Digest, genesis: Accounts, m: Model, client: Client, point: U64)
    requires Tracks(blake3, genesis, m, client) && point < |m.chain|
    ensures ClientRollback(client, point).Some? <==> Oldest(m.retained) <= point
  {
    RollbackSucceedsIff(client.core.value, point);
  }

  // ---- one block on the tip

  lemma ExtendsTip(genesis: Accounts, chain: seq<Block>, b: Block)
    ensures Extends(genesis, chain, b, |chain|)
       <==> b.number == (|chain| + 1) % U64_LIMIT && Passes(b) && Replay(genesis, chain + [b]).Some?
  {
    assert chain[..|chain|] == chain;
  }

  lemma PassingIsShort(b: Block)
    requires Passes(b)
    ensures |b.transactions| < U64_LIMIT
  {
    PayloadLength(b.transactions);
  }

  lemma StuckIff(blake3: Digest, genesis: Accounts, chain: seq<Block>, s: Engine.State, b: Block)
    requires Agrees(blake3, genesis, chain, s) && Gapless(s)
    requires ApplyTransactions(s.accounts, b.transactions).error.Some? && |b.transactions| < U64_LIMIT
    ensures Agrees(blake3, genesis, chain, Stuck(s, b)) && Gapless(Stuck(s, b))
       <==> RefusedAtOnce(s.accounts, b.transactions)
  {
    NoLeftoversIff(s.accounts, b.transactions);
    SavingKeepsRecall(blake3, genesis, chain, s);
    SaveIsGapless(s);
  }

  lemma ClientResult(blake3: Digest, genesis: Accounts, m: Model, client: Client, b: Block)
    requires Tracks(blake3, genesis, m, client)
    ensures var (client', r) := ClientApply(blake3, client, b);
      && (r.Ok? <==> Extends(genesis, m.chain, b, |m.chain|))
      && (r.Ok? ==> client'.core.Some? && client'.last == b.number
                    && Numbers(client'.core.value.history) == Keep(m.retained, |m.chain|))
  {
    AgreesAtEnd(blake3, genesis, m.chain, client.core.value);
    ClientOnBranch(blake3, genesis, m.chain, client, b);
    ExtendsTip(genesis, m.chain, b);
    SavedNumbers(client.core.value);
  }

  lemma ClientTracksOnSuccess(blake3: Digest, genesis: Accounts, m: Model, client: Client, b: Block)
    requires Tracks(blake3, genesis, m, client) && Extends(genesis, m.chain, b, |m.chain|)
    ensures var m' := Model(m.chain + [b], Keep(m.retained, |m.chain|), (m.index + 1) % MAX_REORG_DEPTH);
      Tracks(blake3, genesis, m', ClientApply(blake3, client, b).0) <==> b.number != 0
  {
    ClientResult(blake3, genesis, m, client, b);
    if b.number != 0 {
      ClientExtends(blake3, genesis, m.chain, client, b);
    } else {
      assert (m.chain + [b])[|m.chain|] == b;
    }
  }

  lemma ClientTracksIfStuck(blake3: Digest, genesis: Accounts, m: Model, client: Client, b: Block)
    requires Tracks(blake3, genesis, m, client) && Passes(b)
    requires ApplyTransactions(client.core.value.accounts, b.transactions).error.Some?
    ensures Tracks(blake3, genesis, m.(retained := Keep(m.retained, |m.chain|)), StuckClient(client, b))
       <==> RefusedAtOnce(client.core.value.accounts, b.transactions)
  {
    PassingIsShort(b);
    StuckIff(blake3, genesis, m.chain, client.core.value, b);
    SavedNumbers(client.core.value);
  }

  lemma ClientTracksIff(blake3: Digest, genesis: Accounts, m: Model, client: Client, b: Block)
    requires Tracks(blake3, genesis, m, client)
    ensures Tracks(blake3, genesis, NextOnTip(genesis, m, b), ClientApply(blake3, client, b).0)
       <==> GoodTip(genesis, m.chain, b)
  {
    AgreesAtEnd(blake3, genesis, m.chain, client.core.value);
    ClientOnBranch(blake3, genesis, m.chain, client, b);
    ExtendsTip(genesis, m.chain, b);
    if Extends(genesis, m.chain, b, |m.chain|) {
      ClientTracksOnSuccess(blake3, genesis, m, client, b);
    } else if b.number == (|m.chain| + 1) % U64_LIMIT && Passes(b) {
      ClientTracksIfStuck(blake3, genesis, m, client, b);
    }
  }

  lemma TipRefinesIff(sha256: Digest, blake3: Digest, genesis: Accounts, m: Model, node: Node, b: Block)
    requires Refines(sha256, blake3, genesis, m, node)
    requires Parent(sha256, m.chain, b) == Some(|m.chain|)
    ensures Valid(node.ring)
    ensures Refines(sha256, blake3, genesis, NextOnTip(genesis, m, b), ProcessBlock(sha256, blake3, node, b).0)
       <==> GoodTip(genesis, m.chain, b)
  {
    DetectFindsParent(sha256, node.ring, m.chain, b);
    TipUnfolds(sha256, blake3, node, b);
    ClientResult(blake3, genesis, m, node.client, b);
    RingTracksTip(sha256, blake3, genesis, m, node, b);
    ClientTracksIff(blake3, genesis, m, node.client, b);
  }

  lemma RingTracksTip(sha256: Digest, blake3: Digest, genesis: Accounts, m: Model, node: Node, b: Block)
    requires Linked(sha256, m.chain) && Numbered(m.chain) && Buffered(node.ring, m.chain) && m.index == node.ring.index
    requires DetectReorg(sha256, node.ring, b) == Ok(OnTip)
    requires ProcessBlock(sha256, blake3, node, b).1.None? <==> Extends(genesis, m.chain, b, |m.chain|)
    ensures var m', node' := NextOnTip(genesis, m, b), ProcessBlock(sha256, blake3, node, b).0;
      Linked(sha256, m'.chain) && Buffered(node'.ring, m'.chain) && m'.index == node'.ring.index
  {
    TipUnfolds(sha256, blake3, node, b);
    NextTipChain(genesis, m, b);
    if Extends(genesis, m.chain, b, |m.chain|) {
      PushKeepsBuffered(node.ring, m.chain, b);
      TipIsLinked(sha256, node.ring, m.chain, b);
    }
  }

  lemma NextTipChain(genesis: Accounts, m: Model, b: Block)
    ensures var m' := NextOnTip(genesis, m, b);
      if Extends(genesis, m.chain, b, |m.chain|) then
        m'.chain == m.chain + [b] && m'.index == (m.index + 1) % MAX_REORG_DEPTH
      else m'.chain == m.chain && m'.index == m.index
  {
  }

  // ---- one block on a fork

  lemma ForkResult(
        sha256: Digest, blake3: Digest, genesis: Accounts, chain: seq<Block>, node: Node, b: Block, point: U64)
    requires Valid(node.ring) && DetectReorg(sha256, node.ring, b) == Ok(Fork(point)) && point <= |chain|
    requires ClientRollback(node.client, point).Some? ==> Recoverable(blake3, genesis, chain, node.client, point)
    ensures var (node', e) := ProcessBlock(sha256, blake3, node, b);
      && (e.None? <==> ClientRollback(node.client, point).Some? && Extends(genesis, chain, b, point))
      && (ClientRollback(node.client, point).None? ==> node' == node && e == Some(RollbackFailed))
      && (ClientRollback(node.client, point).Some? && e.Some? ==> e.value.ReplayFailed? && node'.client.last == point)
  {
    if ClientRollback(node.client, point).Some? {
      AgreesAtEnd(blake3, genesis, chain[..point], ClientRollback(node.client, point).value.core.value);
      ClientOnBranch(blake3, genesis, chain[..point], ClientRollback(node.client, point).value, b);
    }
  }

  lemma ForkAccepts(sha256: Digest, blake3: Digest, genesis: Accounts, m: Model, node: Node, b: Block, point: U64)
    requires Refines(sha256, blake3, genesis, m, node)
    requires Parent(sha256, m.chain, b) == Some(point) && point < |m.chain|
    ensures Valid(node.ring) && DetectReorg(sha256, node.ring, b) == Ok(Fork(point))
    ensures var (node', e) := ProcessBlock(sha256, blake3, node, b);
      && (e.None? <==> Oldest(m.retained) <= point && Extends(genesis, m.chain, b, point))
      && (Oldest(m.retained) > point ==> node' == node && e == Some(RollbackFailed))
      && (Oldest(m.retained) <= point && e.Some? ==> node'.client.last == point)
  {
    DetectFindsParent(sha256, node.ring, m.chain, b);
    InReach(blake3, genesis, m, node.client, point);
    if ClientRollback(node.client, point).Some? {
      FollowerIsRecoverable(blake3, genesis, m.chain, node.client, point);
    }
    ForkResult(sha256, blake3, genesis, m.chain, node, b, point);
  }

  lemma ForkRefinesIff(sha256: Digest, blake3: Digest, genesis: Accounts, m: Model, node: Node, b: Block, point: U64)
    requires Refines(sha256, blake3, genesis, m, node)
    requires Parent(sha256, m.chain, b) == Some(point) && point < |m.chain|
    ensures Valid(node.ring)
    ensures Refines(sha256, blake3, genesis, NextOnFork(genesis, m, b, point), ProcessBlock(sha256, blake3, node, b).0)
       <==> GoodFork(genesis, m, b, point)
  {
    ForkAccepts(sha256, blake3, genesis, m, node, b, point);
    if Oldest(m.retained) <= point && Extends(genesis, m.chain, b, point) {
      ForkRefinesOnSuccess(sha256, blake3, genesis, m, node, b, point);
    }
  }

  lemma ForkRefinesOnSuccess(
        sha256: Digest, blake3: Digest, genesis: Accounts, m: Model, node: Node, b: Block, point: U64)
    requires Refines(sha256, blake3, genesis, m, node)
    requires Valid(node.ring) && DetectReorg(sha256, node.ring, b) == Ok(Fork(point))
    requires point < |m.chain| && b.number == (point + 1) % U64_LIMIT
    requires ProcessBlock(sha256, blake3, node, b).1.None?
    ensures var m' := Model(m.chain[..point] + [b], Keep(UpTo(m.retained, point), point), IndexAfterCut(point));
      Refines(sha256, blake3, genesis, m', ProcessBlock(sha256, blake3, node, b).0)
      <==> CutIsRight(m.index, |m.chain|, point)
  {
    ForkIsNumbered(m.chain, b, point);
    FollowerIsRecoverable(blake3, genesis, m.chain, node.client, point);
    ReorgStep(sha256, blake3, genesis, m.chain, node, b, point);
    ReorgUnfolds(sha256, blake3, node, b, point);
    ForkRetains(blake3, node.client, point, b);
    CutIndex(node.ring, m.chain, point, b);
  }

  lemma ForkIsNumbered(chain: seq<Block>, b: Block, point: nat)
    requires Numbered(chain) && point < |chain| && b.number == (point + 1) % U64_LIMIT
    ensures b.number == point + 1
  {
    assert chain[point].number == point + 1;
  }

  lemma AppliedHistory(blake3: Digest, client: Client, b: Block)
    requires client.core.Some? && ClientApply(blake3, client, b).1.Ok?
    ensures var client' := ClientApply(blake3, client, b).0;
      client'.core.Some? && client'.core.value.history == Engine.Saved(client.core.value)
  {
    ApplyReachesEngine(blake3, client, b);
  }

  lemma RestoredThenSaved(s: Engine.State, point: U64)
    requires Engine.Rollback(s, point).Some?
    ensures Numbers(Engine.Saved(Engine.Rollback(s, point).value)) == Keep(UpTo(Numbers(s.history), point), point)
  {
    RestoredNumbers(s.history, point);
    SavedNumbers(Engine.Rollback(s, point).value);
  }

  lemma ForkRetains(blake3: Digest, client: Client, point: U64, b: Block)
    requires ClientRollback(client, point).Some?
    requires ClientApply(blake3, ClientRollback(client, point).value, b).1.Ok?
    ensures var client' := ClientApply(blake3, ClientRollback(client, point).value, b).0;
      && client'.core.Some?
      && Numbers(client'.core.value.history) == Keep(UpTo(Numbers(client.core.value.history), point), point)
  {
    AppliedHistory(blake3, ClientRollback(client, point).value, b);
    RestoredThenSaved(client.core.value, point);
  }

  // ---- one block

  /** Exactly which blocks ProcessBlock accepts, from the chain and the oldest number kept alone. */
  lemma AcceptsIff(sha256: Digest, blake3: Digest, genesis: Accounts, m: Model, node: Node, b: Block)
    requires Refines(sha256, blake3, genesis, m, node)
    ensures Valid(node.ring)
    ensures ProcessBlock(sha256, blake3, node, b).1.None? <==> Accepts(sha256, genesis, m, b)
  {
    DetectFindsParent(sha256, node.ring, m.chain, b);
    match Parent(sha256, m.chain, b)
    case None =>
    case Some(point) =>
      if point == |m.chain| {
        ClientResult(blake3, genesis, m, node.client, b);
        TipUnfolds(sha256, blake3, node, b);
      } else {
        ForkAccepts(sha256, blake3, genesis, m, node, b, m.chain[point].number - 1);
      }
  }

  /** Exactly after which blocks the node still stands for the specification's chain. */
  lemma StepRefinesIff(sha256: Digest, blake3: Digest, genesis: Accounts, m: Model, node: Node, b: Block)
    requires Refines(sha256, blake3, genesis, m, node)
    ensures Valid(node.ring)
    ensures Refines(sha256, blake3, genesis, Next(sha256, genesis, m, b), ProcessBlock(sha256, blake3, node, b).0)
       <==> GoodBlock(sha256, genesis, m, b)
  {
    DetectFindsParent(sha256, node.ring, m.chain, b);
    match Parent(sha256, m.chain, b)
    case None =>
    case Some(point) =>
      if point == |m.chain| {
        TipRefinesIff(sha256, blake3, genesis, m, node, b);
      } else {
        ForkRefinesIff(sha256, blake3, genesis, m, node, b, m.chain[point].number - 1);
      }
  }

  /** A block whose parent is not buffered, whose fork cannot be restored, or whose number or size does not pass. */
  ghost predicate NotTaken(sha256: Digest, node: Node, b: Block)
    requires Valid(node.ring)
  {
    match DetectReorg(sha256, node.ring, b)
    case Err(_) => true
    case Ok(Fork(point)) => ClientRollback(node.client, point).None?
    case Ok(OnTip) =>
      node.client.core.None? || b.number != Engine.NextNumber(node.client.core.value) || !Passes(b)
  }

  /** It is refused and changes nothing, in whatever state the node is. */
  lemma RefusalChangesNothing(sha256: Digest, blake3: Digest, node: Node, b: Block)
    requires Valid(node.ring) && NotTaken(sha256, node, b)
    ensures ProcessBlock(sha256, blake3, node, b).1.Some? && ProcessBlock(sha256, blake3, node, b).0 == node
  {
    ApplyReachesEngine(blake3, node.client, b);
  }

  // ---- runs

  ghost function RunBlocks(sha256: Digest, blake3: Digest, node: Node, blocks: seq<Block>): Node
    requires Valid(node.ring)
    decreases |blocks|
  {
    if blocks == [] then node
    else
      ProcessKeepsBufferValid(sha256, blake3, node, blocks[0]);
      RunBlocks(sha256, blake3, ProcessBlock(sha256, blake3, node, blocks[0]).0, blocks[1..])
  }

  lemma {:induction false} RunOneMore(sha256: Digest, blake3: Digest, node: Node, blocks: seq<Block>, b: Block)
    requires Valid(node.ring)
    ensures Valid(RunBlocks(sha256, blake3, node, blocks).ring)
    ensures RunBlocks(sha256, blake3, node, blocks + [b])
         == ProcessBlock(sha256, blake3, RunBlocks(sha256, blake3, node, blocks), b).0
    decreases |blocks|
  {
    if blocks == [] {
      assert blocks + [b] == [b];
      RunSingle(sha256, blake3, node, b);
    } else {
      ProcessKeepsBufferValid(sha256, blake3, node, blocks[0]);
      RunOneMore(sha256, blake3, ProcessBlock(sha256, blake3, node, blocks[0]).0, blocks[1..], b);
      TailOfMore(blocks, b);
      RunFirst(sha256, blake3, node, blocks);
      RunFirst(sha256, blake3, node, blocks + [b]);
    }
  }

  lemma RunFirst(sha256: Digest, blake3: Digest, node: Node, blocks: seq<Block>)
    requires Valid(node.ring) && blocks != []
    ensures Valid(ProcessBlock(sha256, blake3, node, blocks[0]).0.ring)
    ensures RunBlocks(sha256, blake3, node, blocks)
         == RunBlocks(sha256, blake3, ProcessBlock(sha256, blake3, node, blocks[0]).0, blocks[1..])
  {
    ProcessKeepsBufferValid(sha256, blake3, node, blocks[0]);
  }

  lemma TailOfMore<T>(s: seq<T>, x: T)
    requires s != []
    ensures (s + [x])[0] == s[0] && (s + [x])[1..] == s[1..] + [x]
  {
  }

  lemma RunSingle(sha256: Digest, blake3: Digest, node: Node, b: Block)
    requires Valid(node.ring)
    ensures RunBlocks(sha256, blake3, node, [b]) == ProcessBlock(sha256, blake3, node, b).0
  {
    ProcessKeepsBufferValid(sha256, blake3, node, b);
    var one := ProcessBlock(sha256, blake3, node, b).0;
    assert RunBlocks(sha256, blake3, one, []) == one;
  }

  ghost function RunModel(sha256: Digest, genesis: Accounts, m: Model, blocks: seq<Block>): Model
    decreases |blocks|
  {
    if blocks == [] then m else RunModel(sha256, genesis, Next(sha256, genesis, m, blocks[0]), blocks[1..])
  }

  /** After every block of the run. */
  ghost predicate AlwaysRefines(
        sha256: Digest, blake3: Digest, genesis: Accounts, m: Model, node: Node, blocks: seq<Block>)
    requires Valid(node.ring)
    decreases |blocks|
  {
    && Refines(sha256, blake3, genesis, m, node)
    && if blocks == [] then true
       else
         ProcessKeepsBufferValid(sha256, blake3, node, blocks[0]);
         AlwaysRefines(sha256, blake3, genesis, Next(sha256, genesis, m, blocks[0]),
                       ProcessBlock(sha256, blake3, node, blocks[0]).0, blocks[1..])
  }

  /** No block of the run does harm, judged from the specification alone. */
  ghost predicate GoodRun(sha256: Digest, genesis: Accounts, m: Model, blocks: seq<Block>)
    decreases |blocks|
  {
    blocks == [] || (GoodBlock(sha256, genesis, m, blocks[0])
                     && GoodRun(sha256, genesis, Next(sha256, genesis, m, blocks[0]), blocks[1..]))
  }

  lemma {:induction false} RunRefinesIff(
        sha256: Digest, blake3: Digest, genesis: Accounts, m: Model, node: Node, blocks: seq<Block>)
    requires Refines(sha256, blake3, genesis, m, node) && Valid(node.ring)
    ensures AlwaysRefines(sha256, blake3, genesis, m, node, blocks) <==> GoodRun(sha256, genesis, m, blocks)
    ensures GoodRun(sha256, genesis, m, blocks) ==>
      Refines(sha256, blake3, genesis, RunModel(sha256, genesis, m, blocks), RunBlocks(sha256, blake3, node, blocks))
    decreases |blocks|
  {
    if blocks != [] {
      StepRefinesIff(sha256, blake3, genesis, m, node, blocks[0]);
      ProcessKeepsBufferValid(sha256, blake3, node, blocks[0]);
      if GoodBlock(sha256, genesis, m, blocks[0]) {
        RunRefinesIff(sha256, blake3, genesis, Next(sha256, genesis, m, blocks[0]),
                      ProcessBlock(sha256, blake3, node, blocks[0]).0, blocks[1..]);
      }
    }
  }

  function StartNode(genesis: Accounts): Node {
    EmptyNode(Client(0, Some(Engine.Genesis(genesis))))
  }

  function StartModel(): Model {
    Model([], [], 0)
  }

  lemma StartRefines(sha256: Digest, blake3: Digest, genesis: Accounts)
    ensures Refines(sha256, blake3, genesis, StartModel(), StartNode(genesis))
  {
    StartIsSynced(sha256, blake3, genesis);
  }

  /** From a fresh start, whatever blocks arrive: buffer and engine stand for the specification's chain
      throughout the run exactly when no block does harm. */
  lemma EndToEnd(sha256: Digest, blake3: Digest, genesis: Accounts, blocks: seq<Block>)
    ensures AlwaysRefines(sha256, blake3, genesis, StartModel(), StartNode(genesis), blocks)
       <==> GoodRun(sha256, genesis, StartModel(), blocks)
    ensures GoodRun(sha256, genesis, StartModel(), blocks) ==>
      Refines(sha256, blake3, genesis, RunModel(sha256, genesis, StartModel(), blocks),
              RunBlocks(sha256, blake3, StartNode(genesis), blocks))
  {
    StartRefines(sha256, blake3, genesis);
    RunRefinesIff(sha256, blake3, genesis, StartModel(), StartNode(genesis), blocks);
  }
}
