/** What blocks leave behind that are refused on the tip. */
module ReorgRefusals {
  import opened Wrappers
  import opened Bytes
  import opened Chain
  import opened Arithmetic256
  import opened Ledger
  import opened Circular
  import opened Codec
  import opened Ffi
  import opened Conservation
  import opened Reorg
  import opened Replays
  import opened ReorgSync
  import opened ReorgRuns
  import Engine

  /** The next block on the tip, but for its transactions. */
  ghost predicate NextOnTop(sha256: Digest, chain: seq<Block>, b: Block) {
    Parent(sha256, chain, b) == Some(|chain|) && b.number == (|chain| + 1) % U64_LIMIT && Passes(b)
  }

  // ---- leftovers

  lemma TakenAsItIs(sha256: Digest, blake3: Digest, node: Node, b: Block)
    requires Valid(node.ring) && DetectReorg(sha256, node.ring, b) == Ok(OnTip)
    requires LockStep(node.client) && node.client.core.Some?
    requires b.number == Engine.NextNumber(node.client.core.value) && Passes(b)
    ensures var (node', e) := ProcessBlock(sha256, blake3, node, b);
      var r := ApplyTransactions(node.client.core.value.accounts, b.transactions);
      && (e.None? <==> r.error.None?)
      && node'.client.core.Some? && node'.client.core.value.accounts == r.accounts
  {
    ApplyReachesEngine(blake3, node.client, b);
  }

  lemma GetsStuck(sha256: Digest, blake3: Digest, genesis: Accounts, m: Model, node: Node, bad: Block)
    requires Refines(sha256, blake3, genesis, m, node)
    requires NextOnTop(sha256, m.chain, bad) && !Extends(genesis, m.chain, bad, |m.chain|)
    ensures Valid(node.ring)
    ensures ProcessBlock(sha256, blake3, node, bad).1.Some?
    ensures ProcessBlock(sha256, blake3, node, bad).0 == node.(client := StuckClient(node.client, bad))
  {
    DetectFindsParent(sha256, node.ring, m.chain, bad);
    TipUnfolds(sha256, blake3, node, bad);
    AgreesAtEnd(blake3, genesis, m.chain, node.client.core.value);
    ClientOnBranch(blake3, genesis, m.chain, node.client, bad);
    ExtendsTip(genesis, m.chain, bad);
  }

  /** After a block that got stuck, the next block on the tip is not applied to the chain's state but to what the
      stuck block left: nothing rolls it back. */
  lemma NextBlockBuildsOnLeftovers(
        sha256: Digest, blake3: Digest, genesis: Accounts, m: Model, node: Node, bad: Block, b: Block)
    requires Refines(sha256, blake3, genesis, m, node) && NextOnTop(sha256, m.chain, b)
    requires NextOnTop(sha256, m.chain, bad) && !Extends(genesis, m.chain, bad, |m.chain|)
    ensures Valid(node.ring)
    ensures var (stuck, e) := ProcessBlock(sha256, blake3, node, bad);
      var left := ApplyTransactions(node.client.core.value.accounts, bad.transactions).accounts;
      var r := ApplyTransactions(left, b.transactions);
      && e.Some? && Valid(stuck.ring)
      && var (node', e') := ProcessBlock(sha256, blake3, stuck, b);
      && (e'.None? <==> r.error.None?)
      && node'.client.core.Some? && node'.client.core.value.accounts == r.accounts
  {
    GetsStuck(sha256, blake3, genesis, m, node, bad);
    DetectFindsParent(sha256, node.ring, m.chain, b);
    TakenAsItIs(sha256, blake3, node.(client := StuckClient(node.client, bad)), b);
  }

  /** A block that pays nothing and then 1. */
  ghost function Unfunded(): Block {
    OneFits();
    var zero := Transaction(Zeros(20), Zeros(20), WordOf(0), []);
    Block(1, Zeros(32), 0, [zero, zero.(value := WordOf(1))])
  }

  lemma OneFits()
    ensures 1 < Limit256()
  {
  }

  /** From a fresh start: block 1 is refused because of its second transaction, another block 1 without any
      transactions is accepted, and the accounts are not those of the accepted chain. */
  lemma LeftoversStay(sha256: Digest, blake3: Digest)
    ensures var good := Block(1, Zeros(32), 0, []);
      var (stuck, e) := ProcessBlock(sha256, blake3, StartNode(map[]), Unfunded());
      && e.Some? && Valid(stuck.ring)
      && var (node', e') := ProcessBlock(sha256, blake3, stuck, good);
      && e'.None? && node'.client.core.Some?
      && Replay(map[], [good]) == Some(map[]) && node'.client.core.value.accounts != map[]
  {
    var good := Block(1, Zeros(32), 0, []);
    StartIsSynced(sha256, blake3, map[]);
    UnfundedIsStuck(sha256);
    EmptyPasses(sha256, good);
    NextBlockBuildsOnLeftovers(sha256, blake3, map[], StartModel(), StartNode(map[]), Unfunded(), good);
  }

  lemma EmptyPasses(sha256: Digest, b: Block)
    requires b.transactions == [] && b.number == 1
    ensures NextOnTop(sha256, [], b) && Replay(map[], [b]) == Some(map[])
  {
    PayloadLength(b.transactions);
    assert BuildsOn(sha256, [], b, 0);
    ReplayAppend(map[], [], b);
    assert [] + [b] == [b];
  }

  lemma UnfundedIsStuck(sha256: Digest)
    ensures NextOnTop(sha256, [], Unfunded()) && !Extends(map[], [], Unfunded(), 0)
    ensures ApplyTransactions(map[], Unfunded().transactions).accounts != map[]
  {
    var b := Unfunded();
    UnfundedFails();
    PayloadLength(b.transactions);
    assert BuildsOn(sha256, [], b, 0);
    ReplayAppend(map[], [], b);
  }

  lemma UnfundedFails()
    ensures var r := ApplyTransactions(map[], Unfunded().transactions);
      r.error.Some? && r.accounts != map[]
  {
    var txs := Unfunded().transactions;
    OneFits();
    assert txs[1].value == WordOf(1);
    OnlyZeroTransfers(map[], txs);
    NoLeftoversIff(map[], txs);
  }

  // ---- refusals that leave no trace in the accounts

  /** The next block on the tip, refused at its first transaction for want of money. */
  ghost predicate Bounces(sha256: Digest, genesis: Accounts, chain: seq<Block>, b: Block) {
    && NextOnTop(sha256, chain, b)
    && Replay(genesis, chain).Some? && RefusedAtOnce(Replay(genesis, chain).value, b.transactions)
  }

  lemma BounceOnlySaves(sha256: Digest, genesis: Accounts, m: Model, b: Block)
    requires Bounces(sha256, genesis, m.chain, b)
    ensures GoodBlock(sha256, genesis, m, b) && !Accepts(sha256, genesis, m, b)
    ensures Next(sha256, genesis, m, b) == m.(retained := Keep(m.retained, |m.chain|))
  {
    TransferSucceeds(Replay(genesis, m.chain).value, b.transactions[0]);
    ReplayAppend(genesis, m.chain, b);
    ExtendsTip(genesis, m.chain, b);
  }

  function Copies(number: nat, count: nat): (copies: seq<nat>)
    ensures |copies| == count && forall i :: 0 <= i < count ==> copies[i] == number
  {
    seq(count, _ => number)
  }

  lemma {:induction false} BouncesOnlySave(sha256: Digest, genesis: Accounts, m: Model, blocks: seq<Block>)
    requires forall i :: 0 <= i < |blocks| ==> Bounces(sha256, genesis, m.chain, blocks[i])
    requires |m.retained| <= Engine.MAX_HISTORY_SIZE
    ensures GoodRun(sha256, genesis, m, blocks)
    ensures RunModel(sha256, genesis, m, blocks)
         == m.(retained := LastN(m.retained + Copies(|m.chain|, |blocks|), Engine.MAX_HISTORY_SIZE))
    decreases |blocks|
  {
    if blocks == [] {
      assert m.retained + Copies(|m.chain|, 0) == m.retained;
    } else {
      BounceOnlySaves(sha256, genesis, m, blocks[0]);
      BouncesOnlySave(sha256, genesis, Next(sha256, genesis, m, blocks[0]), blocks[1..]);
      KeepThenCopies(m.retained, |m.chain|, |blocks| - 1);
    }
  }

  lemma KeepThenCopies(retained: seq<nat>, number: nat, count: nat)
    ensures LastN(Keep(retained, number) + Copies(number, count), Engine.MAX_HISTORY_SIZE)
         == LastN(retained + Copies(number, count + 1), Engine.MAX_HISTORY_SIZE)
  {
    assert retained + Copies(number, count + 1) == retained + [number] + Copies(number, count);
  }

  /** Every block that bounces off the tip still takes one of the ten snapshots. After ten of them, each refused
      and none touching the accounts, no reorganisation goes through any more. */
  lemma BouncesEndReorgs(
        sha256: Digest, blake3: Digest, genesis: Accounts, m: Model, node: Node, blocks: seq<Block>, b: Block)
    requires Refines(sha256, blake3, genesis, m, node) && Valid(node.ring)
    requires |blocks| >= Engine.MAX_HISTORY_SIZE
    requires forall i :: 0 <= i < |blocks| ==> Bounces(sha256, genesis, m.chain, blocks[i])
    requires Parent(sha256, m.chain, b).Some? && Parent(sha256, m.chain, b).value < |m.chain|
    ensures var end := RunBlocks(sha256, blake3, node, blocks);
      && Synced(sha256, blake3, genesis, m.chain, end) && Valid(end.ring)
      && ProcessBlock(sha256, blake3, end, b) == (end, Some(RollbackFailed))
  {
    RunRefinesIff(sha256, blake3, genesis, m, node, blocks);
    BouncesFill(sha256, genesis, m, blocks);
    var end, m' := RunBlocks(sha256, blake3, node, blocks), RunModel(sha256, genesis, m, blocks);
    ForkOutOfReach(sha256, blake3, genesis, m', end, b);
  }

  lemma BouncesFill(sha256: Digest, genesis: Accounts, m: Model, blocks: seq<Block>)
    requires forall i :: 0 <= i < |blocks| ==> Bounces(sha256, genesis, m.chain, blocks[i])
    requires |blocks| >= Engine.MAX_HISTORY_SIZE >= |m.retained|
    ensures GoodRun(sha256, genesis, m, blocks)
    ensures var end := RunModel(sha256, genesis, m, blocks); end.chain == m.chain && Oldest(end.retained) == |m.chain|
  {
    BouncesOnlySave(sha256, genesis, m, blocks);
  }

  lemma ForkOutOfReach(sha256: Digest, blake3: Digest, genesis: Accounts, m: Model, node: Node, b: Block)
    requires Refines(sha256, blake3, genesis, m, node)
    requires Parent(sha256, m.chain, b).Some? && Parent(sha256, m.chain, b).value < |m.chain|
    requires Oldest(m.retained) == |m.chain|
    ensures Valid(node.ring) && ProcessBlock(sha256, blake3, node, b) == (node, Some(RollbackFailed))
  {
    ForkAccepts(sha256, blake3, genesis, m, node, b, m.chain[Parent(sha256, m.chain, b).value].number - 1);
  }
}
