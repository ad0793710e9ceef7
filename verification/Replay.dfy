/** The simple specification the state engine is measured against: keep the list of blocks, roll
    back by taking a prefix, get the state by replaying the list. */
module Replays {
  import opened Wrappers
  import opened Bytes
  import opened Chain
  import opened Ledger
  import opened StateRoot
  import opened Engine

  /** The accounts after a branch of blocks, if every transaction on it succeeds. */
  ghost function Replay(genesis: Accounts, branch: seq<Block>): Option<Accounts> {
    if branch == [] then Some(genesis)
    else
      match Replay(genesis, branch[..|branch| - 1])
      case None => None
      case Some(m) =>
        var r := ApplyTransactions(m, branch[|branch| - 1].transactions);
        if r.error.None? then Some(r.accounts) else None
  }

  lemma ReplayAppend(genesis: Accounts, branch: seq<Block>, b: Block)
    ensures Replay(genesis, branch + [b])
         == match Replay(genesis, branch)
            case None => None
            case Some(m) =>
              var r := ApplyTransactions(m, b.transactions);
              if r.error.None? then Some(r.accounts) else None
  {
    assert (branch + [b])[..|branch|] == branch;
  }

  ghost predicate Numbered(branch: seq<Block>) {
    forall i :: 0 <= i < |branch| ==> branch[i].number == i + 1
  }

  /** The accounts and the root that the first n blocks of the branch lead to. */
  ghost predicate Recalls(blake3: Digest, genesis: Accounts, branch: seq<Block>, n: nat, m: Accounts, root: Hash) {
    && n <= |branch|
    && Replay(genesis, branch[..n]) == Some(m)
    && root == if n == 0 then Zeros(32) else Root(blake3, m)
  }

  ghost predicate RecallsAll(blake3: Digest, genesis: Accounts, branch: seq<Block>, history: seq<Snapshot>) {
    forall i :: 0 <= i < |history| ==>
      Recalls(blake3, genesis, branch, history[i].number, history[i].accounts, history[i].root)
  }

  ghost predicate NonDecreasing(history: seq<Snapshot>) {
    forall i, j :: 0 <= i < j < |history| ==> history[i].number <= history[j].number
  }

  /** The engine holds the replay of the branch, and so does every snapshot, in order, for its own
      prefix. */
  ghost predicate Agrees(blake3: Digest, genesis: Accounts, branch: seq<Block>, s: State) {
    && Numbered(branch)
    && s.number == |branch|
    && Recalls(blake3, genesis, branch, |branch|, s.accounts, s.root)
    && RecallsAll(blake3, genesis, branch, s.history)
    && NonDecreasing(s.history)
  }

  lemma GenesisAgrees(blake3: Digest, genesis: Accounts)
    ensures Agrees(blake3, genesis, [], Genesis(genesis))
  {
  }

  lemma PruningKeepsRecall(blake3: Digest, genesis: Accounts, branch: seq<Block>, history: seq<Snapshot>)
    requires RecallsAll(blake3, genesis, branch, history)
    ensures RecallsAll(blake3, genesis, branch, Pruned(history))
  {
  }

  lemma ExtendingKeepsRecall(blake3: Digest, genesis: Accounts, branch: seq<Block>, b: Block, history: seq<Snapshot>)
    requires RecallsAll(blake3, genesis, branch, history)
    ensures RecallsAll(blake3, genesis, branch + [b], history)
  {
    forall i | 0 <= i < |history|
      ensures Recalls(blake3, genesis, branch + [b], history[i].number, history[i].accounts, history[i].root)
    {
      assert (branch + [b])[..history[i].number] == branch[..history[i].number];
    }
  }

  lemma SavingKeepsRecall(blake3: Digest, genesis: Accounts, branch: seq<Block>, s: State)
    requires Agrees(blake3, genesis, branch, s)
    ensures RecallsAll(blake3, genesis, branch, Saved(s)) && NonDecreasing(Saved(s))
  {
    var history := s.history + [Snapshot(s.number, s.accounts, s.root)];
    forall i | 0 <= i < |history|
      ensures Recalls(blake3, genesis, branch, history[i].number, history[i].accounts, history[i].root)
    {
    }
    PruningKeepsRecall(blake3, genesis, branch, history);
  }

  /** The number and the accounts are those the branch leads to. */
  ghost predicate AtEndOf(genesis: Accounts, branch: seq<Block>, s: State) {
    s.number == |branch| && Replay(genesis, branch) == Some(s.accounts)
  }

  lemma AgreesAtEnd(blake3: Digest, genesis: Accounts, branch: seq<Block>, s: State)
    requires Agrees(blake3, genesis, branch, s)
    ensures AtEndOf(genesis, branch, s)
  {
    assert branch[..|branch|] == branch;
  }

  /** What an engine at the end of a branch does with a block: the number check, then the replay. */
  lemma ApplyOnBranch(blake3: Digest, genesis: Accounts, branch: seq<Block>, s: State, b: Block)
    requires AtEndOf(genesis, branch, s)
    ensures var (s', r) := Apply(blake3, s, b);
      if b.number != (|branch| + 1) % U64_LIMIT then r.Err? && s' == s
      else
        && (r.Ok? <==> Replay(genesis, branch + [b]).Some?)
        && s'.history == Saved(s)
        && (r.Ok? ==> s' == State(Replay(genesis, branch + [b]).value, b.number, r.value, Saved(s))
                      && r.value == Root(blake3, s'.accounts))
        && (r.Err? ==> r.error.TransactionFailed? && s'.number == s.number && s'.root == s.root
                       && s'.accounts == ApplyTransactions(s.accounts, b.transactions).accounts)
  {
    ReplayAppend(genesis, branch, b);
  }

  /** A block that is applied becomes the next block of the branch. Number 0 is the wrap-around of
      the 64-bit block number, which no branch shorter than 2^64 - 1 blocks can reach. */
  lemma ApplyExtends(blake3: Digest, genesis: Accounts, branch: seq<Block>, s: State, b: Block)
    requires Agrees(blake3, genesis, branch, s)
    requires Apply(blake3, s, b).1.Ok? && b.number != 0
    ensures Agrees(blake3, genesis, branch + [b], Apply(blake3, s, b).0)
    ensures Apply(blake3, s, b).1.value == Apply(blake3, s, b).0.root
  {
    AgreesAtEnd(blake3, genesis, branch, s);
    ApplyOnBranch(blake3, genesis, branch, s, b);
    SavingKeepsRecall(blake3, genesis, branch, s);
    ExtendingKeepsRecall(blake3, genesis, branch, b, Saved(s));
    ExtendedAgrees(blake3, genesis, branch, b, Apply(blake3, s, b).0);
  }

  lemma ExtendedAgrees(blake3: Digest, genesis: Accounts, branch: seq<Block>, b: Block, s: State)
    requires Numbered(branch) && b.number == |branch| + 1 == s.number
    requires Replay(genesis, branch + [b]) == Some(s.accounts) && s.root == Root(blake3, s.accounts)
    requires RecallsAll(blake3, genesis, branch + [b], s.history) && NonDecreasing(s.history)
    ensures Agrees(blake3, genesis, branch + [b], s)
  {
    assert (branch + [b])[..|branch| + 1] == branch + [b];
  }

  /** Exactly when the engine takes a block, in terms of the branch alone, and why it does not: a wrong number
      comes first, with the number expected and the one received. */
  lemma AppliesIff(blake3: Digest, genesis: Accounts, branch: seq<Block>, s: State, b: Block)
    requires Agrees(blake3, genesis, branch, s)
    ensures Apply(blake3, s, b).1.Ok?
       <==> b.number == (|branch| + 1) % U64_LIMIT && Replay(genesis, branch + [b]).Some?
    ensures b.number != (|branch| + 1) % U64_LIMIT ==>
      Apply(blake3, s, b).1 == Err(InvalidBlockNumber((|branch| + 1) % U64_LIMIT, b.number))
    ensures b.number == (|branch| + 1) % U64_LIMIT && Replay(genesis, branch + [b]).None? ==>
      && Replay(genesis, branch).Some?
      && var failed := ApplyTransactions(Replay(genesis, branch).value, b.transactions).error;
      failed.Some? && Apply(blake3, s, b).1 == Err(TransactionFailed(failed.value))
  {
    AgreesAtEnd(blake3, genesis, branch, s);
    ApplyOnBranch(blake3, genesis, branch, s, b);
  }

  /** Rolling back takes a prefix of the branch. */
  lemma RollbackTakesPrefix(blake3: Digest, genesis: Accounts, branch: seq<Block>, s: State, target: U64)
    requires Agrees(blake3, genesis, branch, s)
    requires Rollback(s, target).Some?
    ensures target <= |branch|
    ensures Agrees(blake3, genesis, branch[..target], Rollback(s, target).value)
  {
    var p := Position(s.history, target).value;
    var kept := s.history[..p + 1];
    assert branch[..target][..target] == branch[..target];
    forall i | 0 <= i < |kept|
      ensures Recalls(blake3, genesis, branch[..target], kept[i].number, kept[i].accounts, kept[i].root)
    {
      assert kept[i].number <= s.history[p].number == target;
      assert branch[..target][..kept[i].number] == branch[..kept[i].number];
    }
  }

  /** Applying blocks one after the other, as long as they succeed. */
  ghost function ApplyAll(blake3: Digest, s: State, blocks: seq<Block>): Option<State>
    decreases |blocks|
  {
    if blocks == [] then Some(s)
    else
      var (next, r) := Apply(blake3, s, blocks[0]);
      if r.Ok? then ApplyAll(blake3, next, blocks[1..]) else None
  }

  /** Rolling back and applying the same blocks again succeeds and gives the same accounts, number
      and root. */
  lemma RollbackThenReapply(blake3: Digest, genesis: Accounts, branch: seq<Block>, s: State, target: U64)
    requires Agrees(blake3, genesis, branch, s)
    requires Rollback(s, target).Some?
    ensures target <= |branch|
    ensures var again := ApplyAll(blake3, Rollback(s, target).value, branch[target..]);
      && again.Some?
      && again.value.accounts == s.accounts && again.value.number == s.number && again.value.root == s.root
  {
    RollbackTakesPrefix(blake3, genesis, branch, s, target);
    assert branch[..|branch|] == branch;
    ApplyRest(blake3, genesis, branch, target, Rollback(s, target).value);
    var again := ApplyAll(blake3, Rollback(s, target).value, branch[target..]).value;
    AgreementDetermines(blake3, genesis, branch, s, again);
  }

  /** Two engines that agree with one branch differ at most in their histories. */
  lemma AgreementDetermines(blake3: Digest, genesis: Accounts, branch: seq<Block>, s: State, t: State)
    requires Agrees(blake3, genesis, branch, s) && Agrees(blake3, genesis, branch, t)
    ensures s.accounts == t.accounts && s.number == t.number && s.root == t.root
  {
  }

  lemma {:induction false} ApplyRest(blake3: Digest, genesis: Accounts, branch: seq<Block>, k: nat, s: State)
    requires Numbered(branch) && Replay(genesis, branch).Some?
    requires k <= |branch| && Agrees(blake3, genesis, branch[..k], s)
    ensures var end := ApplyAll(blake3, s, branch[k..]);
      end.Some? && Agrees(blake3, genesis, branch, end.value)
    decreases |branch| - k
  {
    if k == |branch| {
      assert branch[..k] == branch;
    } else {
      BlockOfBranchApplies(blake3, genesis, branch, k, s);
      ApplyRest(blake3, genesis, branch, k + 1, Apply(blake3, s, branch[k]).0);
      assert branch[k..][1..] == branch[k + 1..];
    }
  }

  lemma BlockOfBranchApplies(blake3: Digest, genesis: Accounts, branch: seq<Block>, k: nat, s: State)
    requires Numbered(branch) && Replay(genesis, branch).Some?
    requires k < |branch| && Agrees(blake3, genesis, branch[..k], s)
    ensures Apply(blake3, s, branch[k]).1.Ok?
    ensures Agrees(blake3, genesis, branch[..k + 1], Apply(blake3, s, branch[k]).0)
  {
    assert branch[..k] + [branch[k]] == branch[..k + 1];
    ReplayPrefix(genesis, branch, k + 1);
    NextBlockApplies(blake3, genesis, branch[..k], s, branch[k]);
  }

  lemma NextBlockApplies(blake3: Digest, genesis: Accounts, branch: seq<Block>, s: State, b: Block)
    requires Agrees(blake3, genesis, branch, s)
    requires b.number == |branch| + 1 && Replay(genesis, branch + [b]).Some?
    ensures Apply(blake3, s, b).1.Ok?
    ensures Agrees(blake3, genesis, branch + [b], Apply(blake3, s, b).0)
  {
    AppliesIff(blake3, genesis, branch, s, b);
    ApplyExtends(blake3, genesis, branch, s, b);
  }

  lemma {:induction false} ReplayPrefix(genesis: Accounts, branch: seq<Block>, n: nat)
    requires n <= |branch|
    requires Replay(genesis, branch).Some?
    ensures Replay(genesis, branch[..n]).Some?
    decreases |branch|
  {
    if n == |branch| {
      assert branch[..n] == branch;
    } else {
      ReplayPrefix(genesis, branch[..|branch| - 1], n);
      assert branch[..|branch| - 1][..n] == branch[..n];
    }
  }
}
