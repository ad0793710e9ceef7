/** Money over whole runs, failures included. */
module Conservation {
  import opened Wrappers
  import opened Bytes
  import opened Chain
  import opened Arithmetic256
  import opened Ledger
  import opened Engine
  import opened EngineRuns
  import opened Recovery
  import opened Ffi
  import opened FfiRuns
  import opened Codec

  /** The current accounts and those of every snapshot add up to the same total. */
  ghost predicate Funded(s: State, total: nat) {
    && Total(s.accounts) == total
    && forall i :: 0 <= i < |s.history| ==> Total(s.history[i].accounts) == total
  }

  lemma ApplyKeepsFunds(blake3: Digest, s: State, b: Block, total: nat)
    requires Funded(s, total) && total < Limit256()
    ensures Funded(Engine.Apply(blake3, s, b).0, total)
  {
    BlockConserves(s.accounts, b.transactions);
    SavedIsFunded(s, total);
  }

  lemma SavedIsFunded(s: State, total: nat)
    requires Funded(s, total)
    ensures forall i :: 0 <= i < |Saved(s)| ==> Total(Saved(s)[i].accounts) == total
  {
    var all := s.history + [Snapshot(s.number, s.accounts, s.root)];
    forall i | 0 <= i < |all|
      ensures Total(all[i].accounts) == total
    {
    }
  }

  lemma StepKeepsFunds(blake3: Digest, s: State, op: Op, total: nat)
    requires Funded(s, total) && total < Limit256()
    ensures Funded(Step(blake3, s, op).0, total)
  {
    match op
    case Apply(b) => ApplyKeepsFunds(blake3, s, b, total);
    case RollBack(target) =>
  }

  /** Below 2^256 no run of the engine makes or loses money: not by blocks that succeed, not by blocks
      that fail half way, not by rollbacks. */
  lemma {:induction false} RunKeepsFunds(blake3: Digest, s: State, ops: seq<Op>, total: nat)
    requires Funded(s, total) && total < Limit256()
    ensures Funded(After(blake3, s, ops), total)
    decreases |ops|
  {
    if ops != [] {
      AfterFirst(blake3, s, ops);
      StepKeepsFunds(blake3, s, ops[0], total);
      RunKeepsFunds(blake3, Step(blake3, s, ops[0]).0, ops[1..], total);
    }
  }

  lemma {:induction false} CallsKeepFunds(blake3: Digest, c: Client, ops: seq<Op>, total: nat)
    requires c.core.Some? && Funded(c.core.value, total) && total < Limit256()
    ensures var end := Calls(blake3, c, ops); end.core.Some? && Funded(end.core.value, total)
    decreases |ops|
  {
    if ops != [] {
      CallKeepsFunds(blake3, c, ops[0], total);
      CallsKeepFunds(blake3, Call(blake3, c, ops[0]), ops[1..], total);
    }
  }

  lemma CallKeepsFunds(blake3: Digest, c: Client, op: Op, total: nat)
    requires c.core.Some? && Funded(c.core.value, total) && total < Limit256()
    ensures var next := Call(blake3, c, op); next.core.Some? && Funded(next.core.value, total)
  {
    if op.Apply? {
      ApplyReachesEngine(blake3, c, op.block);
      ApplyKeepsFunds(blake3, c.core.value, op.block, total);
    }
  }

  ghost predicate AllZero(txs: seq<Transaction>) {
    forall i :: 0 <= i < |txs| ==> Value(txs[i].value) == 0
  }

  /** Where nobody owns anything, exactly the transfers of nothing succeed. */
  lemma {:induction false} OnlyZeroTransfers(m: Accounts, txs: seq<Transaction>)
    requires Total(m) == 0
    ensures ApplyTransactions(m, txs).error.None? <==> AllZero(txs)
    decreases |txs|
  {
    if txs != [] {
      var first := ApplyTransaction(m, txs[0]);
      BalanceWithinTotal(m, txs[0].from);
      BalanceWithinTotal(m, txs[0].to);
      TransferSucceeds(m, txs[0]);
      TransactionConserves(m, txs[0]);
      if first.error.None? {
        OnlyZeroTransfers(first.accounts, txs[1..]);
        assert forall i :: 1 <= i < |txs| ==> txs[i] == txs[1..][i - 1];
      }
    }
  }

  /** The boundary offers no way to fund an account. So after any calls since the start of the engine a block
      is accepted exactly when its number is next, its sizes pass, and all its transfers are of nothing. */
  lemma NothingToTransfer(blake3: Digest, ops: seq<Op>, b: Block)
    ensures var c := Calls(blake3, ClientInit(Uninitialised()), ops);
      && c.core.Some?
      && (ClientApply(blake3, c, b).1.Ok?
          <==> b.number == NextNumber(c.core.value) && FirstTooLarge(b.transactions, 0).None?
               && |EncodeBlock(b)| <= MAX_BLOCK_SIZE && AllZero(b.transactions))
  {
    var c := Calls(blake3, ClientInit(Uninitialised()), ops);
    CallsKeepLockStep(blake3, ClientInit(Uninitialised()), ops);
    NothingAtStart();
    CallsKeepFunds(blake3, ClientInit(Uninitialised()), ops, 0);
    OnlyZeroTransfers(c.core.value.accounts, b.transactions);
    ApplyReachesEngine(blake3, c, b);
  }

  lemma NothingAtStart()
    ensures Funded(Genesis(map[]), 0) && 0 < Limit256()
  {
  }
}
