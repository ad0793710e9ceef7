/** The state engine as the object that is updated in place. */
module StateEngines {
  import opened Wrappers
  import opened Bytes
  import opened Chain
  import opened Arithmetic256
  import opened Ledger
  import opened StateRoot
  import opened Engine

  class StateEngine {
    const blake3: Digest
    var state: Accounts
    var blockNumber: U64
    var stateRoot: Hash
    var history: seq<Snapshot>

    constructor (blake3: Digest)
      ensures this.blake3 == blake3
      ensures View() == Genesis(map[])
    {
      this.blake3 := blake3;
      state := map[];
      blockNumber := 0;
      stateRoot := Zeros(32);
      history := [];
    }

    /** The whole state as one value. */
    ghost function View(): State
      reads this
    {
      State(state, blockNumber, stateRoot, history)
    }

    method SetAccount(address: Address, account: Account)
      modifies `state
      ensures state == old(state)[address := account]
    {
      state := state[address := account];
    }

    method ApplyBlock(block: Block) returns (r: Result<Hash, ApplyError>)
      modifies this
      ensures (View(), r) == Apply(blake3, old(View()), block)
    {
      var expected := (blockNumber + 1) % U64_LIMIT;
      if block.number != expected {
        return Err(InvalidBlockNumber(expected, block.number));
      }
      history := history + [Snapshot(blockNumber, state, stateRoot)];
      if |history| > MAX_HISTORY_SIZE {
        var excess := |history| - MAX_HISTORY_SIZE;
        history := history[excess..];
      }
      var i := 0;
      while i < |block.transactions|
        invariant 0 <= i <= |block.transactions|
        invariant blockNumber == old(blockNumber) && stateRoot == old(stateRoot)
        invariant history == Saved(old(View()))
        invariant ApplyTransactions(state, block.transactions[i..])
               == ApplyTransactions(old(state), block.transactions)
      {
        ghost var rest := block.transactions[i..];
        var failed := ApplyOne(block.transactions[i]);
        if failed.Some? {
          return Err(TransactionFailed(failed.value));
        }
        i := i + 1;
        assert rest[1..] == block.transactions[i..];
      }
      blockNumber := block.number;
      stateRoot := CalculateStateRoot(blake3, state);
      return Ok(stateRoot);
    }

    method ApplyOne(tx: Transaction) returns (failed: Option<TxError>)
      modifies `state
      ensures Applied(state, failed) == ApplyTransaction(old(state), tx)
    {
      var sender := GetAccount(state, tx.from);
      var rest := CheckedSub(sender.balance, tx.value);
      if rest.None? {
        return Some(InsufficientBalance);
      }
      SetAccount(tx.from, Account(rest.value, (sender.nonce + 1) % U64_LIMIT));
      var receiver := GetAccount(state, tx.to);
      var sum := CheckedAdd(receiver.balance, tx.value);
      if sum.None? {
        return Some(BalanceOverflow);
      }
      SetAccount(tx.to, receiver.(balance := sum.value));
      return None;
    }

    method RollbackTo(target: U64) returns (ok: bool)
      modifies this
      ensures ok == Rollback(old(View()), target).Some?
      ensures View() == if ok then Rollback(old(View()), target).value else old(View())
    {
      var p := 0;
      while p < |history| && history[p].number != target
        invariant 0 <= p <= |history|
        invariant forall i :: 0 <= i < p ==> history[i].number != target
      {
        p := p + 1;
      }
      if p == |history| {
        return false;
      }
      var snapshot := history[p];
      state := snapshot.accounts;
      blockNumber := snapshot.number;
      stateRoot := snapshot.root;
      history := history[..p + 1];
      return true;
    }
  }
}
