/** The state engine as a value: the accounts, the tip's number and root, and at most ten
    snapshots, with what applying a block and rolling back do to them. */
module Engine {
  import opened Wrappers
  import opened Bytes
  import opened Chain
  import opened Ledger
  import opened StateRoot

  const MAX_HISTORY_SIZE: nat := 10

  datatype Snapshot = Snapshot(number: U64, accounts: Accounts, root: Hash)

  datatype State = State(accounts: Accounts, number: U64, root: Hash, history: seq<Snapshot>)

  datatype ApplyError =
    | InvalidBlockNumber(expected: U64, got: U64)
    | TransactionFailed(error: TxError)

  /** Funded accounts and nothing applied yet: the root is all zeros, not a digest. */
  function Genesis(accounts: Accounts): State {
    State(accounts, 0, Zeros(32), [])
  }

  function Pruned(history: seq<Snapshot>): (h: seq<Snapshot>)
    ensures |h| <= MAX_HISTORY_SIZE
  {
    if |history| > MAX_HISTORY_SIZE then history[|history| - MAX_HISTORY_SIZE..] else history
  }

  /** The history after the current state has been saved. */
  function Saved(s: State): seq<Snapshot> {
    Pruned(s.history + [Snapshot(s.number, s.accounts, s.root)])
  }

  function NextNumber(s: State): U64 {
    (s.number + 1) % U64_LIMIT
  }

  /** Applying a block. A refused number changes nothing; a failing transaction leaves the saved
      snapshot and the effects of the transactions before it. */
  ghost function Apply(blake3: Digest, s: State, b: Block): (State, Result<Hash, ApplyError>) {
    if b.number != NextNumber(s) then
      (s, Err(InvalidBlockNumber(NextNumber(s), b.number)))
    else
      var r := ApplyTransactions(s.accounts, b.transactions);
      if r.error.Some? then
        (s.(accounts := r.accounts, history := Saved(s)), Err(TransactionFailed(r.error.value)))
      else
        (State(r.accounts, b.number, Root(blake3, r.accounts), Saved(s)), Ok(Root(blake3, r.accounts)))
  }

  /** The position of the oldest snapshot with that number. */
  function Position(history: seq<Snapshot>, target: U64): (p: Option<nat>)
    ensures p.Some? ==>
      && p.value < |history| && history[p.value].number == target
      && forall i :: 0 <= i < p.value ==> history[i].number != target
    ensures p.None? ==> forall i :: 0 <= i < |history| ==> history[i].number != target
  {
    if history == [] then None
    else if history[0].number == target then Some(0)
    else
      match Position(history[1..], target)
      case None =>
        assert forall i :: 1 <= i < |history| ==> history[i] == history[1..][i - 1];
        None
      case Some(p) =>
        assert forall i :: 1 <= i < |history| ==> history[i] == history[1..][i - 1];
        Some(p + 1)
  }

  /** Rolling back restores the oldest snapshot of the target and keeps it. */
  function Rollback(s: State, target: U64): Option<State> {
    match Position(s.history, target)
    case None => None
    case Some(p) =>
      var snapshot := s.history[p];
      Some(State(snapshot.accounts, snapshot.number, snapshot.root, s.history[..p + 1]))
  }
}
