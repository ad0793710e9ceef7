/** Eleven half-applied blocks are one too many: the rollback then restores what the first one left. */
module RecoveryExample {
  import opened Wrappers
  import opened Bytes
  import opened Chain
  import opened Arithmetic256
  import opened Ledger
  import opened Engine
  import opened Replays
  import opened EngineRuns
  import opened Recovery

  function Alice(): Address { Zeros(20) }

  function Bob(): Address { seq(20, _ => 1) }

  ghost function Pay(amount: nat): Transaction
    requires amount < Limit256()
  {
    Transaction(Alice(), Bob(), WordOf(amount), [])
  }

  /** Alice owns 20. */
  ghost function Twenty(): Accounts {
    AmountsFit();
    map[Alice() := Account(WordOf(20), 0)]
  }

  lemma AmountsFit()
    ensures 1000 < Limit256()
  {
    assert Pow256(2) == 65536;
    PowGrows(2, 32);
  }

  lemma {:induction false} PowGrows(m: nat, n: nat)
    requires m <= n
    ensures Pow256(m) <= Pow256(n)
    decreases n
  {
    if m < n {
      PowGrows(m, n - 1);
    }
  }

  /** Alice pays 1, which works, and then 100, which does not. */
  ghost function HalfBlock(): Block {
    AmountsFit();
    Block(1, Zeros(32), 0, [Pay(1), Pay(100)])
  }

  /** Alice has 20 - k, Bob k. */
  ghost predicate Paid(m: Accounts, k: nat) {
    Balance(m, Alice()) == 20 - k && Balance(m, Bob()) == k
  }

  /** The transactions get stuck after Alice has paid Bob 1. */
  ghost predicate PaysOneAndFails(m: Accounts, txs: seq<Transaction>, k: nat) {
    var r := ApplyTransactions(m, txs);
    r.error.Some? && Paid(r.accounts, k + 1)
  }

  lemma HalfPayment(m: Accounts, k: nat)
    requires k < 20 && Paid(m, k)
    ensures PaysOneAndFails(m, HalfBlock().transactions, k)
  {
    AmountsFit();
    assert Alice()[0] != Bob()[0];
    TransferSucceeds(m, Pay(1));
    TransferMeaning(m, Pay(1), Alice());
    TransferMeaning(m, Pay(1), Bob());
    var paid := ApplyTransaction(m, Pay(1)).accounts;
    TransferSucceeds(paid, Pay(100));
    AfterFirstTransaction(m, [Pay(1), Pay(100)]);
    AfterFirstTransaction(paid, [Pay(100)]);
    assert [Pay(1), Pay(100)][1..] == [Pay(100)];
  }

  /** Whenever Alice has something left, the block moves 1 and gets stuck. */
  ghost predicate Halves(b: Block) {
    && b.number == 1
    && forall m: Accounts, k: nat {:trigger PaysOneAndFails(m, b.transactions, k)} ::
         k < 20 && Paid(m, k) ==> PaysOneAndFails(m, b.transactions, k)
  }

  lemma HalfBlockHalves()
    ensures Halves(HalfBlock())
  {
    forall m: Accounts, k: nat | k < 20 && Paid(m, k)
      ensures PaysOneAndFails(m, HalfBlock().transactions, k)
    {
      HalfPayment(m, k);
    }
  }

  lemma HalfStep(blake3: Digest, s: State, b: Block, k: nat)
    requires Halves(b) && s.number == 0 && k < 20 && Paid(s.accounts, k)
    ensures var (next, effect) := Step(blake3, s, Op.Apply(b));
      effect == HalfDone && next.number == 0 && Paid(next.accounts, k + 1)
  {
    assert PaysOneAndFails(s.accounts, b.transactions, k);
    FailsHalfWay(blake3, s, b, k);
  }

  lemma FailsHalfWay(blake3: Digest, s: State, b: Block, k: nat)
    requires b.number == NextNumber(s) && PaysOneAndFails(s.accounts, b.transactions, k)
    ensures var (next, effect) := Step(blake3, s, Op.Apply(b));
      effect == HalfDone && next.number == s.number && Paid(next.accounts, k + 1)
  {
  }

  function Attempts(b: Block, n: nat): seq<Op>
    ensures |Attempts(b, n)| == n
  {
    if n == 0 then [] else [Op.Apply(b)] + Attempts(b, n - 1)
  }

  lemma {:induction false} AttemptsFail(blake3: Digest, s: State, b: Block, k: nat, n: nat)
    requires Halves(b) && s.number == 0 && k + n <= 20 && Paid(s.accounts, k)
    ensures Failing(blake3, s, Attempts(b, n))
    ensures var starts := StartingAccounts(blake3, s, Attempts(b, n));
      |starts| == n && (n > 0 ==> Balance(starts[0], Bob()) == k) && (n > 1 ==> Balance(starts[1], Bob()) == k + 1)
    decreases n
  {
    if n > 0 {
      HalfStep(blake3, s, b, k);
      AttemptsFail(blake3, Step(blake3, s, Op.Apply(b)).0, b, k + 1, n - 1);
      assert Attempts(b, n)[1..] == Attempts(b, n - 1);
    }
  }

  lemma TwentyIsPaid()
    ensures Paid(Twenty(), 0)
  {
    AmountsFit();
    assert Alice()[0] != Bob()[0];
  }

  lemma AttemptsFromTwenty(blake3: Digest, b: Block, n: nat)
    requires Halves(b) && 0 < n <= 11
    ensures var back := Rollback(After(blake3, Genesis(Twenty()), Attempts(b, n)), 0);
      && back.Some?
      && (n <= 10 ==> back.value.accounts == Twenty())
      && (n == 11 ==> Balance(back.value.accounts, Bob()) == 1)
  {
    TwentyIsPaid();
    GenesisAgrees(blake3, Twenty());
    AttemptsFail(blake3, Genesis(Twenty()), b, 0, n);
    FailureRecovery(blake3, Twenty(), [], Genesis(Twenty()), Attempts(b, n));
  }

  /** After ten attempts the rollback to block 0 restores the genesis accounts; after eleven, Bob keeps 1. */
  lemma ElevenIsOneTooMany(blake3: Digest)
    ensures var ten := Rollback(After(blake3, Genesis(Twenty()), Attempts(HalfBlock(), 10)), 0);
      ten.Some? && ten.value.accounts == Twenty()
    ensures var eleven := Rollback(After(blake3, Genesis(Twenty()), Attempts(HalfBlock(), 11)), 0);
      eleven.Some? && Balance(eleven.value.accounts, Bob()) == 1
  {
    HalfBlockHalves();
    AttemptsFromTwenty(blake3, HalfBlock(), 10);
    AttemptsFromTwenty(blake3, HalfBlock(), 11);
  }
}
