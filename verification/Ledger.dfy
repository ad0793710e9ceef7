/** The account map and what one transaction does to it. */
module Ledger {
  import opened Wrappers
  import opened Bytes
  import opened Chain
  import opened Arithmetic256

  type Accounts = map<Address, Account>

  datatype TxError = InsufficientBalance | BalanceOverflow

  /** The accounts after an attempt. A failed attempt may leave changes behind. */
  datatype Applied = Applied(accounts: Accounts, error: Option<TxError>)

  function EmptyAccount(): Account { Account(Zeros(32), 0) }

  function GetAccount(m: Accounts, a: Address): Account {
    if a in m then m[a] else EmptyAccount()
  }

  /** An address that has no entry owns nothing. */
  function Balance(m: Accounts, a: Address): nat {
    if a in m then Value(m[a].balance) else 0
  }

  lemma BalanceIsStored(m: Accounts, a: Address)
    ensures Balance(m, a) == Value(GetAccount(m, a).balance)
  {
    ValueOfZeros(32);
  }

  /** The sender after paying, its nonce a wrapping 64-bit counter. */
  function Debited(m: Accounts, a: Address, rest: U256): Accounts {
    m[a := Account(rest, (GetAccount(m, a).nonce + 1) % U64_LIMIT)]
  }

  function Credited(m: Accounts, a: Address, sum: U256): Accounts {
    m[a := GetAccount(m, a).(balance := sum)]
  }

  /** Debit, count, then credit. */
  ghost function ApplyTransaction(m: Accounts, tx: Transaction): Applied {
    match Sub(GetAccount(m, tx.from).balance, tx.value)
    case None => Applied(m, Some(InsufficientBalance))
    case Some(rest) =>
      var debited := Debited(m, tx.from, rest);
      match Add(GetAccount(debited, tx.to).balance, tx.value)
      case None => Applied(debited, Some(BalanceOverflow))
      case Some(sum) => Applied(Credited(debited, tx.to, sum), None)
  }

  /** Transactions in order, stopping at the first that fails. */
  ghost function ApplyTransactions(m: Accounts, txs: seq<Transaction>): Applied
    decreases |txs|
  {
    if txs == [] then Applied(m, None)
    else
      var first := ApplyTransaction(m, txs[0]);
      if first.error.Some? then first else ApplyTransactions(first.accounts, txs[1..])
  }

  /** When a transfer goes through: the sender has the money and, unless it pays itself, the
      receiver has room for it. A transfer that is refused for want of money changes nothing. */
  lemma TransferSucceeds(m: Accounts, tx: Transaction)
    ensures var r := ApplyTransaction(m, tx);
      var v := Value(tx.value);
      && (r.error.None? <==> v <= Balance(m, tx.from) && (tx.from == tx.to || Balance(m, tx.to) + v < Limit256()))
      && (r.error == Some(InsufficientBalance) <==> Balance(m, tx.from) < v)
      && (r.error == Some(InsufficientBalance) ==> r.accounts == m)
  {
    BalanceIsStored(m, tx.from);
    match Sub(GetAccount(m, tx.from).balance, tx.value)
    case None =>
    case Some(rest) =>
      ValueBound(GetAccount(m, tx.from).balance);
      DebitedAt(m, tx.from, rest, tx.to);
      BalanceIsStored(Debited(m, tx.from, rest), tx.to);
  }

  /** What a transfer that goes through means, whatever the order of its steps: every balance and
      every nonce afterwards. A transfer to oneself only counts. */
  lemma TransferMeaning(m: Accounts, tx: Transaction, a: Address)
    requires ApplyTransaction(m, tx).error.None?
    ensures var m' := ApplyTransaction(m, tx).accounts;
      var v := Value(tx.value);
      && Balance(m', a) == Balance(m, a) - (if a == tx.from then v else 0) + (if a == tx.to then v else 0)
      && GetAccount(m', a).nonce == (GetAccount(m, a).nonce + if a == tx.from then 1 else 0) % U64_LIMIT
  {
    BalanceIsStored(m, tx.from);
    var rest := Sub(GetAccount(m, tx.from).balance, tx.value).value;
    var debited := Debited(m, tx.from, rest);
    DebitedAt(m, tx.from, rest, a);
    BalanceIsStored(debited, tx.to);
    CreditedAt(debited, tx.to, Add(GetAccount(debited, tx.to).balance, tx.value).value, a);
  }

  /** Which addresses have entries afterwards, which is what the state root depends on besides the entries: the
      sender and the receiver get one, even for a transfer of nothing; a refused credit leaves the sender's. */
  lemma TransferEntries(m: Accounts, tx: Transaction)
    ensures var r := ApplyTransaction(m, tx);
      && (r.error.None? ==> r.accounts.Keys == m.Keys + {tx.from, tx.to})
      && (r.error == Some(BalanceOverflow) ==> r.accounts.Keys == m.Keys + {tx.from})
      && (r.error == Some(InsufficientBalance) ==> r.accounts == m)
  {
  }

  function Owned(m: Accounts, a: Address): nat {
    if a in m then Value(m[a].balance) else 0
  }

  function NonceOf(m: Accounts, a: Address): U64 {
    if a in m then m[a].nonce else 0
  }

  lemma ReadsAsEntry(m: Accounts, a: Address)
    ensures Balance(m, a) == Owned(m, a) && GetAccount(m, a).nonce == NonceOf(m, a)
  {
  }

  lemma EntryAfterTransfer(m: Accounts, tx: Transaction, a: Address)
    requires ApplyTransaction(m, tx).error.None?
    ensures var m' := ApplyTransaction(m, tx).accounts;
      && NonceOf(m', a) == (NonceOf(m, a) + if a == tx.from then 1 else 0) % U64_LIMIT
      && Owned(m', a) == Owned(m, a) - (if a == tx.from then Value(tx.value) else 0)
                         + (if a == tx.to then Value(tx.value) else 0)
  {
    TransferMeaning(m, tx, a);
    ReadsAsEntry(m, a);
    ReadsAsEntry(ApplyTransaction(m, tx).accounts, a);
  }

  lemma EntryAfterOverflow(m: Accounts, tx: Transaction, a: Address)
    requires ApplyTransaction(m, tx).error == Some(BalanceOverflow)
    ensures var m' := ApplyTransaction(m, tx).accounts;
      && NonceOf(m', a) == (NonceOf(m, a) + if a == tx.from then 1 else 0) % U64_LIMIT
      && Owned(m', a) == Owned(m, a) - (if a == tx.from then Value(tx.value) else 0)
  {
    OverflowMeaning(m, tx, a);
    ReadsAsEntry(m, a);
    ReadsAsEntry(ApplyTransaction(m, tx).accounts, a);
  }

  /** Every entry afterwards, an address without one counting from 0. Entries of others are the same bytes. */
  lemma TransferEntry(m: Accounts, tx: Transaction, a: Address)
    requires a in ApplyTransaction(m, tx).accounts
    ensures var r := ApplyTransaction(m, tx);
      var owned, nonce := if a in m then Value(m[a].balance) else 0, if a in m then m[a].nonce else 0;
      var debited := a == tx.from && r.error != Some(InsufficientBalance);
      var credited := a == tx.to && r.error.None?;
      && r.accounts[a].nonce == (if debited then (nonce + 1) % U64_LIMIT else nonce)
      && Value(r.accounts[a].balance)
         == owned - (if debited then Value(tx.value) else 0) + (if credited then Value(tx.value) else 0)
  {
    var r := ApplyTransaction(m, tx);
    NonceStays(NonceOf(m, a));
    if r.error.None? {
      EntryAfterTransfer(m, tx, a);
    } else if r.error == Some(BalanceOverflow) {
      EntryAfterOverflow(m, tx, a);
    }
  }

  lemma OtherEntriesStay(m: Accounts, tx: Transaction, a: Address)
    requires a != tx.from && a != tx.to
    ensures var m' := ApplyTransaction(m, tx).accounts;
      (a in m' <==> a in m) && (a in m ==> m'[a] == m[a])
  {
  }

  lemma NonceStays(nonce: U64)
    ensures nonce % U64_LIMIT == nonce
  {
    DivUnique(nonce, U64_LIMIT, 0, nonce);
  }

  lemma OverflowMeaning(m: Accounts, tx: Transaction, a: Address)
    requires ApplyTransaction(m, tx).error == Some(BalanceOverflow)
    ensures var m' := ApplyTransaction(m, tx).accounts;
      && Balance(m', a) == Balance(m, a) - (if a == tx.from then Value(tx.value) else 0)
      && GetAccount(m', a).nonce == (GetAccount(m, a).nonce + if a == tx.from then 1 else 0) % U64_LIMIT
  {
    BalanceIsStored(m, tx.from);
    DebitedAt(m, tx.from, Sub(GetAccount(m, tx.from).balance, tx.value).value, a);
  }

  lemma DebitedAt(m: Accounts, from: Address, rest: U256, a: Address)
    ensures Balance(Debited(m, from, rest), a) == if a == from then Value(rest) else Balance(m, a)
    ensures GetAccount(Debited(m, from, rest), a).nonce
         == (GetAccount(m, a).nonce + if a == from then 1 else 0) % U64_LIMIT
  {
  }

  lemma CreditedAt(m: Accounts, to: Address, sum: U256, a: Address)
    ensures Balance(Credited(m, to, sum), a) == if a == to then Value(sum) else Balance(m, a)
    ensures GetAccount(Credited(m, to, sum), a).nonce == GetAccount(m, a).nonce
  {
  }

  // ---- lists of transactions

  lemma SingleTransaction(m: Accounts, tx: Transaction)
    ensures ApplyTransactions(m, []) == Applied(m, None)
    ensures ApplyTransactions(m, [tx]) == ApplyTransaction(m, tx)
  {
    assert [tx][1..] == [];
  }

  /** One list after another: the first failure ends it, otherwise the second list goes on where the first left
      off. */
  lemma {:induction false} TransactionsInOrder(m: Accounts, first: seq<Transaction>, later: seq<Transaction>)
    ensures var r := ApplyTransactions(m, first);
      ApplyTransactions(m, first + later) == if r.error.Some? then r else ApplyTransactions(r.accounts, later)
    decreases |first|
  {
    if first == [] {
      assert first + later == later;
    } else {
      AfterFirstTransaction(m, first);
      AfterFirstTransaction(m, first + later);
      assert (first + later)[1..] == first[1..] + later;
      var r := ApplyTransaction(m, first[0]);
      if r.error.None? {
        TransactionsInOrder(r.accounts, first[1..], later);
      }
    }
  }

  // ---- what a failed list of transactions leaves behind

  /** Whether the account is debited, and its nonce counted: by everything it sends but what is refused for want
      of money. */
  ghost function Debits(m: Accounts, tx: Transaction, a: Address): nat {
    if tx.from == a && ApplyTransaction(m, tx).error != Some(InsufficientBalance) then 1 else 0
  }

  /** A 64-bit counter after fewer than 2^64 counts. */
  predicate Advanced(before: U64, after: U64, count: nat) {
    after == before + count || after == before + count - U64_LIMIT
  }

  lemma OneCount(n: U64, k: nat)
    requires k <= 1
    ensures Advanced(n, (n + k) % U64_LIMIT, k)
  {
    if n + k < U64_LIMIT {
      DivUnique(n + k, U64_LIMIT, 0, n + k);
    }
  }

  lemma NonceAfter(m: Accounts, tx: Transaction, a: Address)
    ensures Advanced(GetAccount(m, a).nonce, GetAccount(ApplyTransaction(m, tx).accounts, a).nonce, Debits(m, tx, a))
  {
    var r := ApplyTransaction(m, tx);
    if r.error.None? {
      TransferMeaning(m, tx, a);
      OneCount(GetAccount(m, a).nonce, if a == tx.from then 1 else 0);
    } else if r.error == Some(BalanceOverflow) {
      NonceAfterOverflow(m, tx, a);
    }
  }

  lemma NonceAfterOverflow(m: Accounts, tx: Transaction, a: Address)
    requires ApplyTransaction(m, tx).error == Some(BalanceOverflow)
    ensures Advanced(GetAccount(m, a).nonce, GetAccount(ApplyTransaction(m, tx).accounts, a).nonce,
                     if a == tx.from then 1 else 0)
  {
    DebitedAt(m, tx.from, Sub(GetAccount(m, tx.from).balance, tx.value).value, a);
    OneCount(GetAccount(m, a).nonce, if a == tx.from then 1 else 0);
  }

  lemma AfterFirstTransaction(m: Accounts, txs: seq<Transaction>)
    requires txs != []
    ensures var first := ApplyTransaction(m, txs[0]);
      ApplyTransactions(m, txs) == if first.error.Some? then first else ApplyTransactions(first.accounts, txs[1..])
  {
  }

  lemma {:induction false} NonceCounts(m: Accounts, txs: seq<Transaction>, a: Address) returns (count: nat)
    requires |txs| < U64_LIMIT
    ensures count <= |txs|
    ensures Advanced(GetAccount(m, a).nonce, GetAccount(ApplyTransactions(m, txs).accounts, a).nonce, count)
    ensures txs != [] ==> count >= Debits(m, txs[0], a)
    decreases |txs|
  {
    count := 0;
    if txs != [] {
      AfterFirstTransaction(m, txs);
      NonceAfter(m, txs[0], a);
      count := Debits(m, txs[0], a);
      var first := ApplyTransaction(m, txs[0]);
      if first.error.None? {
        var more := NonceCounts(first.accounts, txs[1..], a);
        count := count + more;
      }
    }
  }

  /** The first transaction asks for more than its sender has. */
  ghost predicate RefusedAtOnce(m: Accounts, txs: seq<Transaction>) {
    txs != [] && Balance(m, txs[0].from) < Value(txs[0].value)
  }

  /** A list of transactions that fails leaves the accounts as they were exactly when the very first one is
      refused for want of money. Otherwise at least its sender's nonce has moved. */
  lemma NoLeftoversIff(m: Accounts, txs: seq<Transaction>)
    requires ApplyTransactions(m, txs).error.Some? && |txs| < U64_LIMIT
    ensures ApplyTransactions(m, txs).accounts == m <==> RefusedAtOnce(m, txs)
  {
    TransferSucceeds(m, txs[0]);
    if !RefusedAtOnce(m, txs) {
      var a := txs[0].from;
      var count := NonceCounts(m, txs, a);
    }
  }

  /** The sum of all balances. */
  ghost function Total(m: Accounts): nat
    decreases |m|
  {
    if |m| == 0 then 0
    else
      var a :| a in m;
      Value(m[a].balance) + Total(m - {a})
  }

  lemma {:induction false} TotalWithout(m: Accounts, a: Address)
    requires a in m
    ensures Total(m) == Value(m[a].balance) + Total(m - {a})
    decreases |m|
  {
    var pick :| pick in m && Total(m) == Value(m[pick].balance) + Total(m - {pick});
    if pick != a {
      TotalWithout(m - {pick}, a);
      TotalWithout(m - {a}, pick);
      RemoveBoth(m, pick, a);
    }
  }

  lemma RemoveBoth<K, V>(m: map<K, V>, j: K, k: K)
    ensures m - {j} - {k} == m - {k} - {j}
  {
  }

  lemma TotalAfterSet(m: Accounts, a: Address, account: Account)
    ensures Total(m[a := account]) + Balance(m, a) == Total(m) + Value(account.balance)
  {
    TotalWithout(m[a := account], a);
    SetThenRemove(m, a, account);
    if a in m {
      TotalWithout(m, a);
    }
  }

  lemma SetThenRemove<K, V>(m: map<K, V>, k: K, v: V)
    ensures m[k := v] - {k} == m - {k}
    ensures k !in m ==> m - {k} == m
  {
  }

  lemma BalanceWithinTotal(m: Accounts, a: Address)
    ensures Balance(m, a) <= Total(m)
  {
    if a in m {
      TotalWithout(m, a);
    }
  }

  /** A transaction keeps the total. Only a credit that overflows loses money (the debit stays),
      and that takes a total of 2^256 or more to begin with. */
  lemma TransactionConserves(m: Accounts, tx: Transaction)
    ensures var r := ApplyTransaction(m, tx);
      && (r.error != Some(BalanceOverflow) ==> Total(r.accounts) == Total(m))
      && (r.error == Some(BalanceOverflow) ==>
            Total(r.accounts) == Total(m) - Value(tx.value) && Limit256() <= Total(m))
  {
    match Sub(GetAccount(m, tx.from).balance, tx.value)
    case None =>
    case Some(rest) =>
      var debited := Debited(m, tx.from, rest);
      BalanceIsStored(m, tx.from);
      BalanceIsStored(debited, tx.to);
      TotalAfterSet(m, tx.from, debited[tx.from]);
      BalanceWithinTotal(debited, tx.to);
      if Add(GetAccount(debited, tx.to).balance, tx.value).Some? {
        var sum := Add(GetAccount(debited, tx.to).balance, tx.value).value;
        TotalAfterSet(debited, tx.to, GetAccount(debited, tx.to).(balance := sum));
      }
  }

  /** A block that succeeds keeps the total; below 2^256 a block that fails half way keeps it too,
      because the overflow cannot happen. */
  lemma {:induction false} BlockConserves(m: Accounts, txs: seq<Transaction>)
    ensures var r := ApplyTransactions(m, txs);
      && (r.error != Some(BalanceOverflow) ==> Total(r.accounts) == Total(m))
      && (Total(m) < Limit256() ==> r.error != Some(BalanceOverflow))
      && Total(r.accounts) <= Total(m)
    decreases |txs|
  {
    if txs != [] {
      var first := ApplyTransaction(m, txs[0]);
      TransactionConserves(m, txs[0]);
      if first.error.None? {
        BlockConserves(first.accounts, txs[1..]);
      }
    }
  }
}
