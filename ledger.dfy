/**
 * The two ledger tables, `accounts` and `transactions`, as the server and the maintenance
 * scripts see them. Amounts and balances are integer cents and timestamps are integers.
 */
module Ledger {
  import opened Wrappers

  datatype AccountType = Checking | Savings {
    /** The value stored in the `account_type` column. */
    function Name(): string {
      match this
      case Checking => "checking"
      case Savings => "savings"
    }
  }

  /** Only `"active"` is ever tested; every other stored status is kept as its text. */
  datatype AccountStatus = Active | Inactive(status: string)

  datatype Account = Account(
    id: int,
    userId: int,
    accountNumber: string,
    accountType: AccountType,
    balance: int,
    status: AccountStatus)

  datatype TransactionType = Deposit | Withdrawal

  /** Only `"completed"` is ever tested; every other stored status is kept as its text. */
  datatype TransactionStatus = Completed | NotCompleted(status: string)

  datatype Transaction = Transaction(
    id: int,
    accountId: int,
    kind: TransactionType,
    amount: int,
    description: string,
    status: TransactionStatus,
    createdAt: int,
    processedAt: Option<int>)

  /** Account ids are the map keys, allocated upwards from 1; numbers are unique; one account per owner and type. */
  predicate AccountsWellFormed(accounts: map<int, Account>, nextAccountId: int) {
    && 1 <= nextAccountId
    && (forall id :: id in accounts ==> accounts[id].id == id && 1 <= id < nextAccountId)
    && (forall i, j :: i in accounts && j in accounts && i != j ==>
          accounts[i].accountNumber != accounts[j].accountNumber)
    && (forall i, j :: i in accounts && j in accounts && i != j ==>
          accounts[i].userId != accounts[j].userId || accounts[i].accountType != accounts[j].accountType)
  }

  /**
   * Every row belongs to a stored account and carries a processing time (every writer sets
   * `processed_at`); row ids are allocated upwards from 1, in insertion order.
   */
  predicate LogWellFormed(log: seq<Transaction>, accounts: map<int, Account>, nextTransactionId: int) {
    && 1 <= nextTransactionId
    && (forall k :: 0 <= k < |log| ==>
          log[k].accountId in accounts && 1 <= log[k].id < nextTransactionId && log[k].processedAt.Some?)
    && (forall k, l :: 0 <= k < l < |log| ==> log[k].id < log[l].id)
  }

  /** What one row adds to the recomputed balance of `accountId`: its amount when completed, whatever its type. */
  function Contribution(tx: Transaction, accountId: int): int {
    if tx.accountId == accountId && tx.status == Completed then tx.amount else 0
  }

  /** The recomputed balance: the total of the completed rows of `accountId`. */
  function CompletedSum(log: seq<Transaction>, accountId: int): int {
    if log == [] then 0 else CompletedSum(log[..|log| - 1], accountId) + Contribution(log[|log| - 1], accountId)
  }

  /** Every stored balance equals its recomputed total. */
  predicate BalancesMatch(accounts: map<int, Account>, log: seq<Transaction>) {
    forall id :: id in accounts ==> accounts[id].balance == CompletedSum(log, id)
  }

  /** The accounts reconciliation reports: stored and recomputed balances differ (by at least a cent). */
  function MismatchedIds(accounts: map<int, Account>, log: seq<Transaction>): (ids: set<int>)
    ensures ids <= accounts.Keys
    ensures forall id :: id in ids <==> id in accounts && accounts[id].balance != CompletedSum(log, id)
  {
    set id | id in accounts && accounts[id].balance != CompletedSum(log, id)
  }

  /** Reconciliation reports nothing exactly when every balance matches. */
  lemma NoMismatchIffBalancesMatch(accounts: map<int, Account>, log: seq<Transaction>)
    ensures MismatchedIds(accounts, log) == {} <==> BalancesMatch(accounts, log)
  {
    if !BalancesMatch(accounts, log) {
      var id :| id in accounts && accounts[id].balance != CompletedSum(log, id);
      assert id in MismatchedIds(accounts, log);
    }
  }

  /** The rows of one account, in the order they are stored. */
  function TransactionsOf(log: seq<Transaction>, accountId: int): (rows: seq<Transaction>)
    ensures |rows| <= |log|
    ensures forall k :: 0 <= k < |rows| ==> rows[k].accountId == accountId
  {
    if log == [] then []
    else
      var last := log[|log| - 1];
      TransactionsOf(log[..|log| - 1], accountId) + (if last.accountId == accountId then [last] else [])
  }

  /** A row is among an account's rows exactly when it is stored and belongs to that account. */
  lemma {:induction false} TransactionsOfMembership(log: seq<Transaction>, accountId: int, tx: Transaction)
    ensures tx in TransactionsOf(log, accountId) <==> tx in log && tx.accountId == accountId
  {
    if log != [] {
      var init := log[..|log| - 1];
      TransactionsOfMembership(init, accountId, tx);
      assert log == init + [log[|log| - 1]];
    }
  }

  /** Appending one row adds exactly its contribution. */
  lemma CompletedSumAppend(log: seq<Transaction>, tx: Transaction, accountId: int)
    ensures CompletedSum(log + [tx], accountId) == CompletedSum(log, accountId) + Contribution(tx, accountId)
  {
    assert (log + [tx])[..|log|] == log;
  }

  lemma {:induction false} CompletedSumConcat(a: seq<Transaction>, b: seq<Transaction>, accountId: int)
    ensures CompletedSum(a + b, accountId) == CompletedSum(a, accountId) + CompletedSum(b, accountId)
  {
    if b != [] {
      var init := b[..|b| - 1];
      CompletedSumConcat(a, init, accountId);
      assert (a + b)[..|a + b| - 1] == a + init;
      assert (a + b)[|a + b| - 1] == b[|b| - 1];
    } else {
      assert a + b == a;
    }
  }

  /** The recomputed balance does not depend on the order the rows come back in. */
  lemma {:induction false} CompletedSumPermutation(a: seq<Transaction>, b: seq<Transaction>, accountId: int)
    requires multiset(a) == multiset(b)
    ensures CompletedSum(a, accountId) == CompletedSum(b, accountId)
    decreases |a|
  {
    if a == [] {
      assert |multiset(b)| == 0;
    } else {
      var x := a[|a| - 1];
      var init := a[..|a| - 1];
      assert a == init + [x];
      assert x in multiset(b);
      var k :| 0 <= k < |b| && b[k] == x;
      var rest := b[..k] + b[k + 1..];
      SameAfterRemoval(a, b, k);
      CompletedSumPermutation(init, rest, accountId);
      CompletedSumWithout(b, k, accountId);
      CompletedSumAppend(init, x, accountId);
    }
  }

  /** Taking the last row off one side and a copy of it off the other keeps two permutations permutations. */
  lemma SameAfterRemoval(a: seq<Transaction>, b: seq<Transaction>, k: int)
    requires a != [] && 0 <= k < |b| && b[k] == a[|a| - 1]
    requires multiset(a) == multiset(b)
    ensures multiset(a[..|a| - 1]) == multiset(b[..k] + b[k + 1..])
  {
    var x := b[k];
    assert a == a[..|a| - 1] + [x];
    assert b == b[..k] + [x] + b[k + 1..];
    assert multiset(a[..|a| - 1]) == multiset(a) - multiset{x};
    assert multiset(b[..k] + b[k + 1..]) == multiset(b) - multiset{x};
  }

  /** Removing the row at `k` removes exactly its contribution. */
  lemma CompletedSumWithout(b: seq<Transaction>, k: int, accountId: int)
    requires 0 <= k < |b|
    ensures CompletedSum(b, accountId) == CompletedSum(b[..k] + b[k + 1..], accountId) + Contribution(b[k], accountId)
  {
    var x := b[k];
    assert b == b[..k] + ([x] + b[k + 1..]);
    CompletedSumConcat(b[..k], [x] + b[k + 1..], accountId);
    CompletedSumConcat([x], b[k + 1..], accountId);
    CompletedSumConcat(b[..k], b[k + 1..], accountId);
    assert CompletedSum([x], accountId) == Contribution(x, accountId) by {
      assert [x][..0] == [];
    }
  }

  /** Rows of other accounts add nothing. */
  lemma {:induction false} CompletedSumOfAbsentAccount(log: seq<Transaction>, accountId: int)
    requires forall k :: 0 <= k < |log| ==> log[k].accountId != accountId
    ensures CompletedSum(log, accountId) == 0
  {
    if log != [] {
      CompletedSumOfAbsentAccount(log[..|log| - 1], accountId);
    }
  }

  /** The database: both tables and their autoincrement counters. */
  class Database {
    var accounts: map<int, Account>
    var transactions: seq<Transaction>
    var nextAccountId: int
    var nextTransactionId: int

    ghost predicate Valid()
      reads this
    {
      AccountsWellFormed(accounts, nextAccountId) && LogWellFormed(transactions, accounts, nextTransactionId)
    }

    /** Every stored balance is what reconciliation recomputes from the completed rows. */
    ghost predicate Reconciled()
      reads this
    {
      BalancesMatch(accounts, transactions)
    }

    /** Empty tables, both counters at 1. */
    constructor ()
      ensures Valid() && Reconciled()
      ensures accounts == map[] && transactions == []
      ensures nextAccountId == 1 && nextTransactionId == 1
    {
      accounts := map[];
      transactions := [];
      nextAccountId := 1;
      nextTransactionId := 1;
    }
  }

  /** Appending a row after a batch of rows is appending the extended batch to the log. */
  lemma AppendAfter(log: seq<Transaction>, rows: seq<Transaction>, tx: Transaction)
    ensures (log + rows) + [tx] == log + (rows + [tx])
  {
  }
}
