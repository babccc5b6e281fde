/**
 * The transaction-listing benchmark: it tops an account up to a target number of rows, then
 * lists them once sorted by the client comparator and once by the SQL `ORDER BY`.
 */
module Benchmark {
  import opened Wrappers
  import opened Text
  import opened Ledger
  import opened AccountRouter
  import opened ScriptSetup

  /** The number the script gives the account it creates. */
  const BenchmarkNumber := "0000000002"

  /** `BENCH_TXNS` when it is not set. */
  const DefaultTarget := 2000

  /** Generated row `i` is `((i mod 100) + 1) / 100` dollars: 1 to 100 cents. */
  function BenchAmount(i: nat): (cents: int)
    ensures 1 <= cents <= 100
  {
    (i % 100) + 1
  }

  /** Generated row `i` was processed `i mod 1000` seconds before `now` (in milliseconds). */
  function BenchProcessedAt(now: int, i: nat): (t: int)
    ensures now - 999_000 <= t <= now
  {
    now - (i % 1000) * 1000
  }

  /** The row the loop inserts at index `i` under row id `id`. */
  function BenchRow(accountId: int, id: int, i: nat, createdAt: int, now: nat): Transaction {
    Transaction(id, accountId, Deposit, BenchAmount(i), "Bench txn " + ToDecimal(now) + "-" + ToDecimal(i),
                Completed, createdAt, Some(BenchProcessedAt(now, i)))
  }

  /** The rows indexes `0..n-1` insert, with row ids counting up from `firstId`. */
  function BenchRows(accountId: int, firstId: int, n: nat, createdAt: int, now: nat): seq<Transaction> {
    if n == 0 then []
    else BenchRows(accountId, firstId, n - 1, createdAt, now) + [BenchRow(accountId, firstId + n - 1, n - 1, createdAt, now)]
  }

  /** There are `n` generated rows, all completed deposits on the account, with amounts of 1 to 100 cents. */
  lemma {:induction false} BenchRowsShape(accountId: int, firstId: int, n: nat, createdAt: int, now: nat)
    ensures |BenchRows(accountId, firstId, n, createdAt, now)| == n
    ensures forall k :: 0 <= k < n ==>
      var row := BenchRows(accountId, firstId, n, createdAt, now)[k];
      && row == BenchRow(accountId, firstId + k, k, createdAt, now)
      && row.accountId == accountId && row.status == Completed && row.kind == Deposit
      && 1 <= row.amount <= 100
  {
    if n > 0 {
      BenchRowsShape(accountId, firstId, n - 1, createdAt, now);
    }
  }

  /** The generated rows add at least a cent each to the account's recomputed balance. */
  lemma {:induction false} BenchRowsSum(accountId: int, firstId: int, n: nat, createdAt: int, now: nat)
    ensures n <= CompletedSum(BenchRows(accountId, firstId, n, createdAt, now), accountId) <= 100 * n
  {
    if n > 0 {
      var rows := BenchRows(accountId, firstId, n, createdAt, now);
      BenchRowsSum(accountId, firstId, n - 1, createdAt, now);
      assert rows[..|rows| - 1] == BenchRows(accountId, firstId, n - 1, createdAt, now);
    }
  }

  /** Appending rows that all belong to the account appends them to the account's rows. */
  lemma {:induction false} TransactionsOfOwnRows(log: seq<Transaction>, rows: seq<Transaction>, accountId: int)
    requires forall k :: 0 <= k < |rows| ==> rows[k].accountId == accountId
    ensures TransactionsOf(log + rows, accountId) == TransactionsOf(log, accountId) + rows
  {
    if rows != [] {
      var init := rows[..|rows| - 1];
      var last := rows[|rows| - 1];
      TransactionsOfOwnRows(log, init, accountId);
      assert (log + rows)[..|log + rows| - 1] == log + init;
      assert (log + rows)[|log + rows| - 1] == last;
      calc {
        TransactionsOf(log + rows, accountId);
        TransactionsOf(log + init, accountId) + [last];
        (TransactionsOf(log, accountId) + init) + [last];
        { assert rows == init + [last]; }
        TransactionsOf(log, accountId) + rows;
      }
    } else {
      assert log + rows == log;
    }
  }

  /** Appending a row under the next id to a stored account keeps every table invariant. */
  lemma AppendRowKeepsInvariants(accounts: map<int, Account>, log: seq<Transaction>, nextAccountId: int,
                                 nextTransactionId: int, tx: Transaction)
    requires AccountsWellFormed(accounts, nextAccountId) && LogWellFormed(log, accounts, nextTransactionId)
    requires tx.accountId in accounts && tx.id == nextTransactionId && tx.processedAt.Some?
    ensures LogWellFormed(log + [tx], accounts, nextTransactionId + 1)
  {
    var log' := log + [tx];
    forall k | 0 <= k < |log'|
      ensures log'[k].accountId in accounts && 1 <= log'[k].id < nextTransactionId + 1 && log'[k].processedAt.Some?
    {
      if k < |log| {
        assert log'[k] == log[k];
      }
    }
    forall k, l | 0 <= k < l < |log'|
      ensures log'[k].id < log'[l].id
    {
      assert log'[k] == log[k];
      if l < |log| {
        assert log'[l] == log[l];
      }
    }
  }

  /** One `stmt.run(...)`: a row is stored under the next id and no balance is touched. */
  method AppendRow(db: Database, tx: Transaction)
    requires db.Valid() && tx.accountId in db.accounts && tx.id == db.nextTransactionId && tx.processedAt.Some?
    modifies db
    ensures db.Valid()
    ensures db.transactions == old(db.transactions) + [tx]
    ensures db.accounts == old(db.accounts)
    ensures db.nextTransactionId == old(db.nextTransactionId) + 1 && db.nextAccountId == old(db.nextAccountId)
  {
    AppendRowKeepsInvariants(db.accounts, db.transactions, db.nextAccountId, db.nextTransactionId, tx);
    db.transactions := db.transactions + [tx];
    db.nextTransactionId := db.nextTransactionId + 1;
  }

  /** `insertTransactions`: `count` generated completed deposits, inserted one by one; balances are left alone. */
  method InsertTransactions(db: Database, accountId: int, count: nat, createdAt: int, now: nat)
    requires db.Valid() && accountId in db.accounts
    modifies db
    ensures db.Valid()
    ensures db.transactions == old(db.transactions) + BenchRows(accountId, old(db.nextTransactionId), count, createdAt, now)
    ensures db.accounts == old(db.accounts)
    ensures db.nextTransactionId == old(db.nextTransactionId) + count && db.nextAccountId == old(db.nextAccountId)
  {
    ghost var log0 := db.transactions;
    var firstId := db.nextTransactionId;
    for i := 0 to count
      invariant db.Valid() && accountId in db.accounts
      invariant db.transactions == log0 + BenchRows(accountId, firstId, i, createdAt, now)
      invariant db.accounts == old(db.accounts)
      invariant db.nextTransactionId == firstId + i && db.nextAccountId == old(db.nextAccountId)
    {
      var tx := BenchRow(accountId, db.nextTransactionId, i, createdAt, now);
      ghost var rows := BenchRows(accountId, firstId, i, createdAt, now);
      AppendRow(db, tx);
      AppendAfter(log0, rows, tx);
    }
  }

  /** The rows the top-up inserts for an account holding `current` rows. */
  function TopUpCount(current: nat, target: int): (n: nat)
    ensures current + n >= target
    ensures n == 0 || current + n == target
  {
    if current < target then target - current else 0
  }

  /**
   * The top-up in `main`: count the account's rows, and when there are fewer than the target,
   * insert the difference. Afterwards the account holds at least `target` rows.
   */
  method TopUp(db: Database, accountId: int, target: int, createdAt: int, now: nat) returns (inserted: nat)
    requires db.Valid() && accountId in db.accounts
    modifies db
    ensures db.Valid()
    ensures inserted == TopUpCount(|TransactionsOf(old(db.transactions), accountId)|, target)
    ensures db.transactions == old(db.transactions) + BenchRows(accountId, old(db.nextTransactionId), inserted, createdAt, now)
    ensures |TransactionsOf(db.transactions, accountId)| == |TransactionsOf(old(db.transactions), accountId)| + inserted
    ensures |TransactionsOf(db.transactions, accountId)| >= target
    ensures db.accounts == old(db.accounts)
  {
    var current := |TransactionsOf(db.transactions, accountId)|;
    inserted := TopUpCount(current, target);
    if current < target {
      InsertTransactions(db, accountId, inserted, createdAt, now);
    }
    BenchRowsShape(accountId, old(db.nextTransactionId), inserted, createdAt, now);
    TransactionsOfOwnRows(old(db.transactions), BenchRows(accountId, old(db.nextTransactionId), inserted, createdAt, now), accountId);
  }

  /**
   * The inserted rows are completed but the balance is not raised, so an account whose balance
   * matched its rows no longer does once at least one row is inserted.
   */
  lemma TopUpUnbalances(accounts: map<int, Account>, log: seq<Transaction>, accountId: int, firstId: int,
                        n: nat, createdAt: int, now: nat)
    requires accountId in accounts && accounts[accountId].balance == CompletedSum(log, accountId)
    requires n > 0
    ensures accountId in MismatchedIds(accounts, log + BenchRows(accountId, firstId, n, createdAt, now))
    ensures CompletedSum(log + BenchRows(accountId, firstId, n, createdAt, now), accountId) - accounts[accountId].balance >= n
  {
    var rows := BenchRows(accountId, firstId, n, createdAt, now);
    CompletedSumConcat(log, rows, accountId);
    BenchRowsSum(accountId, firstId, n, createdAt, now);
  }

  /** What the script reports: the account, the rows it inserted, and the row counts of both listings. */
  datatype BenchResult = BenchResult(accountId: int, inserted: nat, clientCount: nat, sqlCount: nat)

  /** The top-up and both listings, on an account that exists. */
  method RunOn(db: Database, accountId: int, target: int, createdAt: int, now: nat) returns (result: BenchResult)
    requires db.Valid() && accountId in db.accounts
    modifies db
    ensures db.Valid() && accountId in db.accounts
    ensures db.accounts == old(db.accounts)
    ensures result.accountId == accountId
    ensures result.inserted == TopUpCount(|TransactionsOf(old(db.transactions), accountId)|, target)
    ensures result.clientCount == result.sqlCount == |TransactionsOf(db.transactions, accountId)|
    ensures result.clientCount >= target
  {
    var inserted := TopUp(db, accountId, target, createdAt, now);
    var clientRows := FetchSorted(db, accountId);
    var sqlCount := |TransactionsOf(db.transactions, accountId)|;
    assert |clientRows| == |multiset(clientRows)| == sqlCount;
    result := BenchResult(accountId, inserted, |clientRows|, sqlCount);
  }

  /**
   * `main`, without the timings: find or create the account, top it up to `target` rows, then list
   * its rows with the client sort. The SQL listing returns the same rows in the same order, so
   * both counts are the account's row count.
   */
  method Run(db: Database, userId: int, target: int, createdAt: int, now: nat) returns (r: Result<BenchResult, string>)
    requires db.Valid()
    modifies db
    ensures db.Valid()
    ensures var existing := FirstAccountOf(old(db.accounts), userId, 1, old(db.nextAccountId));
      r.Failure? <==> existing.None? && NumberTaken(old(db.accounts), BenchmarkNumber)
    ensures r.Success? ==>
      && r.value.accountId in db.accounts && db.accounts[r.value.accountId].userId == userId
      && r.value.clientCount == r.value.sqlCount == |TransactionsOf(db.transactions, r.value.accountId)|
      && r.value.clientCount >= target
  {
    var ensured := EnsureAccount(db, userId, BenchmarkNumber);
    if ensured.Failure? {
      return Failure(ensured.error);
    }
    var result := RunOn(db, ensured.value, target, createdAt, now);
    r := Success(result);
  }
}
