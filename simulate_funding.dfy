/**
 * The funding simulation script: three completed deposits of growing size written straight to
 * the tables, each followed by a balance update, then the account's rows listed most recent first.
 */
module SimulateFunding {
  import opened Wrappers
  import opened Text
  import opened Ledger
  import opened AccountRouter
  import opened TxOrder
  import opened ScriptSetup

  /** The number the script gives the account it creates. */
  const SimulationNumber := "0000000001"

  /** Deposit `i` is `round(1.23 * i * 100)` cents: 123, 246, 369. */
  function SimulatedAmount(i: nat): int {
    123 * i
  }

  /** The row deposit `i` inserts under row id `id`. */
  function SimulatedRow(accountId: int, id: int, i: nat, createdAt: int, now: int): Transaction {
    Transaction(id, accountId, Deposit, SimulatedAmount(i), "Simulated funding " + ToDecimal(i), Completed, createdAt, Some(now))
  }

  /** The rows deposits `1..n` insert, with row ids counting up from `firstId`. */
  function SimulatedRows(accountId: int, firstId: int, n: nat, createdAt: int, now: int): seq<Transaction> {
    if n == 0 then []
    else SimulatedRows(accountId, firstId, n - 1, createdAt, now) + [SimulatedRow(accountId, firstId + n - 1, n, createdAt, now)]
  }

  /** Row `k` is deposit `k + 1`: `123 * (k + 1)` cents, completed, on the account, with id `firstId + k`. */
  lemma {:induction false} SimulatedRowsContents(accountId: int, firstId: int, n: nat, createdAt: int, now: int)
    ensures |SimulatedRows(accountId, firstId, n, createdAt, now)| == n
    ensures forall k :: 0 <= k < n ==>
      SimulatedRows(accountId, firstId, n, createdAt, now)[k] == SimulatedRow(accountId, firstId + k, k + 1, createdAt, now)
  {
    if n > 0 {
      SimulatedRowsContents(accountId, firstId, n - 1, createdAt, now);
    }
  }

  /** What deposits `1..n` add to the balance. */
  function SimulatedTotal(n: nat): int {
    if n == 0 then 0 else SimulatedTotal(n - 1) + SimulatedAmount(n)
  }

  /** Deposits `1..n` add `123 * n * (n + 1) / 2` cents; the script's three add 738. */
  lemma {:induction false} SimulatedTotalClosedForm(n: nat)
    ensures 2 * SimulatedTotal(n) == 123 * n * (n + 1)
    ensures n == 3 ==> SimulatedTotal(n) == 738
  {
    if n > 0 {
      SimulatedTotalClosedForm(n - 1);
      assert 123 * n * (n + 1) == 123 * (n - 1) * n + 246 * n;
    }
  }

  /**
   * The insert loop: deposit `i` (for `i` = 1, 2, 3) appends one completed row of `123 * i` cents
   * and adds the same amount to the balance; the ids of the new rows are collected in order.
   */
  method InsertSimulatedDeposits(db: Database, accountId: int, createdAt: int, now: int) returns (insertedIds: seq<int>)
    requires db.Valid() && accountId in db.accounts
    modifies db
    ensures db.Valid()
    ensures old(db.Reconciled()) ==> db.Reconciled()
    ensures insertedIds == [old(db.nextTransactionId), old(db.nextTransactionId) + 1, old(db.nextTransactionId) + 2]
    ensures db.transactions == old(db.transactions) + SimulatedRows(accountId, old(db.nextTransactionId), 3, createdAt, now)
    ensures var account := old(db.accounts)[accountId];
      db.accounts == old(db.accounts)[accountId := account.(balance := account.balance + 738)]
    ensures db.nextTransactionId == old(db.nextTransactionId) + 3 && db.nextAccountId == old(db.nextAccountId)
  {
    ghost var log0 := db.transactions;
    ghost var accounts0 := db.accounts;
    var firstId := db.nextTransactionId;
    insertedIds := [];
    for i := 1 to 4
      invariant db.Valid() && accountId in db.accounts
      invariant old(db.Reconciled()) ==> db.Reconciled()
      invariant |insertedIds| == i - 1 && forall k :: 0 <= k < i - 1 ==> insertedIds[k] == firstId + k
      invariant db.transactions == log0 + SimulatedRows(accountId, firstId, i - 1, createdAt, now)
      invariant db.accounts == accounts0[accountId := accounts0[accountId].(balance := accounts0[accountId].balance + SimulatedTotal(i - 1))]
      invariant db.nextTransactionId == firstId + i - 1 && db.nextAccountId == old(db.nextAccountId)
    {
      var id := InsertSimulatedDeposit(db, accountId, firstId, i, createdAt, now, log0, accounts0);
      insertedIds := insertedIds + [id];
    }
    SimulatedTotalClosedForm(3);
  }

  /** The loop body: deposit `i` inserted under the next id and credited to the account. */
  method InsertSimulatedDeposit(db: Database, accountId: int, firstId: int, i: nat, createdAt: int, now: int,
                                ghost log0: seq<Transaction>, ghost accounts0: map<int, Account>) returns (id: int)
    requires db.Valid() && accountId in db.accounts && accountId in accounts0 && i >= 1
    requires db.transactions == log0 + SimulatedRows(accountId, firstId, i - 1, createdAt, now)
    requires db.accounts == accounts0[accountId := accounts0[accountId].(balance := accounts0[accountId].balance + SimulatedTotal(i - 1))]
    requires db.nextTransactionId == firstId + i - 1
    modifies db
    ensures db.Valid() && accountId in db.accounts
    ensures old(db.Reconciled()) ==> db.Reconciled()
    ensures id == firstId + i - 1
    ensures db.transactions == log0 + SimulatedRows(accountId, firstId, i, createdAt, now)
    ensures db.accounts == accounts0[accountId := accounts0[accountId].(balance := accounts0[accountId].balance + SimulatedTotal(i))]
    ensures db.nextTransactionId == firstId + i && db.nextAccountId == old(db.nextAccountId)
  {
    var tx := SimulatedRow(accountId, db.nextTransactionId, i, createdAt, now);
    ghost var rows := SimulatedRows(accountId, firstId, i - 1, createdAt, now);
    ghost var account := db.accounts[accountId];
    InsertDeposit(db, tx);
    AppendAfter(log0, rows, tx);
    UpdateTwice(accounts0, accountId, account, account.(balance := account.balance + tx.amount));
    id := tx.id;
  }

  lemma UpdateTwice(accounts: map<int, Account>, id: int, first: Account, second: Account)
    ensures accounts[id := first][id := second] == accounts[id := second]
  {
  }

  /** What the script reports: its account, the ids it inserted, the rows most recent first, the final balance. */
  datatype Simulation = Simulation(accountId: int, insertedIds: seq<int>, rows: seq<Transaction>, finalBalance: int)

  /** The deposits and the listing, on an account that exists. */
  method SimulateOn(db: Database, accountId: int, createdAt: int, now: int) returns (sim: Simulation)
    requires db.Valid() && accountId in db.accounts
    modifies db
    ensures db.Valid()
    ensures old(db.Reconciled()) ==> db.Reconciled()
    ensures var account := old(db.accounts)[accountId];
      db.accounts == old(db.accounts)[accountId := account.(balance := account.balance + 738)]
    ensures sim.accountId == accountId
    ensures sim.finalBalance == db.accounts[accountId].balance == old(db.accounts)[accountId].balance + 738
    ensures sim.insertedIds == [old(db.nextTransactionId), old(db.nextTransactionId) + 1, old(db.nextTransactionId) + 2]
    ensures db.transactions == old(db.transactions) + SimulatedRows(accountId, old(db.nextTransactionId), 3, createdAt, now)
    ensures Sorted(sim.rows) && multiset(sim.rows) == multiset(TransactionsOf(db.transactions, accountId))
  {
    var insertedIds := InsertSimulatedDeposits(db, accountId, createdAt, now);
    var rows := FetchSorted(db, accountId);
    sim := Simulation(accountId, insertedIds, rows, db.accounts[accountId].balance);
  }

  /**
   * The whole script for the user it picks: find or create the account, insert the three
   * deposits, then fetch and sort that account's rows. It stops with the database error when the
   * account cannot be created.
   */
  method Simulate(db: Database, userId: int, createdAt: int, now: int) returns (r: Result<Simulation, string>)
    requires db.Valid()
    modifies db
    ensures db.Valid()
    ensures old(db.Reconciled()) ==> db.Reconciled()
    ensures var existing := FirstAccountOf(old(db.accounts), userId, 1, old(db.nextAccountId));
      r.Failure? <==> existing.None? && NumberTaken(old(db.accounts), SimulationNumber)
    ensures r.Failure? ==> db.accounts == old(db.accounts) && db.transactions == old(db.transactions)
    ensures r.Success? ==>
      var id := r.value.accountId;
      var start := if id in old(db.accounts) then old(db.accounts)[id].balance else 0;
      && id in db.accounts && db.accounts[id].userId == userId
      && r.value.finalBalance == db.accounts[id].balance == start + 738
      && r.value.insertedIds == [old(db.nextTransactionId), old(db.nextTransactionId) + 1, old(db.nextTransactionId) + 2]
      && db.transactions == old(db.transactions) + SimulatedRows(id, old(db.nextTransactionId), 3, createdAt, now)
      && db.accounts == old(db.accounts)[id := db.accounts[id]]
      && Sorted(r.value.rows)
      && multiset(r.value.rows) == multiset(TransactionsOf(db.transactions, id))
  {
    ghost var accounts0 := db.accounts;
    ghost var existing := FirstAccountOf(db.accounts, userId, 1, db.nextAccountId);
    var ensured := EnsureAccount(db, userId, SimulationNumber);
    if ensured.Failure? {
      return Failure(ensured.error);
    }
    assert !(existing.None? && NumberTaken(accounts0, SimulationNumber));
    var id := ensured.value;
    ghost var start := if id in accounts0 then accounts0[id].balance else 0;
    assert db.accounts[id].balance == start;
    ghost var accounts1 := db.accounts;
    var sim := SimulateOn(db, id, createdAt, now);
    assert db.accounts[id].balance == start + 738;
    UpdateTwice(accounts0, id, accounts1[id], db.accounts[id]);
    r := Success(sim);
  }
}
