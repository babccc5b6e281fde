/**
 * What the simulation and benchmark scripts share: finding or creating the account they work
 * on, and fetching that account's rows sorted most recent first.
 */
module ScriptSetup {
  import opened Wrappers
  import opened Ledger
  import opened AccountRouter
  import opened TxOrder

  /** `SELECT ... FROM accounts WHERE user_id = ? LIMIT 1`: the user's account with the lowest id in `[from, to)`. */
  function FirstAccountOf(accounts: map<int, Account>, userId: int, from: int, to: int): (r: Option<int>)
    decreases to - from
    ensures r.Some? ==> from <= r.value < to && r.value in accounts && accounts[r.value].userId == userId
    ensures r.Some? ==> (forall id :: from <= id < r.value && id in accounts ==> accounts[id].userId != userId)
    ensures r.None? ==> (forall id :: from <= id < to && id in accounts ==> accounts[id].userId != userId)
  {
    if from >= to then None
    else if from in accounts && accounts[from].userId == userId then Some(from)
    else FirstAccountOf(accounts, userId, from + 1, to)
  }

  /** The user owns no account at all. */
  predicate OwnsNothing(accounts: map<int, Account>, userId: int) {
    forall id :: id in accounts ==> accounts[id].userId != userId
  }

  /** Over the whole id range, finding nothing means the user owns nothing. */
  lemma NoneFoundOwnsNothing(accounts: map<int, Account>, userId: int, next: int)
    requires AccountsWellFormed(accounts, next)
    requires FirstAccountOf(accounts, userId, 1, next).None?
    ensures OwnsNothing(accounts, userId)
  {
  }

  /** The violation the `UNIQUE` account number column reports. */
  const DuplicateNumber := "UNIQUE constraint failed: accounts.account_number"

  /**
   * The account half of `ensureUserAndAccount`: the user's first account when there is one,
   * otherwise a new active checking account with balance 0 and the fixed `number`. The insert
   * fails on the unique number column when another account already holds that number.
   */
  method EnsureAccount(db: Database, userId: int, number: string) returns (r: Result<int, string>)
    requires db.Valid()
    modifies db
    ensures db.Valid()
    ensures old(db.Reconciled()) ==> db.Reconciled()
    ensures db.transactions == old(db.transactions) && db.nextTransactionId == old(db.nextTransactionId)
    ensures var existing := FirstAccountOf(old(db.accounts), userId, 1, old(db.nextAccountId));
      existing.Some? ==> r == Success(existing.value) && db.accounts == old(db.accounts) && db.nextAccountId == old(db.nextAccountId)
    ensures var existing := FirstAccountOf(old(db.accounts), userId, 1, old(db.nextAccountId));
      existing.None? && NumberTaken(old(db.accounts), number) ==>
        r == Failure(DuplicateNumber) && db.accounts == old(db.accounts) && db.nextAccountId == old(db.nextAccountId)
    ensures var existing := FirstAccountOf(old(db.accounts), userId, 1, old(db.nextAccountId));
      existing.None? && !NumberTaken(old(db.accounts), number) ==>
        && r == Success(old(db.nextAccountId))
        && db.accounts == old(db.accounts)[r.value := Account(r.value, userId, number, Checking, 0, Active)]
        && db.nextAccountId == old(db.nextAccountId) + 1
    ensures r.Success? ==>
      && r.value in db.accounts && db.accounts[r.value].userId == userId
      && db.accounts[r.value].balance == (if r.value in old(db.accounts) then old(db.accounts)[r.value].balance else 0)
      && db.accounts == old(db.accounts)[r.value := db.accounts[r.value]]
  {
    var existing := FirstAccountOf(db.accounts, userId, 1, db.nextAccountId);
    if existing.Some? {
      return Success(existing.value);
    }
    if NumberTaken(db.accounts, number) {
      return Failure(DuplicateNumber);
    }
    NoneFoundOwnsNothing(db.accounts, userId, db.nextAccountId);
    var account := InsertAccount(db, userId, Checking, number);
    r := Success(account.id);
  }

  /** Stored rows have strictly increasing ids. */
  predicate IncreasingIds(s: seq<Transaction>) {
    forall i, j :: 0 <= i < j < |s| ==> s[i].id < s[j].id
  }

  /** An account's rows keep the increasing ids of the log they come from. */
  lemma {:induction false} RowsOfAccountIncrease(log: seq<Transaction>, accountId: int)
    requires IncreasingIds(log)
    ensures IncreasingIds(TransactionsOf(log, accountId))
  {
    if log != [] {
      var init := log[..|log| - 1];
      var last := log[|log| - 1];
      RowsOfAccountIncrease(init, accountId);
      var rows := TransactionsOf(init, accountId);
      forall k | 0 <= k < |rows|
        ensures rows[k].id < last.id
      {
        TransactionsOfMembership(init, accountId, rows[k]);
      }
    }
  }

  /** An account's stored rows never share an id. */
  lemma RowsOfAccountDistinct(log: seq<Transaction>, accounts: map<int, Account>, next: int, accountId: int)
    requires LogWellFormed(log, accounts, next)
    ensures DistinctIds(TransactionsOf(log, accountId))
  {
    RowsOfAccountIncrease(log, accountId);
  }

  /**
   * Fetches the account's rows and sorts them in place with the comparator: the result is the
   * account's rows, most recent first, and exactly what the SQL `ORDER BY` would return (every
   * stored row carries `processed_at`, so the two orders agree).
   */
  method FetchSorted(db: Database, accountId: int) returns (rows: seq<Transaction>)
    requires db.Valid()
    ensures Sorted(rows)
    ensures multiset(rows) == multiset(TransactionsOf(db.transactions, accountId))
    ensures forall sql :: SqlSorted(sql) && multiset(sql) == multiset(TransactionsOf(db.transactions, accountId)) ==> sql == rows
  {
    var fetched := TransactionsOf(db.transactions, accountId);
    var buffer := new Transaction[|fetched|](i requires 0 <= i < |fetched| => fetched[i]);
    assert buffer[..] == fetched;
    SortRows(buffer);
    rows := buffer[..];
    RowsOfAccountDistinct(db.transactions, db.accounts, db.nextTransactionId, accountId);
    DistinctIdsOfPermutation(fetched, rows);
    forall k | 0 <= k < |rows|
      ensures Processed(rows[k])
    {
      assert rows[k] in multiset(fetched);
      TransactionsOfMembership(db.transactions, accountId, rows[k]);
    }
    forall sql | SqlSorted(sql) && multiset(sql) == multiset(fetched)
      ensures sql == rows
    {
      ClientSortMatchesSql(rows, sql);
    }
  }

  /** Rearranging rows keeps their ids distinct. */
  lemma DistinctIdsOfPermutation(a: seq<Transaction>, b: seq<Transaction>)
    requires DistinctIds(a) && multiset(a) == multiset(b)
    ensures DistinctIds(b)
  {
    forall i, j | 0 <= i < j < |b|
      ensures b[i].id != b[j].id
    {
      assert b[i] in multiset(a) && b[j] in multiset(a);
      var p :| 0 <= p < |a| && a[p] == b[i];
      var q :| 0 <= q < |a| && a[q] == b[j];
      if p == q {
        OccursOnce(a, p);
        OccursTwice(b, i, j);
        assert false;
      }
    }
  }

  /** A row of a sequence with distinct ids occurs in it once. */
  lemma OccursOnce(a: seq<Transaction>, p: int)
    requires DistinctIds(a) && 0 <= p < |a|
    ensures multiset(a)[a[p]] == 1
  {
    assert a == a[..p] + [a[p]] + a[p + 1..];
    assert a[p] !in a[..p];
    assert a[p] !in a[p + 1..];
  }

  /** A row at two positions occurs at least twice. */
  lemma OccursTwice(b: seq<Transaction>, i: int, j: int)
    requires 0 <= i < j < |b| && b[i] == b[j]
    ensures multiset(b)[b[i]] >= 2
  {
    assert b == b[..i] + [b[i]] + b[i + 1..j] + [b[j]] + b[j + 1..];
  }
}
