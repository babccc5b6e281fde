/**
 * The two maintenance scripts that recompute every balance from the completed rows: one only
 * reports the accounts whose stored balance differs, the other can also overwrite them.
 */
module Reconcile {
  import opened Ledger

  /** The rows the balance query returns for an account: its completed rows, in storage order. */
  function CompletedRowsOf(log: seq<Transaction>, accountId: int): (rows: seq<Transaction>)
    ensures forall k :: 0 <= k < |rows| ==> rows[k].accountId == accountId && rows[k].status == Completed
  {
    if log == [] then []
    else
      var last := log[|log| - 1];
      CompletedRowsOf(log[..|log| - 1], accountId)
        + (if last.accountId == accountId && last.status == Completed then [last] else [])
  }

  /** The sum of the amounts of some rows. */
  function AmountTotal(rows: seq<Transaction>): int {
    if rows == [] then 0 else AmountTotal(rows[..|rows| - 1]) + rows[|rows| - 1].amount
  }

  lemma {:induction false} AmountTotalConcat(a: seq<Transaction>, b: seq<Transaction>)
    ensures AmountTotal(a + b) == AmountTotal(a) + AmountTotal(b)
  {
    if b == [] {
      assert a + b == a;
    } else {
      AmountTotalConcat(a, b[..|b| - 1]);
      assert (a + b)[..|a + b| - 1] == a + b[..|b| - 1];
    }
  }

  /** Summing the rows the query returns gives the completed total of the account. */
  lemma {:induction false} CompletedRowsTotal(log: seq<Transaction>, accountId: int)
    ensures AmountTotal(CompletedRowsOf(log, accountId)) == CompletedSum(log, accountId)
  {
    if log != [] {
      var init := log[..|log| - 1];
      var last := log[|log| - 1];
      CompletedRowsTotal(init, accountId);
      var tail := if last.accountId == accountId && last.status == Completed then [last] else [];
      AmountTotalConcat(CompletedRowsOf(init, accountId), tail);
      assert AmountTotal(tail) == Contribution(last, accountId) by {
        if tail != [] {
          assert tail[..0] == [];
        }
      }
    }
  }

  /**
   * `recomputeBalance`: the completed rows of the account, summed amount by amount in cents.
   * The row type is not consulted, so a completed withdrawal adds to the total like a deposit.
   */
  method RecomputeBalance(log: seq<Transaction>, accountId: int) returns (cents: int)
    ensures cents == CompletedSum(log, accountId)
  {
    var rows := CompletedRowsOf(log, accountId);
    cents := 0;
    for i := 0 to |rows|
      invariant cents == AmountTotal(rows[..i])
    {
      assert rows[..i + 1][..i] == rows[..i];
      cents := cents + rows[i].amount;
    }
    assert rows[..|rows|] == rows;
    CompletedRowsTotal(log, accountId);
  }

  /** A completed withdrawal raises the recomputed balance by its amount, as a deposit would. */
  lemma WithdrawalsAreAdded(log: seq<Transaction>, tx: Transaction)
    requires tx.kind == Withdrawal && tx.status == Completed
    ensures CompletedSum(log + [tx], tx.accountId) == CompletedSum(log, tx.accountId) + tx.amount
  {
    CompletedSumAppend(log, tx, tx.accountId);
  }

  /** The mismatched accounts whose id is below `bound`: those a scan in id order has met so far. */
  function MismatchedBelow(accounts: map<int, Account>, log: seq<Transaction>, bound: int): (found: set<int>)
    ensures forall id :: id in found <==> id < bound && id in MismatchedIds(accounts, log)
  {
    set id | id in accounts && id < bound && accounts[id].balance != CompletedSum(log, id)
  }

  /** Moving the scan past one more id adds it to the mismatches found exactly when it is mismatched. */
  lemma MismatchCountStep(accounts: map<int, Account>, log: seq<Transaction>, bound: int)
    ensures |MismatchedBelow(accounts, log, bound + 1)| ==
      |MismatchedBelow(accounts, log, bound)| + (if bound in MismatchedIds(accounts, log) then 1 else 0)
  {
    var before := MismatchedBelow(accounts, log, bound);
    var after := MismatchedBelow(accounts, log, bound + 1);
    if bound in MismatchedIds(accounts, log) {
      assert after == before + {bound};
    } else {
      assert after == before;
    }
  }

  /** With every id in `[1, next)`, the scan finds nothing below 1 and everything below `next`. */
  lemma ScanBounds(accounts: map<int, Account>, log: seq<Transaction>, next: int)
    requires forall id :: id in accounts ==> 1 <= id < next
    ensures MismatchedBelow(accounts, log, 1) == {}
    ensures MismatchedBelow(accounts, log, next) == MismatchedIds(accounts, log)
  {
    assert forall id :: id !in MismatchedBelow(accounts, log, 1);
  }

  /**
   * `verify-balances`: counts the accounts whose stored balance differs from the recomputed one,
   * scanning the accounts in id order; exit code 0 when there are none, 2 otherwise. Nothing is written.
   */
  method VerifyBalances(db: Database) returns (mismatches: nat, exitCode: int)
    requires db.Valid()
    ensures mismatches == |MismatchedIds(db.accounts, db.transactions)|
    ensures exitCode == 0 <==> mismatches == 0
    ensures exitCode == 0 || exitCode == 2
    ensures mismatches == 0 <==> db.Reconciled()
  {
    ScanBounds(db.accounts, db.transactions, db.nextAccountId);
    mismatches := 0;
    for id := 1 to db.nextAccountId
      invariant mismatches == |MismatchedBelow(db.accounts, db.transactions, id)|
    {
      MismatchCountStep(db.accounts, db.transactions, id);
      if id in db.accounts {
        var computed := RecomputeBalance(db.transactions, id);
        if db.accounts[id].balance != computed {
          mismatches := mismatches + 1;
        }
      }
    }
    exitCode := if mismatches == 0 then 0 else 2;
    NoMismatchIffBalancesMatch(db.accounts, db.transactions);
  }

  /** The accounts after overwriting each mismatched balance with id below `bound` by its recomputed value. */
  function Repair(accounts: map<int, Account>, log: seq<Transaction>, bound: int): (repaired: map<int, Account>)
    ensures repaired.Keys == accounts.Keys
  {
    map id | id in accounts ::
      if id < bound && accounts[id].balance != CompletedSum(log, id)
      then accounts[id].(balance := CompletedSum(log, id))
      else accounts[id]
  }

  /** A full repair leaves no mismatch, touches only the mismatched accounts, and only their balances. */
  lemma RepairProperties(accounts: map<int, Account>, log: seq<Transaction>, next: int)
    requires forall id :: id in accounts ==> id < next
    ensures BalancesMatch(Repair(accounts, log, next), log)
    ensures MismatchedIds(Repair(accounts, log, next), log) == {}
    ensures forall id :: id in accounts && id !in MismatchedIds(accounts, log) ==>
      Repair(accounts, log, next)[id] == accounts[id]
    ensures forall id :: id in accounts ==>
      Repair(accounts, log, next)[id] == accounts[id].(balance := CompletedSum(log, id))
  {
    NoMismatchIffBalancesMatch(Repair(accounts, log, next), log);
  }

  /** Repairing keeps every table invariant, since only balances change. */
  lemma RepairKeepsInvariants(accounts: map<int, Account>, log: seq<Transaction>, bound: int,
                              nextAccountId: int, nextTransactionId: int)
    requires AccountsWellFormed(accounts, nextAccountId) && LogWellFormed(log, accounts, nextTransactionId)
    ensures AccountsWellFormed(Repair(accounts, log, bound), nextAccountId)
    ensures LogWellFormed(log, Repair(accounts, log, bound), nextTransactionId)
  {
  }

  /** Repairing one more id: overwrite it when it is a mismatched account, otherwise nothing changes. */
  lemma RepairStep(accounts: map<int, Account>, log: seq<Transaction>, bound: int)
    ensures bound in accounts ==> Repair(accounts, log, bound)[bound] == accounts[bound]
    ensures bound in accounts && accounts[bound].balance != CompletedSum(log, bound) ==>
      Repair(accounts, log, bound + 1) ==
        Repair(accounts, log, bound)[bound := accounts[bound].(balance := CompletedSum(log, bound))]
    ensures bound !in accounts || accounts[bound].balance == CompletedSum(log, bound) ==>
      Repair(accounts, log, bound + 1) == Repair(accounts, log, bound)
  {
  }

  /** Below the first id nothing is repaired. */
  lemma RepairNothing(accounts: map<int, Account>, log: seq<Transaction>)
    requires forall id :: id in accounts ==> 1 <= id
    ensures Repair(accounts, log, 1) == accounts
  {
  }

  /**
   * `fix-balances`: counts the mismatched accounts like `verify-balances`; with `apply` it also
   * overwrites each mismatched balance with the recomputed one. Exit code 0 when there were no
   * mismatches or they were applied, 2 when they were only reported.
   */
  method FixBalances(db: Database, apply: bool) returns (mismatches: nat, exitCode: int)
    requires db.Valid()
    modifies db
    ensures mismatches == |MismatchedIds(old(db.accounts), db.transactions)|
    ensures exitCode == (if mismatches == 0 then 0 else if apply then 0 else 2)
    ensures db.accounts == (if apply then Repair(old(db.accounts), db.transactions, db.nextAccountId) else old(db.accounts))
    ensures db.transactions == old(db.transactions)
    ensures db.nextAccountId == old(db.nextAccountId) && db.nextTransactionId == old(db.nextTransactionId)
    ensures db.Valid()
    ensures apply ==> db.Reconciled()
  {
    ghost var original := db.accounts;
    var log := db.transactions;
    var next := db.nextAccountId;
    ScanBounds(original, log, next);
    RepairNothing(original, log);
    mismatches := 0;
    for id := 1 to next
      invariant mismatches == |MismatchedBelow(original, log, id)|
      invariant db.accounts == (if apply then Repair(original, log, id) else original)
      invariant db.transactions == log
      invariant db.nextAccountId == next && db.nextTransactionId == old(db.nextTransactionId)
    {
      RepairStep(original, log, id);
      MismatchCountStep(original, log, id);
      if id in db.accounts {
        var computed := RecomputeBalance(log, id);
        if db.accounts[id].balance != computed {
          mismatches := mismatches + 1;
          if apply {
            db.accounts := db.accounts[id := db.accounts[id].(balance := computed)];
          }
        }
      }
    }
    exitCode := if mismatches == 0 then 0 else if apply then 0 else 2;
    RepairKeepsInvariants(original, log, next, next, db.nextTransactionId);
    RepairProperties(original, log, next);
  }
}
