/**
 * What the server procedures and the maintenance scripts promise together: the server keeps
 * every stored balance equal to the total of the account's completed rows, so a reconciliation
 * run after any sequence of calls has nothing to report.
 */
module Session {
  import opened Wrappers
  import opened Ledger
  import opened AccountRouter
  import opened Reconcile

  /** One `fundAccount` call: the account, the amount, the source, and the two clock readings. */
  datatype FundingRequest = FundingRequest(accountId: int, amount: AmountInput, source: FundingSource,
                                           createdAt: int, processedAt: int)

  /**
   * A user opens an account and then makes funding calls one after another, each of which may
   * succeed or be refused; `verify-balances` run afterwards counts no mismatch and exits with 0.
   */
  method OpenFundVerify(db: Database, userId: int, accountType: AccountType, draws: seq<Draw>,
                        requests: seq<FundingRequest>)
    returns (created: Result<Account, Error>, funded: seq<Result<Funded, Error>>, mismatches: nat, exitCode: int)
    requires db.Valid() && db.Reconciled()
    requires HasAccountOfType(db.accounts, userId, accountType) || SomeFreshDraw(db.accounts, draws)
    modifies db
    ensures db.Valid() && db.Reconciled()
    ensures |funded| == |requests|
    ensures mismatches == 0 && exitCode == 0
  {
    created := CreateAccount(db, userId, accountType, draws);
    funded := [];
    for i := 0 to |requests|
      invariant db.Valid() && db.Reconciled()
      invariant |funded| == i
    {
      var request := requests[i];
      var result := FundAccount(db, userId, request.accountId, request.amount, request.source,
                                request.createdAt, request.processedAt);
      funded := funded + [result];
    }
    mismatches, exitCode := VerifyBalances(db);
  }

  /** On a new, empty database the same holds: the tables start out reconciled. */
  method FreshLedgerVerifies(userId: int, accountType: AccountType, draws: seq<Draw>, requests: seq<FundingRequest>)
    returns (mismatches: nat, exitCode: int)
    requires draws != []
    ensures mismatches == 0 && exitCode == 0
  {
    var db := new Database();
    assert FreshDraw(db.accounts, draws, 0);
    var created, funded;
    created, funded, mismatches, exitCode := OpenFundVerify(db, userId, accountType, draws, requests);
  }
}
