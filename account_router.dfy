/**
 * The account procedures of the server: opening an account, funding it from a card or a bank
 * account, and listing its transactions. Each procedure runs alone against the `Database`; the
 * random account-number draws and the clock readings are parameters.
 */
module AccountRouter {
  import opened Wrappers
  import opened Text
  import opened Ledger
  import Amount
  import Payment
  import Routing

  datatype Error = BadRequest(message: string) | NotFound(message: string) | Conflict(message: string)

  // ---------------------------------------------------------------- account numbers

  /** The draw range of the account-number generator: `[0, 10^10)`. */
  const AccountNumberRange: nat := 10_000_000_000

  /** One draw of the generator. */
  type Draw = n: nat | n < 10_000_000_000

  /** `generateAccountNumber` for the draw `n`: its decimal form left-padded with zeros to ten characters. */
  function AccountNumberFor(n: Draw): string {
    PadStart(ToDecimal(n), 10, '0')
  }

  /** A generated number is exactly ten decimal digits, and reads back as the draw. */
  lemma AccountNumberDigits(n: Draw)
    ensures var number := AccountNumberFor(n);
      |number| == 10 && AllDigits(number) && DecimalValue(number) == n
  {
    assert Pow10(10) == AccountNumberRange;
    ToDecimalLength(n, 10);
    ToDecimalValue(n);
    var digits := ToDecimal(n);
    var number := AccountNumberFor(n);
    assert number == number[..|number| - |digits|] + digits;
    LeadingZerosValue(number[..|number| - |digits|], digits);
  }

  /** Different draws give different numbers. */
  lemma AccountNumberInjective(m: Draw, n: Draw)
    ensures AccountNumberFor(m) == AccountNumberFor(n) <==> m == n
  {
    AccountNumberDigits(m);
    AccountNumberDigits(n);
  }

  // ---------------------------------------------------------------- createAccount

  predicate HasAccountOfType(accounts: map<int, Account>, userId: int, accountType: AccountType) {
    exists id :: id in accounts && accounts[id].userId == userId && accounts[id].accountType == accountType
  }

  predicate NumberTaken(accounts: map<int, Account>, number: string) {
    exists id :: id in accounts && accounts[id].accountNumber == number
  }

  /** The draw at `j` gives a number no account holds. */
  predicate FreshDraw(accounts: map<int, Account>, draws: seq<Draw>, j: int)
    requires 0 <= j < |draws|
  {
    !NumberTaken(accounts, AccountNumberFor(draws[j]))
  }

  /** Some draw is fresh, so the generator loop ends. */
  predicate SomeFreshDraw(accounts: map<int, Account>, draws: seq<Draw>) {
    exists i :: 0 <= i < |draws| && FreshDraw(accounts, draws, i)
  }

  /** The first fresh draw is the one at `k`. */
  predicate FirstFreshDrawAt(accounts: map<int, Account>, draws: seq<Draw>, k: int) {
    0 <= k < |draws| && FreshDraw(accounts, draws, k) && forall j :: 0 <= j < k ==> !FreshDraw(accounts, draws, j)
  }

  /**
   * `createAccount`: refused with CONFLICT when the user already has an account of that type;
   * otherwise draws numbers until one is not held by any account and stores a new active account
   * with a zero balance under the next id. `draws` are the successive random draws; some draw
   * is fresh, since the source loops until it meets one.
   */
  method CreateAccount(db: Database, userId: int, accountType: AccountType, draws: seq<Draw>)
    returns (r: Result<Account, Error>)
    requires db.Valid()
    requires HasAccountOfType(db.accounts, userId, accountType) || SomeFreshDraw(db.accounts, draws)
    modifies db
    ensures db.Valid()
    ensures old(db.Reconciled()) ==> db.Reconciled()
    ensures old(HasAccountOfType(db.accounts, userId, accountType)) ==>
      r == Failure(Conflict("You already have a " + accountType.Name() + " account")) && unchanged(db)
    ensures !old(HasAccountOfType(db.accounts, userId, accountType)) ==>
      && r.Success?
      && r.value.id == old(db.nextAccountId)
      && r.value == Account(r.value.id, userId, r.value.accountNumber, accountType, 0, Active)
      && (exists k :: FirstFreshDrawAt(old(db.accounts), draws, k) && r.value.accountNumber == AccountNumberFor(draws[k]))
      && db.accounts == old(db.accounts)[r.value.id := r.value]
      && db.transactions == old(db.transactions)
      && db.nextAccountId == old(db.nextAccountId) + 1
      && db.nextTransactionId == old(db.nextTransactionId)
  {
    if HasAccountOfType(db.accounts, userId, accountType) {
      return Failure(Conflict("You already have a " + accountType.Name() + " account"));
    }
    var number := DrawFreshNumber(db.accounts, draws);
    var account := InsertAccount(db, userId, accountType, number);
    r := Success(account);
  }

  /** The insert of `createAccount`: a new active account with a zero balance under the next id. */
  method InsertAccount(db: Database, userId: int, accountType: AccountType, number: string) returns (account: Account)
    requires db.Valid()
    requires !HasAccountOfType(db.accounts, userId, accountType) && !NumberTaken(db.accounts, number)
    modifies db
    ensures db.Valid()
    ensures old(db.Reconciled()) ==> db.Reconciled()
    ensures account == Account(old(db.nextAccountId), userId, number, accountType, 0, Active)
    ensures db.accounts == old(db.accounts)[account.id := account]
    ensures db.transactions == old(db.transactions)
    ensures db.nextAccountId == old(db.nextAccountId) + 1
    ensures db.nextTransactionId == old(db.nextTransactionId)
  {
    account := Account(db.nextAccountId, userId, number, accountType, 0, Active);
    AddAccountKeepsInvariants(db.accounts, db.transactions, db.nextAccountId, db.nextTransactionId, account);
    db.accounts := db.accounts[account.id := account];
    db.nextAccountId := db.nextAccountId + 1;
  }

  /** The `while (!isUnique)` loop: draw after draw until a number no account holds. */
  method DrawFreshNumber(accounts: map<int, Account>, draws: seq<Draw>) returns (number: string)
    requires SomeFreshDraw(accounts, draws)
    ensures !NumberTaken(accounts, number)
    ensures exists k :: FirstFreshDrawAt(accounts, draws, k) && number == AccountNumberFor(draws[k])
  {
    ghost var target :| 0 <= target < |draws| && FreshDraw(accounts, draws, target);
    var i := 0;
    var isUnique := false;
    number := "";
    while !isUnique
      invariant 0 <= i <= target + 1
      invariant !isUnique ==> i <= target && forall j :: 0 <= j < i ==> !FreshDraw(accounts, draws, j)
      invariant isUnique ==> FirstFreshDrawAt(accounts, draws, i - 1) && number == AccountNumberFor(draws[i - 1])
      decreases target + 1 - i, !isUnique
    {
      number := AccountNumberFor(draws[i]);
      isUnique := !NumberTaken(accounts, number);
      i := i + 1;
    }
  }

  /** Storing a new account under the next id, with a fresh number and an unused (owner, type), keeps every invariant. */
  lemma AddAccountKeepsInvariants(accounts: map<int, Account>, log: seq<Transaction>, nextAccountId: int,
                                  nextTransactionId: int, account: Account)
    requires AccountsWellFormed(accounts, nextAccountId) && LogWellFormed(log, accounts, nextTransactionId)
    requires account.id == nextAccountId && account.balance == 0 && nextAccountId >= 1
    requires !NumberTaken(accounts, account.accountNumber)
    requires !HasAccountOfType(accounts, account.userId, account.accountType)
    ensures AccountsWellFormed(accounts[account.id := account], nextAccountId + 1)
    ensures LogWellFormed(log, accounts[account.id := account], nextTransactionId)
    ensures BalancesMatch(accounts, log) ==> BalancesMatch(accounts[account.id := account], log)
  {
    NewAccountHasNoRows(log, accounts, nextTransactionId, account.id);
  }

  /** No stored row can belong to an id that has not been allocated yet. */
  lemma NewAccountHasNoRows(log: seq<Transaction>, accounts: map<int, Account>, nextTransactionId: int, id: int)
    requires LogWellFormed(log, accounts, nextTransactionId)
    requires id !in accounts
    ensures CompletedSum(log, id) == 0
    ensures TransactionsOf(log, id) == []
  {
    CompletedSumOfAbsentAccount(log, id);
    if TransactionsOf(log, id) != [] {
      var tx := TransactionsOf(log, id)[0];
      TransactionsOfMembership(log, id, tx);
    }
  }

  // ---------------------------------------------------------------- getAccounts

  /** `getAccounts`: exactly the accounts the user owns, scanned in id order. */
  method GetAccounts(db: Database, userId: int) returns (owned: seq<Account>)
    requires db.Valid()
    ensures forall a :: a in owned <==> a.id in db.accounts && db.accounts[a.id] == a && a.userId == userId
    ensures forall i, j :: 0 <= i < j < |owned| ==> owned[i].id < owned[j].id
  {
    owned := [];
    for id := 1 to db.nextAccountId
      invariant forall a :: a in owned <==> a.id in db.accounts && db.accounts[a.id] == a && a.userId == userId && a.id < id
      invariant forall i, j :: 0 <= i < j < |owned| ==> owned[i].id < owned[j].id
      invariant forall k :: 0 <= k < |owned| ==> owned[k].id < id
    {
      if id in db.accounts && db.accounts[id].userId == userId {
        owned := owned + [db.accounts[id]];
      }
    }
  }

  // ---------------------------------------------------------------- fundAccount

  datatype FundingType = Card | Bank {
    function Name(): string {
      match this
      case Card => "card"
      case Bank => "bank"
    }
  }

  /** The funding source as submitted: the type, the card or bank account number, and an optional routing number. */
  datatype FundingSource = FundingSource(kind: FundingType, accountNumber: string, routingNumber: Option<string>)

  /**
   * The submitted amount: a string, or a number already rounded to whole cents
   * (`Math.round(x * 100) / 100`, kept as its integer count of cents).
   */
  datatype AmountInput = AmountText(text: string) | AmountNumber(cents: int)

  /** What a successful funding returns: the new row and the balance after it. */
  datatype Funded = Funded(transaction: Transaction, newBalance: int)

  /** The checks that pass: the account to credit and the amount in cents. */
  datatype Approval = Approval(account: Account, cents: int)

  /** The refusal of an amount below one cent. */
  const MinimumAmountMessage := "Amount must be at least $0.01"

  /** Amount checks: the string must match the amount grammar, and the amount must be at least one cent. */
  function CheckAmount(amount: AmountInput): (r: Result<int, Error>)
    ensures r.Success? ==> r.value >= 1
    ensures amount.AmountText? ==>
      (Amount.ParseAndNormalizeAmount(amount.text) == None <==> r == Failure(BadRequest("Invalid amount format")))
    ensures amount.AmountText? && r.Success? ==> Amount.ParseAndNormalizeAmount(amount.text) == Some(r.value as nat)
    ensures amount.AmountNumber? ==> (r.Success? <==> amount.cents >= 1) && (r.Success? ==> r.value == amount.cents)
    ensures amount.AmountText? ==>
      match Amount.ParseAndNormalizeAmount(amount.text)
      case None => true
      case Some(c) =>
        && (c >= 1 ==> r == Success(c as int))
        && (c < 1 ==> r == Failure(BadRequest(MinimumAmountMessage)))
    ensures amount.AmountNumber? && amount.cents < 1 ==> r == Failure(BadRequest(MinimumAmountMessage))
  {
    var cents :=
      match amount
      case AmountText(text) =>
        (match Amount.ParseAndNormalizeAmount(text)
         case None => Failure(BadRequest("Invalid amount format"))
         case Some(c) => Success(c as int))
      case AmountNumber(c) => Success(c);
    if cents.Failure? then Failure(cents.error)
    else if cents.value < 1 then Failure(BadRequest(MinimumAmountMessage))
    else cents
  }

  /** The bank-account number pattern `^\d+$`: one or more ASCII digits. */
  predicate IsBankAccountNumber(s: string) {
    |s| > 0 && AllDigits(s)
  }

  /**
   * Funding-source checks: a card must pass the Luhn check; a bank account needs digits, then a
   * non-empty routing number, then a valid one. The first failed check gives the error.
   */
  function SourceError(source: FundingSource): (e: Option<Error>)
    ensures source.kind == Card ==> (e == None <==> Payment.LuhnValid(source.accountNumber))
    ensures source.kind == Bank ==>
      (e == None <==>
        && IsBankAccountNumber(source.accountNumber)
        && source.routingNumber.Some?
        && Routing.IsValidRoutingNumber(source.routingNumber.value))
    ensures source.kind == Card && !Payment.LuhnValid(source.accountNumber) ==>
      e == Some(BadRequest("Invalid card number"))
    ensures source.kind == Bank && !IsBankAccountNumber(source.accountNumber) ==>
      e == Some(BadRequest("Invalid bank account number"))
    ensures source.kind == Bank && IsBankAccountNumber(source.accountNumber)
            && (source.routingNumber == None || source.routingNumber == Some("")) ==>
      e == Some(BadRequest("Routing number is required for bank transfers"))
    ensures source.kind == Bank && IsBankAccountNumber(source.accountNumber)
            && source.routingNumber.Some? && source.routingNumber.value != ""
            && !Routing.IsValidRoutingNumber(source.routingNumber.value) ==>
      e == Some(BadRequest("Invalid routing number"))
  {
    match source.kind
    case Card =>
      if !Payment.LuhnValid(source.accountNumber) then Some(BadRequest("Invalid card number")) else None
    case Bank =>
      if !IsBankAccountNumber(source.accountNumber) then Some(BadRequest("Invalid bank account number"))
      else if source.routingNumber == None || source.routingNumber == Some("") then
        Some(BadRequest("Routing number is required for bank transfers"))
      else if !Routing.IsValidRoutingNumber(source.routingNumber.value) then Some(BadRequest("Invalid routing number"))
      else None
  }

  /** The account row with that id, when it belongs to the user. */
  function OwnedAccount(accounts: map<int, Account>, userId: int, accountId: int): (a: Option<Account>)
    ensures a.Some? <==> accountId in accounts && accounts[accountId].userId == userId
    ensures a.Some? ==> a.value == accounts[accountId]
  {
    if accountId in accounts && accounts[accountId].userId == userId then Some(accounts[accountId]) else None
  }

  /** All of `fundAccount`'s checks, in the order the procedure makes them; the first failure is the answer. */
  function FundCheck(accounts: map<int, Account>, userId: int, accountId: int, amount: AmountInput, source: FundingSource)
    : (r: Result<Approval, Error>)
    ensures r.Success? <==>
      && CheckAmount(amount).Success?
      && SourceError(source) == None
      && OwnedAccount(accounts, userId, accountId).Some?
      && accounts[accountId].status == Active
    ensures r.Success? ==> r.value == Approval(accounts[accountId], CheckAmount(amount).value)
    ensures CheckAmount(amount).Failure? ==> r == Failure(CheckAmount(amount).error)
    ensures CheckAmount(amount).Success? && SourceError(source).Some? ==> r == Failure(SourceError(source).value)
    ensures CheckAmount(amount).Success? && SourceError(source) == None && OwnedAccount(accounts, userId, accountId) == None ==>
      r == Failure(NotFound("Account not found"))
    ensures CheckAmount(amount).Success? && SourceError(source) == None && OwnedAccount(accounts, userId, accountId).Some?
            && accounts[accountId].status != Active ==>
      r == Failure(BadRequest("Account is not active"))
  {
    var cents := CheckAmount(amount);
    if cents.Failure? then Failure(cents.error)
    else
      var sourceError := SourceError(source);
      if sourceError.Some? then Failure(sourceError.value)
      else
        match OwnedAccount(accounts, userId, accountId)
        case None => Failure(NotFound("Account not found"))
        case Some(account) =>
          if account.status != Active then Failure(BadRequest("Account is not active"))
          else Success(Approval(account, cents.value))
  }

  /** The row a successful funding inserts. */
  function FundingDeposit(id: int, accountId: int, cents: int, kind: FundingType, createdAt: int, processedAt: int)
    : Transaction
  {
    Transaction(id, accountId, Deposit, cents, "Funding from " + kind.Name(), Completed, createdAt, Some(processedAt))
  }

  /**
   * `fundAccount`: when every check passes, inserts one completed deposit and credits its amount to
   * the account; when one fails, changes nothing and reports the first failure. The returned balance
   * is accumulated from a hundred equal slices of the amount, as the procedure does it. The row
   * returned is the one inserted (see `EarliestCreated` for what the procedure actually re-reads).
   * `createdAt` and `processedAt` are the clock readings of the database and of the server.
   */
  method FundAccount(db: Database, userId: int, accountId: int, amount: AmountInput, source: FundingSource,
                     createdAt: int, processedAt: int)
    returns (r: Result<Funded, Error>)
    requires db.Valid()
    modifies db
    ensures db.Valid()
    ensures old(db.Reconciled()) ==> db.Reconciled()
    ensures var check := FundCheck(old(db.accounts), userId, accountId, amount, source);
      check.Failure? ==> r == Failure(check.error) && unchanged(db)
    ensures var check := FundCheck(old(db.accounts), userId, accountId, amount, source);
      check.Success? ==>
        var account := check.value.account;
        var tx := FundingDeposit(old(db.nextTransactionId), accountId, check.value.cents, source.kind, createdAt, processedAt);
        && r == Success(Funded(tx, account.balance + check.value.cents))
        && db.transactions == old(db.transactions) + [tx]
        && db.accounts == old(db.accounts)[accountId := account.(balance := account.balance + check.value.cents)]
        && db.nextTransactionId == old(db.nextTransactionId) + 1
        && db.nextAccountId == old(db.nextAccountId)
  {
    var check := CheckFunding(db.accounts, userId, accountId, amount, source);
    if check.Failure? {
      return Failure(check.error);
    }
    var account := check.value.account;
    var amountCents := check.value.cents;

    var tx := FundingDeposit(db.nextTransactionId, accountId, amountCents, source.kind, createdAt, processedAt);
    InsertDeposit(db, tx);

    var finalBalance := ReportedBalance(account.balance, amountCents);
    r := Success(Funded(tx, finalBalance));
  }

  /**
   * The balance `fundAccount` reports back: the old balance plus a hundred additions of a
   * hundredth of the amount, counted here in hundredths of a cent, where each slice is exact.
   */
  method ReportedBalance(balance: int, amountCents: int) returns (finalBalance: int)
    ensures finalBalance == balance + amountCents
  {
    var hundredths := balance * 100;
    for i := 0 to 100
      invariant hundredths == balance * 100 + Repeated(amountCents, i)
    {
      hundredths := hundredths + amountCents;
    }
    RepeatedIsProduct(amountCents, 100);
    finalBalance := hundredths / 100;
  }

  /** The insert of a completed row under the next row id, then `balance = balance + amount` on its account. */
  method InsertDeposit(db: Database, tx: Transaction)
    requires db.Valid() && tx.accountId in db.accounts
    requires tx.id == db.nextTransactionId && tx.status == Completed && tx.processedAt.Some?
    modifies db
    ensures db.Valid()
    ensures old(db.Reconciled()) ==> db.Reconciled()
    ensures db.transactions == old(db.transactions) + [tx]
    ensures var account := old(db.accounts)[tx.accountId];
      db.accounts == old(db.accounts)[tx.accountId := account.(balance := account.balance + tx.amount)]
    ensures db.nextTransactionId == old(db.nextTransactionId) + 1 && db.nextAccountId == old(db.nextAccountId)
  {
    var account := db.accounts[tx.accountId];
    DepositKeepsInvariants(db.accounts, db.transactions, db.nextAccountId, db.nextTransactionId, account, tx);
    db.transactions := db.transactions + [tx];
    db.nextTransactionId := db.nextTransactionId + 1;
    db.accounts := db.accounts[tx.accountId := account.(balance := account.balance + tx.amount)];
  }

  /** `n` additions of `c`, one at a time. */
  function Repeated(c: int, n: nat): int {
    if n == 0 then 0 else Repeated(c, n - 1) + c
  }

  lemma {:induction false} RepeatedIsProduct(c: int, n: nat)
    ensures Repeated(c, n) == n * c
  {
    if n > 0 {
      RepeatedIsProduct(c, n - 1);
    }
  }

  /** The checks of `fundAccount` as the procedure runs them, stopping at the first failure. */
  method CheckFunding(accounts: map<int, Account>, userId: int, accountId: int, amount: AmountInput,
                      source: FundingSource)
    returns (r: Result<Approval, Error>)
    ensures r == FundCheck(accounts, userId, accountId, amount, source)
  {
    var cents := CheckAmount(amount);
    if cents.Failure? {
      return Failure(cents.error);
    }

    match source.kind {
      case Card =>
        var ok := Payment.IsValidCardNumber(source.accountNumber);
        if !ok {
          return Failure(BadRequest("Invalid card number"));
        }
      case Bank =>
        if !IsBankAccountNumber(source.accountNumber) {
          return Failure(BadRequest("Invalid bank account number"));
        }
        if source.routingNumber == None || source.routingNumber == Some("") {
          return Failure(BadRequest("Routing number is required for bank transfers"));
        }
        if !Routing.IsValidRoutingNumber(source.routingNumber.value) {
          return Failure(BadRequest("Invalid routing number"));
        }
    }

    var owned := OwnedAccount(accounts, userId, accountId);
    if owned.None? {
      return Failure(NotFound("Account not found"));
    }
    if owned.value.status != Active {
      return Failure(BadRequest("Account is not active"));
    }
    r := Success(Approval(owned.value, cents.value));
  }

  /** Appending a completed deposit under the next row id and crediting it to its account keeps every invariant. */
  lemma DepositKeepsInvariants(accounts: map<int, Account>, log: seq<Transaction>, nextAccountId: int,
                               nextTransactionId: int, account: Account, tx: Transaction)
    requires AccountsWellFormed(accounts, nextAccountId) && LogWellFormed(log, accounts, nextTransactionId)
    requires account.id in accounts && accounts[account.id] == account
    requires tx.id == nextTransactionId && tx.accountId == account.id && tx.status == Completed && tx.processedAt.Some?
    ensures var accounts' := accounts[account.id := account.(balance := account.balance + tx.amount)];
      && AccountsWellFormed(accounts', nextAccountId)
      && LogWellFormed(log + [tx], accounts', nextTransactionId + 1)
      && (BalancesMatch(accounts, log) ==> BalancesMatch(accounts', log + [tx]))
  {
    var accounts' := accounts[account.id := account.(balance := account.balance + tx.amount)];
    var log' := log + [tx];
    forall k | 0 <= k < |log'|
      ensures log'[k].accountId in accounts' && 1 <= log'[k].id < nextTransactionId + 1 && log'[k].processedAt.Some?
    {
      if k < |log| {
        assert log'[k] == log[k];
      }
    }
    forall k, l | 0 <= k < l < |log'|
      ensures log'[k].id < log'[l].id
    {
      assert log'[k] == log[k];
      if l < |log| {
        assert log'[l] == log[l];
      }
    }
    forall id | id in accounts'
      ensures CompletedSum(log + [tx], id) == CompletedSum(log, id) + (if id == account.id then tx.amount else 0)
    {
      CompletedSumAppend(log, tx, id);
    }
  }

  /**
   * The row the procedure re-reads after its insert: the first row in ascending `createdAt`
   * order (ties in storage order), whichever account it belongs to.
   */
  function EarliestCreated(log: seq<Transaction>): (k: int)
    requires log != []
    ensures 0 <= k < |log|
    ensures forall i :: 0 <= i < |log| ==> log[k].createdAt <= log[i].createdAt
    ensures forall i :: 0 <= i < k ==> log[i].createdAt > log[k].createdAt
  {
    if |log| == 1 then 0
    else
      var init := log[..|log| - 1];
      var k := EarliestCreated(init);
      assert forall i :: 0 <= i < |init| ==> init[i] == log[i];
      if log[|log| - 1].createdAt < log[k].createdAt then |log| - 1 else k
  }

  /**
   * Once any stored row is older than the deposit just inserted, the row the procedure re-reads
   * is not that deposit, whatever order the database gives to rows created at the same time.
   */
  lemma ReturnedRowIsNotTheDeposit(log: seq<Transaction>, tx: Transaction)
    requires forall i :: 0 <= i < |log| ==> log[i].id < tx.id
    requires exists i :: 0 <= i < |log| && log[i].createdAt < tx.createdAt
    ensures (log + [tx])[EarliestCreated(log + [tx])].id != tx.id
  {
    var all := log + [tx];
    var k := EarliestCreated(all);
    var i :| 0 <= i < |log| && log[i].createdAt < tx.createdAt;
    assert all[i] == log[i];
    assert k < |log|;
    assert all[k] == log[k];
  }

  // ---------------------------------------------------------------- getTransactions

  /** A transaction row with the type of the account it belongs to (`None` when that account is gone). */
  datatype EnrichedTransaction = EnrichedTransaction(transaction: Transaction, accountType: Option<AccountType>)

  /**
   * `getTransactions`: NOT_FOUND unless the user owns the account; otherwise every row of that
   * account, in storage order, each with the account's type looked up row by row.
   */
  method GetTransactions(db: Database, userId: int, accountId: int)
    returns (r: Result<seq<EnrichedTransaction>, Error>)
    ensures OwnedAccount(db.accounts, userId, accountId) == None <==> r == Failure(NotFound("Account not found"))
    ensures OwnedAccount(db.accounts, userId, accountId).Some? <==> r.Success?
    ensures r.Success? ==>
      var rows := TransactionsOf(db.transactions, accountId);
      && |r.value| == |rows|
      && forall k :: 0 <= k < |rows| ==>
           r.value[k] == EnrichedTransaction(rows[k], Some(db.accounts[accountId].accountType))
  {
    var owned := OwnedAccount(db.accounts, userId, accountId);
    if owned.None? {
      return Failure(NotFound("Account not found"));
    }
    var rows := TransactionsOf(db.transactions, accountId);
    var enriched: seq<EnrichedTransaction> := [];
    for i := 0 to |rows|
      invariant |enriched| == i
      invariant forall k :: 0 <= k < i ==>
        enriched[k] == EnrichedTransaction(rows[k], Some(db.accounts[accountId].accountType))
    {
      var tx := rows[i];
      var accountType := if tx.accountId in db.accounts then Some(db.accounts[tx.accountId].accountType) else None;
      enriched := enriched + [EnrichedTransaction(tx, accountType)];
    }
    r := Success(enriched);
  }
}
