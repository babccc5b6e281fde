# Banking app funding ledger — a Dafny model

This project models the money-handling core of a small online banking application. Users own
checking and savings accounts and fund them from a card or a bank account. Every funding
appends a completed deposit row to the transactions table and raises the account's stored
balance by the same amount. Four maintenance scripts work on the same two tables:

- `verify-balances` recomputes each balance from the account's completed rows and counts the
  accounts whose stored balance differs.
- `fix-balances` does the same and, when asked, overwrites the wrong balances.
- `simulate-funding-db` writes three deposits straight to the tables.
- `benchmark-transactions` tops an account up with generated rows and lists them two ways.

The pure validators used at the edges are modelled too: the amount grammar, the card-number
normaliser with its Luhn check and network table, the ABA routing-number checksum, password
strength, e-mail normalisation and the TLD typo hint, date-of-birth checks and the US
state-code lists.

Layout (one module per source file, plus shared ones):

- `Wrappers` holds Option and Result. `Text` holds digits, decimal strings, `toString`,
  `padStart`, ASCII case mapping and the UTF-16 `length` of a string.
- The validators are `Amount`, `Payment`, `Routing`, `Password`, `Email`, `Validators` and
  `States`.
- `Ledger` defines the row and account types and the `Database` class. The class owns the
  accounts table as a `map` keyed by id and the transactions table as a `seq` in insertion
  order, with both autoincrement counters. It also defines the ledger invariant: each stored
  balance equals the total of the account's completed rows (`Reconciled`).
- `AccountRouter` models `server/routers/account.ts`.
- `Reconcile` models both balance scripts. They share `recomputeBalance` and the scan loop.
- `TxOrder` holds the most-recent-first comparator, an in-place insertion sort, and the
  agreement with the SQL `ORDER BY`.
- `ScriptSetup` finds or creates the scripts' account and fetches its rows sorted.
- `SimulateFunding` and `Benchmark` model the two scripts.
- `Session` ties the server and the auditor together. After any sequence of `createAccount`
  and `fundAccount` calls on a reconciled database, `verify-balances` reports no mismatch and
  exits with 0.

Modelling conventions:

- Money is an integer number of cents everywhere, in exact arithmetic. The source stores
  JavaScript numbers; "Left out" says where the two part ways.
- Random draws, clocks and the caller's user id are parameters.
- A timestamp is an `int` (milliseconds), and a calendar date is a `(year, month, day)` triple.
- Where the repository's own description and its code disagree, the model follows the code:
  - The reconciliation scripts add every completed row's amount, withdrawals included. The
    description says withdrawals subtract (`Reconcile.WithdrawalsAreAdded`).
  - `fundAccount` has a one-cent minimum and no maximum amount. The description mentions a
    configured ceiling.
  - `getTransactions` returns the account's rows in storage order without pagination. The
    description has it paginated and newest first.
  - Account status is compared with `"active"` only, and every other stored status is kept as
    text.

## Model

| member | source | states |
|---|---|---|
| Amount.ParseAndNormalizeAmount | server/utils/amount.ts:1-15 | defined exactly on the amount grammar (`0` or digits without a leading zero, then optionally a point and one or two digits); the value is 100 × the integer part plus the fraction scaled to cents |
| Amount.FirstDotIsTheDot | server/utils/amount.ts:5 | a string holding a point is not a bare integer part, and the only split the grammar allows is at the first point |
| Amount.ValidAlphabet | server/utils/amount.ts:5 | an accepted string holds only digits and the point, so signs, spaces and letters are refused |
| Amount.RejectsLeadingZeros | server/utils/amount.ts:3-5 | two or more leading digits starting with `0` (`00`, `012.34`) are refused |
| Amount.RejectsBadFraction | server/utils/amount.ts:5 | a point followed by no digits or by more than two is refused |
| Amount.ParseSplit | server/utils/amount.ts:9-14 | an integer part, a point and a one- or two-digit fraction parse to 100 × whole + cents |
| Amount.ParseAtPoint | server/utils/amount.ts:9-14 | a string of the dotted form parses to the value of its two parts |
| Amount.FormatCentsRoundTrip | server/utils/amount.ts:9-15 | every cent amount has a canonical spelling that parses back to exactly that amount |
| Amount.ExampleAccepted | server/utils/amount.ts:3 | `1.23` → 123, `0.5` → 50, `10` → 1000 cents |
| Amount.ExampleZero | server/utils/amount.ts:3 | `0` and `0.00` are well-formed and give 0 (the caller refuses zero) |
| Amount.ExampleRejected | server/utils/amount.ts:3-6 | `01.00`, `00`, `1.234`, `1.`, `-1.00`, `abc` are refused |
| Payment.NormalizeCardNumber | server/utils/payment.ts:1-3 | the result holds no whitespace or hyphen and is no longer than the input |
| Payment.NormalizeKeepsOthers | server/utils/payment.ts:1-3 | every other character is kept as many times as it occurs |
| Payment.NormalizeConcat | server/utils/payment.ts:1-3 | normalisation distributes over concatenation, so kept characters stay in order |
| Payment.NormalizeFixed | server/utils/payment.ts:1-3 | a string without separators is its own normal form |
| Payment.DigitsAreNormal | server/utils/payment.ts:1-3 | a digit string is already normalised |
| Payment.NormalizeIdempotent | server/utils/payment.ts:1-3 | normalising twice equals normalising once |
| Payment.LuhnTerm | server/utils/payment.ts:12-15 | a digit's contribution, doubled or not, is a single digit |
| Payment.LuhnTermInjective | server/utils/payment.ts:12-15 | distinct digits contribute distinct terms |
| Payment.IsValidLuhn | server/utils/payment.ts:5-20 | the right-to-left loop returns true exactly for 12–19 digits after normalisation whose doubled-alternate sum is divisible by 10 |
| Payment.LuhnValid | server/utils/payment.ts:5-20 | what `isValidLuhn` decides: 12–19 digits after normalisation, with a Luhn sum divisible by 10; `IsValidLuhn` is proved to return it |
| Payment.LuhnValidOfDigits | server/utils/payment.ts:7-19 | a card-length digit string passes exactly when its Luhn sum ≡ 0 (mod 10) |
| Payment.IsValidCardNumber | server/utils/payment.ts:22-39 | the verdict is the Luhn verdict whatever network is detected |
| Payment.LuhnSumOneDigitApart | server/utils/payment.ts:10-18 | changing one digit changes the sum by the difference of its two terms |
| Payment.LuhnDetectsSingleDigitError | server/utils/payment.ts:10-19 | two digit strings differing in one digit never have the same sum mod 10 |
| Payment.LuhnSumConcat | server/utils/payment.ts:10-18 | the sum over a concatenation, with the left part's doubling shifted by the right part's length |
| Payment.LuhnSumOnes | server/utils/payment.ts:10-18 | closed form of the sum over a run of ones |
| Payment.LuhnExampleValid | server/utils/payment.ts:5-20 | `4111111111111111` passes |
| Payment.LuhnExampleInvalid | server/utils/payment.ts:5-20 | `4111111111111112` fails |
| Payment.GetCardType | server/utils/payment.ts:52-82 | `unknown` whenever the normalised number is not 12–19 digits; `amex` exactly when the Amex pattern matches |
| Payment.CardTypeSound | server/utils/payment.ts:52-82 | a network other than `unknown` is reported only for a 12–19-digit number that its own pattern matches and that no earlier network in the table matches |
| Payment.CardTypeComplete | server/utils/payment.ts:52-82 | a 12–19-digit number that some network's pattern matches is never `unknown`, and gets that network or an earlier one |
| Payment.CardTypeUnknown | server/utils/payment.ts:52-82 | `unknown` exactly when the length guard fails or no pattern matches |
| Payment.Rank | server/utils/payment.ts:54-81 | the position of each network in the lookup order, `unknown` last |
| Payment.CardTypeIgnoresSeparators | server/utils/payment.ts:53 | spaces and hyphens never change the detected network |
| Payment.DiscoverBeforeUnionPay | server/utils/payment.ts:63-79 | a 16-digit 622126–622925 number fits both patterns and the earlier Discover check wins |
| Payment.SixteenDigitVisa | server/utils/payment.ts:72-73 | any 16-digit number starting with 4 is Visa |
| Payment.CardTypeExample | server/utils/payment.ts:72-73 | `4111111111111111` is Visa |
| Routing.ParseDigit | server/utils/routing.ts:3 | `parseInt` of one character is a number exactly for a digit, and then its value |
| Routing.Weight | server/utils/routing.ts:8-11 | the weight of every position is 3, 7 or 1 |
| Routing.WeightedSumNine | server/utils/routing.ts:8-11 | the positional sum is the source's 3·(d1+d4+d7) + 7·(d2+d5+d8) + (d3+d6+d9) |
| Routing.RoutingNumberMeaning | server/utils/routing.ts:1-14 | valid exactly for nine digits whose weighted sum is a multiple of 10; the NaN guard never fires |
| Routing.IsValidRoutingNumber | server/utils/routing.ts:1-14 | the source's steps: the nine-digit test, the per-digit parse with its NaN guard and the 3-7-1 checksum; true only for nine ASCII digits |
| Routing.WeightedSumOneDigitApart | server/utils/routing.ts:8-11 | one changed digit changes the sum by its weight times the digit difference |
| Routing.WeightedChangeNotMultipleOfTen | server/utils/routing.ts:13 | no single-digit change weighted by 3, 7 or 1 is a multiple of 10 |
| Routing.RoutingDetectsSingleDigitError | server/utils/routing.ts:8-13 | two nine-digit strings differing in one digit are never both valid |
| Routing.RoutingExamples | server/utils/routing.ts:1-14 | `021000021` passes and `123456789` fails |
| Password.PasswordFailureReason | server/utils/password.ts:14-21 | no reason exactly when `isStrongPassword` holds; too short exactly below 12 UTF-16 code units; each later reason implies that every earlier requirement is met |
| Password.ReasonIsMissing | server/utils/password.ts:15-19 | the reason given names a requirement the password really misses |
| Password.Examples | server/utils/password.ts:1-21 | `Abcdefghij1!` is strong; `Ab1!` is too short; `abcdefghijk1!` lacks an upper-case letter |
| Password.AstralCharacterCountsTwice | server/utils/password.ts:4 | a password of ten ASCII characters and one emoji above U+FFFF is eleven characters but twelve code units, and is strong |
| Password.IsStrongPassword | server/utils/password.ts:1-12 | at least 12 UTF-16 code units with a lower-case letter, an upper-case letter, a digit and a character that is none of these; `PasswordFailureReason` is `None` exactly when it holds |
| Email.Trim | server/utils/email.ts:2 | the result has no leading or trailing JavaScript whitespace, and it is the input with a run of whitespace removed from each end |
| Email.TrimStart | server/utils/email.ts:2 | a suffix of the input that does not start with whitespace; everything removed is whitespace |
| Email.TrimEnd | server/utils/email.ts:2 | a prefix of the input that does not end with whitespace; everything removed is whitespace |
| Email.NormalizeEmail | server/utils/email.ts:1-3 | under ASCII case mapping: no upper-case letter, no surrounding whitespace, not longer than the input |
| Email.NormalizeEmailOfPadded | server/utils/email.ts:1-3 | an address without surrounding whitespace, padded with whitespace on both sides, normalises to its lower-case form |
| Email.TrimOfPadded | server/utils/email.ts:2 | trimming removes exactly the whitespace padding around a trimmed core |
| Email.TrimEndPadded | server/utils/email.ts:2 | trailing whitespace after text that does not end in whitespace is removed, nothing more |
| Email.TrimStartPadded | server/utils/email.ts:2 | leading whitespace before text that does not start with whitespace is removed, nothing more |
| Email.LowerKeepsWhitespace | server/utils/email.ts:2 | lower-casing maps whitespace to whitespace and nothing else to whitespace |
| Email.TrimFixed | server/utils/email.ts:2 | trimming a string without surrounding whitespace changes nothing |
| Email.LowerIdempotent | server/utils/email.ts:2 | lower-casing twice equals lower-casing once |
| Email.NormalizeEmailIdempotent | server/utils/email.ts:1-3 | normalising an address twice equals normalising it once |
| Email.Split | server/utils/email.ts:6-7 | `split` yields at least one piece and no piece holds the separator |
| Email.JoinSplit | server/utils/email.ts:6-7 | joining the pieces with the separator gives back the string |
| Email.SplitJoin | server/utils/email.ts:6-7 | splitting separator-free pieces joined by the separator gives back the pieces |
| Email.SplitCount | server/utils/email.ts:6-7 | the number of pieces is one more than the number of separators |
| Email.SplitWithoutSeparator | server/utils/email.ts:6-7 | a string without the separator splits into itself |
| Email.SplitAt | server/utils/email.ts:6 | one separator splits a string into the text before and after it |
| Email.SplitPrefix | server/utils/email.ts:6-7 | separator-free text in front is glued to the first piece |
| Email.SplitLast | server/utils/email.ts:7-8 | the last piece is the text after the last separator |
| Email.SplitLower | server/utils/email.ts:6 | lower-casing commutes with splitting on `@` or `.` |
| Email.SplitPiecesOfFree | server/utils/email.ts:6-7 | splitting introduces no character the string lacked |
| Email.Tld | server/utils/email.ts:6-8 | the TLD holds no `.` and no `@` |
| Email.Domain | server/utils/email.ts:6 | the text after the first `@` up to the next one, lower-cased, or empty when there is no `@`; it never holds an `@` |
| Email.DomainOfAddress | server/utils/email.ts:6 | with a single `@` the domain is the lower-cased text after it |
| Email.TldOfDomain | server/utils/email.ts:7-8 | the TLD of `host.tld` is `tld` |
| Email.TldOfAddress | server/utils/email.ts:6-8 | the TLD of `local@host.tld` is `tld` lower-cased |
| Email.CheckTldTypo | server/utils/email.ts:5-19 | a suggestion exactly when the TLD is one of the six typo keys: `com` exactly for `con`, `cim`, `c0m`; `org` exactly for `orf`, `ogr`; `net` exactly for `nete` |
| Email.NoAtNoSuggestion | server/utils/email.ts:6-8 | an address without `@` has an empty TLD and gets no suggestion |
| Email.TypoIgnoresCase | server/utils/email.ts:6 | the domain and the suggestion ignore letter case |
| Email.TypoConSuggestsCom | server/utils/email.ts:9-17 | `….con` suggests `com`; `….com` gets no suggestion |
| Email.CheckTldTypoAsWritten | server/utils/email.ts:17 | the `in` lookup as written: a suggestion exactly when the corrected check gives one, and then the same domain; an inherited member, keyed by the TLD, exactly for `constructor` and `__proto__` |
| Email.InheritedKeyMatches | server/utils/email.ts:17 | `x@host.constructor` yields the inherited member as written and no suggestion when corrected |
| Validators.BeforeIsTimestampOrder | server/utils/validators.ts:13 | comparing day triples agrees with comparing the midnight timestamps |
| Validators.BeforeIsStrictTotalOrder | server/utils/validators.ts:13 | the day order is irreflexive, asymmetric, transitive and total |
| Validators.IsFutureDate | server/utils/validators.ts:8-14 | false for an unparsed date; otherwise true exactly when the day is after today |
| Validators.CalculateAge | server/utils/validators.ts:16-26 | an age exactly when the date parses |
| Validators.AgeIsCompletedYears | server/utils/validators.ts:20-25 | the age-th birthday is today or past and the next one is still to come |
| Validators.AgeIsMonotone | server/utils/validators.ts:16-26 | a later "today" never gives a smaller age |
| Validators.FutureBirthNegativeAge | server/utils/validators.ts:8-26 | a birth date in the future gives a negative age |
| Validators.IsAtLeastAge | server/utils/validators.ts:28-32 | false for an unparsed date |
| Validators.AtLeastAgeMeansBirthdayReached | server/utils/validators.ts:28-32 | at least `minAge` exactly when the `minAge`-th birthday is today or past |
| Validators.AdultOnEighteenthBirthday | server/utils/validators.ts:28 | 18 is reached on the eighteenth birthday and not the day before |
| Validators.IsValidStateCode | server/utils/validators.ts:34-41 | a missing or empty code is refused; otherwise valid exactly when its upper-cased form is listed |
| Validators.StateCodeHasTwoLetters | server/utils/validators.ts:37-40 | under ASCII case mapping, every accepted code has two characters |
| Validators.StateCodeIgnoresCase | server/utils/validators.ts:36 | the check ignores letter case |
| States.IsValidUsState | lib/validators/states.ts:8-11 | a missing or empty code is refused; otherwise valid exactly when its upper-cased form is in the set |
| States.AcceptedCodeShape | lib/validators/states.ts:1-11 | under ASCII case mapping, every accepted code has two characters that upper-case to two capitals |
| States.FiftyOneDistinctCodes | lib/validators/states.ts:1-3 | the list has 51 entries, no two alike |
| States.AgreesWithStateCodeCheck | lib/validators/states.ts:1-11 | `isValidUSState` and `isValidStateCode` agree on every input |
| Text.ToDecimal | server/routers/account.ts:13 | `toString` of a non-negative integer: at least one digit, with a leading `0` only for zero |
| Text.PadStart | server/routers/account.ts:13 | `padStart`: the width is reached, the original is the suffix, and the front is the fill character |
| Text.ToDecimalValue | server/routers/account.ts:13 | the decimal form reads back as the number |
| Text.Utf16Units | server/utils/password.ts:4 | one code unit for a character up to U+FFFF, two (a surrogate pair) above it |
| Text.Utf16Length | server/utils/password.ts:4 | `length` counts code units: between the number of characters and twice that |
| Text.Utf16LengthIsLength | server/utils/password.ts:4 | the unit count equals the character count exactly when no character lies above U+FFFF |
| Text.Utf16LengthConcat | server/utils/password.ts:4 | the unit count of a concatenation is the sum of its parts' counts |
| Ledger.MismatchedIds | scripts/verify-balances.js:21-29 | exactly the stored accounts whose balance differs from the total of their completed rows |
| Ledger.NoMismatchIffBalancesMatch | scripts/verify-balances.js:31-38 | no mismatch exactly when every balance matches |
| Ledger.TransactionsOf | server/routers/account.ts:199-202 | the account's rows in storage order: all of that account and no more than stored |
| Ledger.TransactionsOfMembership | server/routers/account.ts:199-202 | a row is returned exactly when it is stored and belongs to the account |
| Ledger.CompletedSumAppend | scripts/fix-balances.js:8-12 | appending one row adds exactly its contribution |
| Ledger.CompletedSumConcat | scripts/fix-balances.js:8-12 | the recomputed total is additive over concatenation |
| Ledger.CompletedSumPermutation | scripts/fix-balances.js:8-12 | the recomputed total does not depend on the order the rows come back in |
| Ledger.CompletedSumOfAbsentAccount | scripts/fix-balances.js:8-12 | rows of other accounts add nothing |
| Ledger.Database.constructor | lib/db/index.ts:35-54 | empty tables, both counters at 1, valid and reconciled |
| AccountRouter.AccountNumberDigits | server/routers/account.ts:11-14 | a generated number is exactly ten digits and reads back as the draw |
| AccountRouter.AccountNumberFor | server/routers/account.ts:11-14 | `n.toString().padStart(10, "0")` for a draw below 10^10; `AccountNumberDigits` proves it ten digits that read back as the draw |
| AccountRouter.AccountNumberInjective | server/routers/account.ts:11-14 | different draws give different numbers |
| AccountRouter.DrawFreshNumber | server/routers/account.ts:38-46 | the loop ends with the first draw whose number no account holds |
| AccountRouter.InsertAccount | server/routers/account.ts:48-54 | a new active account with balance 0 under the next id; nothing else changes |
| AccountRouter.CreateAccount | server/routers/account.ts:17-64 | CONFLICT exactly when the user already has an account of that type; otherwise that new account with the first fresh draw's number; invariants and reconciliation kept |
| AccountRouter.AddAccountKeepsInvariants | server/routers/account.ts:48-54 | a new zero-balance account keeps every table invariant and a matching ledger matching |
| AccountRouter.NewAccountHasNoRows | server/routers/account.ts:48-54 | an id not yet allocated owns no row and recomputes to 0 |
| AccountRouter.GetAccounts | server/routers/account.ts:66-70 | exactly the user's stored accounts, in increasing id order |
| AccountRouter.CheckAmount | server/routers/account.ts:86-101 | a text amount that does not parse is "Invalid amount format"; one that parses to at least one cent is accepted with that value, one that parses to zero is "Amount must be at least $0.01"; a numeric amount is accepted exactly when it is at least one cent, otherwise the same minimum-amount error |
| AccountRouter.SourceError | server/routers/account.ts:103-123 | a card passes exactly when it passes Luhn, else "Invalid card number"; a bank source fails first on a non-digit account number ("Invalid bank account number"), then on a missing or empty routing number ("Routing number is required for bank transfers"), then on a routing number that fails the checksum ("Invalid routing number"), and passes exactly when none of these fails |
| AccountRouter.IsBankAccountNumber | server/routers/account.ts:110 | the test `/^\d+$/`: one or more ASCII digits |
| AccountRouter.OwnedAccount | server/routers/account.ts:126-137 | found exactly when the id is stored and owned by the user |
| AccountRouter.FundCheck | server/routers/account.ts:86-144 | approval exactly when amount, source, ownership and active status all pass; otherwise the first failing check's error in the procedure's order: the amount error, the funding-source error, "Account not found", then "Account is not active" |
| AccountRouter.CheckFunding | server/routers/account.ts:86-144 | the step-by-step checks return what `FundCheck` specifies |
| AccountRouter.FundAccount | server/routers/account.ts:72-176 | on a failed check nothing changes; otherwise one completed deposit under the next row id, the balance raised by the amount, that row and the new balance returned; invariants and reconciliation kept |
| AccountRouter.InsertDeposit | server/routers/account.ts:146-165 | one completed row appended under the next id and its amount credited to its account, nothing else changed; invariants and reconciliation kept (also the insert and update at scripts/simulate-funding-db.js:35-39) |
| AccountRouter.ReportedBalance | server/routers/account.ts:167-170 | the loop of a hundred slices reports the old balance plus the amount, exactly |
| AccountRouter.RepeatedIsProduct | server/routers/account.ts:167-170 | 100 additions of amount/100 add the amount (in exact arithmetic) |
| AccountRouter.DepositKeepsInvariants | server/routers/account.ts:146-165 | a completed deposit carrying `processed_at` plus the matching balance credit keeps every invariant and keeps a matching ledger matching |
| AccountRouter.EarliestCreated | server/routers/account.ts:157 | the row the re-read returns: the earliest created, first in storage among ties |
| AccountRouter.ReturnedRowIsNotTheDeposit | server/routers/account.ts:157 | when an older row exists, the re-read returns a row other than the deposit just inserted |
| AccountRouter.GetTransactions | server/routers/account.ts:178-215 | NOT_FOUND exactly when the account is not the user's, success exactly when it is; then every row of the account, in order, with the account's type |
| Reconcile.CompletedRowsOf | scripts/fix-balances.js:8 | the query returns only completed rows of the account |
| Reconcile.CompletedRowsTotal | scripts/fix-balances.js:8-13 | summing the returned rows gives the account's completed total |
| Reconcile.RecomputeBalance | scripts/fix-balances.js:7-14 | the loop returns the completed total of the account |
| Reconcile.WithdrawalsAreAdded | scripts/fix-balances.js:8-12 | a completed withdrawal raises the recomputed balance by its amount |
| Reconcile.MismatchedBelow | scripts/verify-balances.js:21-29 | the mismatches a scan in id order has met before `bound` |
| Reconcile.MismatchCountStep | scripts/verify-balances.js:25-28 | each scanned account adds one to the count exactly when it is mismatched |
| Reconcile.ScanBounds | scripts/verify-balances.js:19-21 | the scan starts with nothing found and ends with every mismatch found |
| Reconcile.VerifyBalances | scripts/verify-balances.js:16-43 | the count is the number of mismatched accounts; exit 0 exactly when it is zero, else 2; zero exactly when the database is reconciled |
| Reconcile.Repair | scripts/fix-balances.js:30-33 | repairing keeps the set of accounts |
| Reconcile.RepairStep | scripts/fix-balances.js:27-33 | one more id is overwritten with its recomputed balance exactly when it is mismatched |
| Reconcile.RepairNothing | scripts/fix-balances.js:23 | before the scan nothing is repaired |
| Reconcile.RepairProperties | scripts/fix-balances.js:27-33 | after a full repair every balance matches; matching accounts are untouched; only balances change |
| Reconcile.RepairKeepsInvariants | scripts/fix-balances.js:31 | overwriting balances keeps every table invariant |
| Reconcile.FixBalances | scripts/fix-balances.js:16-50 | the count of mismatches before any change; exit 0 when none or when applying, else 2; with apply the accounts are repaired and the database is reconciled, without it nothing changes |
| TxOrder.Compare | scripts/simulate-funding-db.js:46-56 | the comparator: descending by `processed_at` or else `created_at`, then `created_at`, then id; `CompareMatchesSql` proves its sign agrees with the SQL order |
| TxOrder.CompareMatchesSql | scripts/benchmark-transactions.js:44-61 | for two rows that carry `processed_at`, the comparator's sign agrees with `ORDER BY COALESCE(processed_at, created_at) DESC, created_at DESC, id DESC` |
| TxOrder.CompareIsTotalPreorder | scripts/simulate-funding-db.js:46-56 | the comparator is antisymmetric, total and transitive, and ties only rows with the same id |
| TxOrder.SortRows | scripts/simulate-funding-db.js:46-56 | the array ends sorted by the comparator and is a permutation of the input |
| TxOrder.InsertLast | scripts/simulate-funding-db.js:46-56 | one insertion step extends the sorted prefix by one and permutes the array |
| TxOrder.SortedIsUnique | scripts/simulate-funding-db.js:46-56 | two sorted arrangements of the same rows with distinct ids are equal |
| TxOrder.ClientSortMatchesSql | scripts/benchmark-transactions.js:41-64 | on rows that carry `processed_at` and have distinct ids, the client sort and the SQL `ORDER BY` return the same rows in the same order |
| ScriptSetup.FirstAccountOf | scripts/simulate-funding-db.js:16 | `LIMIT 1` finds the user's account with the lowest id, or reports that the user has none |
| ScriptSetup.NoneFoundOwnsNothing | scripts/simulate-funding-db.js:16-17 | nothing found over the whole id range means the user owns no account |
| ScriptSetup.EnsureAccount | scripts/simulate-funding-db.js:16-23 | the first existing account; else a new active checking account with balance 0 and the fixed number; the unique-number error when the number is taken |
| ScriptSetup.RowsOfAccountIncrease | scripts/simulate-funding-db.js:44 | an account's rows come back in increasing id order |
| ScriptSetup.RowsOfAccountDistinct | scripts/simulate-funding-db.js:44 | an account's rows never share an id |
| ScriptSetup.FetchSorted | scripts/simulate-funding-db.js:44-56 | the account's rows, sorted most recent first, and exactly what the SQL ordering returns, since every stored row carries `processed_at` |
| ScriptSetup.DistinctIdsOfPermutation | scripts/simulate-funding-db.js:46 | sorting keeps ids distinct |
| SimulateFunding.SimulatedRowsContents | scripts/simulate-funding-db.js:32-36 | deposit `k + 1` is `123·(k+1)` cents, completed, on the account, with id `firstId + k` |
| SimulateFunding.SimulatedTotalClosedForm | scripts/simulate-funding-db.js:32-33 | deposits 1..n add `123·n·(n+1)/2` cents; the three deposits add 738 |
| SimulateFunding.InsertSimulatedDeposits | scripts/simulate-funding-db.js:31-41 | three rows appended, ids collected in order, balance raised by 738 |
| SimulateFunding.InsertSimulatedDeposit | scripts/simulate-funding-db.js:33-40 | iteration `i` appends deposit `i` under the next id and raises the balance to the running total of the first `i` deposits |
| SimulateFunding.SimulateOn | scripts/simulate-funding-db.js:31-56 | the deposits, then the account's rows most recent first and the final balance |
| SimulateFunding.Simulate | scripts/simulate-funding-db.js:26-70 | fails exactly when no account exists and the number is taken; otherwise the account's balance rises by 738, its rows come back sorted, and reconciliation is kept |
| Benchmark.BenchAmount | scripts/benchmark-transactions.js:33 | generated row `i` holds 1 to 100 cents |
| Benchmark.BenchProcessedAt | scripts/benchmark-transactions.js:34 | generated row `i` was processed at most 999 seconds before `now` |
| Benchmark.BenchRowsShape | scripts/benchmark-transactions.js:32-36 | `n` rows, row `k` generated from index `k` under id `firstId + k`, all completed deposits on the account |
| Benchmark.BenchRowsSum | scripts/benchmark-transactions.js:33 | the generated rows total between `n` and `100·n` cents |
| Benchmark.TransactionsOfOwnRows | scripts/benchmark-transactions.js:79 | appending the account's own rows appends them to its listing |
| Benchmark.AppendRowKeepsInvariants | scripts/benchmark-transactions.js:35 | a row under the next id, on a stored account and carrying `processed_at`, keeps the log well formed |
| Benchmark.AppendRow | scripts/benchmark-transactions.js:35 | one insert appends the row and touches no balance |
| Benchmark.InsertTransactions | scripts/benchmark-transactions.js:29-39 | exactly the `count` generated rows appended; accounts unchanged |
| Benchmark.TopUpCount | scripts/benchmark-transactions.js:81-82 | the count reaches the target, and inserts happen only when it is below |
| Benchmark.TopUp | scripts/benchmark-transactions.js:79-88 | inserts `target − current` rows when below the target, none otherwise; afterwards the account has at least `target` rows |
| Benchmark.TopUpUnbalances | scripts/benchmark-transactions.js:29-39 | inserting rows without a balance update turns a matching account into a mismatched one, off by at least a cent per row |
| Benchmark.RunOn | scripts/benchmark-transactions.js:78-94 | both listings count the account's rows, at least `target` |
| Benchmark.Run | scripts/benchmark-transactions.js:76-107 | fails exactly when no account exists and the number is taken; otherwise the user's account with both counts at least `target` |
| Session.OpenFundVerify | server/routers/account.ts:146-165 | after `createAccount` and any sequence of `fundAccount` calls on a reconciled database, `verify-balances` counts no mismatch and exits with 0 |
| Session.FreshLedgerVerifies | scripts/verify-balances.js:31-38 | the same starting from empty tables |

## Left out

- Floating point. Amounts are integer cents from the start, so the model omits
  `Math.round(num * 100) / 100`, the JavaScript number amounts with their rounding, the
  float accumulation in `fundAccount` (account.ts:167-170, an exact sum here), the float sum
  `account.balance + amount` stored as the new balance (account.ts:163, exact here) and the
  `diff > 0.001` tolerance. The source's amounts and balances are doubles, so they agree with
  the model's cents only while they stay below about 2^53 cents.
- Amount.ParseAndNormalizeAmount and AccountRouter.CheckAmount: the grammar has no length
  limit and the value is exact here, while the source converts the string with `parseFloat`.
  Above about 2^53 cents the source rounds (`"12345678901234567"` is stored as
  12345678901234568 dollars), and from about 307 integer digits on (above about 1.8 * 10^306
  dollars) `num * 100` becomes `Infinity`, which passes the `isNaN` and `< 0.01` tests and is
  stored. The model credits the exact value instead.
- AccountRouter.CheckAmount: a numeric amount is taken as whole cents, because rounding a
  JavaScript number to two decimals and the `isNaN` path are floating point.
- AccountRouter.EarliestCreated: rows with the same `createdAt` are taken in storage order,
  which `ORDER BY created_at` does not guarantee; `ReturnedRowIsNotTheDeposit` asks for a
  strictly older row so that it does not depend on this.
- Concurrency. Every procedure and script runs alone, one after another. Interleaved requests
  and the race in the account-number loop are not modelled.
- The database engine, console output and process exit. The tables are a class with a map and
  a sequence. SQL without `ORDER BY` returns rows in id order, and `LIMIT 1` returns the lowest
  id. A thrown exception (exit code 1) and the INTERNAL_SERVER_ERROR after `createAccount`'s
  re-read are not modelled, since the insert always persists here.
- `crypto.randomInt`, `new Date()` and `Date.now()` are parameters: the draws, `createdAt`,
  `processedAt` and `now`. The model reads each clock once per script run; the scripts read it
  once per row (`new Date()` in the simulation loop, `Date.now()` in the benchmark loop).
- AccountRouter.CreateAccount and AccountRouter.DrawFreshNumber require that some draw is
  fresh (or that the conflict fires first). An endless run of taken numbers is not modelled.
- Date parsing. `new Date(dateStr)` becomes an `Option<Date>` input, and a calendar date is a
  triple. Time zones, times of day and `Date` month overflow are not modelled.
- The users table and the user lookup or creation in the scripts. The user id is a parameter.
- The `BENCH_TXNS` environment variable. The target is a parameter (`Benchmark.DefaultTarget`
  is 2000), and `createIndex` and the timings are left out.
- `typeof` checks on inputs and the `try`/`catch` in `isValidCardNumber`: typed inputs make them
  unreachable.
- The `|| 0` fallback for a missing id in the comparator: stored rows always have ids.
- Case mapping is ASCII only. JavaScript's `toUpperCase` and `toLowerCase` map some non-ASCII
  characters to longer strings (`"ﬂ"` upper-cases to `"FL"`, `"İ"` lower-cases to two
  characters), so the length facts about normalised addresses and state codes hold under ASCII
  case mapping only.
- `COALESCE(processed_at, created_at)` versus `processed_at || created_at`: these differ only
  for an empty-string timestamp, which the numeric timestamps here cannot express.
- Timestamp formats. SQL orders the TEXT columns as strings while the comparator parses them
  with `new Date`. `processed_at` is written by `toISOString()` and `created_at` by
  `CURRENT_TIMESTAMP`, so `COALESCE(processed_at, created_at)` mixes the two formats as soon
  as a row lacks `processed_at`, and then the text order and the time order can differ. The
  model's SQL order is the time order, so `TxOrder.CompareMatchesSql`,
  `TxOrder.ClientSortMatchesSql` and `ScriptSetup.FetchSorted` speak only about rows that carry
  `processed_at`. Every writer sets it, so the table invariant `Ledger.LogWellFormed` requires
  it of every stored row. Rows written by other code without `processed_at` are not modelled.
- Of `lib/db/index.ts` only the two tables' columns and autoincrement ids are modelled; the
  users and sessions tables, `auth.ts`, `FundingModal.tsx` and the other scripts are not part
  of this model.

## Findings

| source | as written | input that shows it | evidently intended | confidence | as-written member | corrected member |
|---|---|---|---|---|---|---|
| server/routers/account.ts:157 | `fundAccount` re-reads "the created transaction" as the row with the earliest `createdAt` in the whole table | any funding when an older row exists: the response carries that older row, not the new deposit | return the row just inserted | not executed | AccountRouter.ReturnedRowIsNotTheDeposit | AccountRouter.FundAccount |
| server/utils/email.ts:17 | `tld in commonTypos` also matches keys inherited from `Object.prototype` | `a@b.constructor`: `checkTldTypo` returns the `Object` constructor function instead of `null` | only the six own keys suggest a correction | not executed | Email.CheckTldTypoAsWritten | Email.CheckTldTypo |
