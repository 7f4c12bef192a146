# Banking ledger core, modelled in Dafny

This project models the ledger core of a small Java banking application. The Java
core has three parts:

- the customer operations of `AccountService`: create an account, deposit,
  withdraw, transfer and look up an account;
- the accounts table behind `BankingSystem`: rows of account id, type tag and
  balance; the store writes the service makes; the monthly fees-and-interest batch;
  and the read-only report queries;
- the transactions table behind `TransactionLogger`: an append-only list of
  records holding an account id, a signed amount and a timestamp.

The model states this over two abstract tables instead of a database: Dafny
sequences held as fields of the classes `Banking.BankingSystem` and
`TransactionLog.TransactionLogger`. `BigDecimal` balances are exact integers
(cents). A timestamp is a tick of a counter that the logger advances on every
append. Each store call either succeeds completely or fails and leaves its table
as it was. A Java exception becomes a `Failures.Result` or `Failures.Outcome`
value that carries the same error.

The account model classes (`Account`, `SavingsAccount`, `CheckingAccount`,
`AccountFactory`) are not part of this model. What their `deposit`, `withdraw`
and `processMonthlyFees` do to a loaded account is a parameter,
`Accounts.AccountRules`. The lemmas that need more take the hypothesis
`Accounts.Standard`: the behaviour that the service's amount guards and
`InsufficientFundsException(accountId, requested, available)` take for granted.
Under it, a deposit adds the amount; a withdrawal of more than the balance throws
`InsufficientFunds`, and otherwise it subtracts the amount. No rate or fee is encoded.

Two predicates in module `Ledger` state what the two tables promise together:

- `Reconciled`: account ids are a key; every stored balance equals the net
  amount logged for its account; and every record names a stored account.
- `NonNegative`: no stored balance is below zero.

Each service operation is proved to keep these, or to break them, as the Java
code does.

Two places where the code does something other than what it evidently means
to do are modelled as written, next to a corrected version (see Findings):

- A transfer from an account to itself logs two records that net to zero
  (AccountService.java:126-127), yet the stored balance grows by the amount.
- The total balance of a bank with no accounts is null. The earlier version
  (BankingSystem.java:236-240) reduces from `BigDecimal.ZERO`, and the
  fallback at line 252 is also `ZERO`.

The transfer's debit and credit are separate store calls (see Left out).

Module layout, one file each: `Failures`, `Accounts`, `TransactionLog`,
`Banking`, `Ledger`, `Service`.

## Model

| member | source | states |
|---|---|---|
| Service.AccountService.constructor | src/main/java/com/banking/service/AccountService.java:30-33 | a service over the given accounts store and transaction log, which it keeps as given; from two valid stores it builds a valid service; the stores are arguments so that several services can share the tables |
| Service.AccountService.FindAccount | src/main/java/com/banking/service/AccountService.java:133-141 | an empty number gives `AccountNotFound("Account number cannot be empty")` without reading the table; otherwise it succeeds exactly when the id is stored, with that id, the stored balance, and the savings variant exactly when the stored tag is "SAVINGS"; a missing id gives `AccountNotFound(id)` |
| Service.AccountService.CreateAccount | src/main/java/com/banking/service/AccountService.java:38-55 | a negative initial balance fails and changes nothing, while zero is accepted; a taken number fails with the store's wrapped duplicate-key error and changes nothing; success appends the row with the derived type tag, then exactly one record of the initial balance; reconciliation and non-negative balances are kept |
| Service.AccountService.Deposit | src/main/java/com/banking/service/AccountService.java:60-77 | an amount of zero or less fails before any lookup, write or append; an unknown or empty id fails with the lookup's error; success stores the balance the account's `deposit` computes, for that id alone, and appends exactly one record of `+amount`; failure changes neither table; with standard rules the tables stay reconciled and non-negative |
| Service.AccountService.Withdraw | src/main/java/com/banking/service/AccountService.java:82-99 | an amount of zero or less fails with no change; the lookup's error and the account's refusal are passed on; otherwise the store's funds check decides: success stores the new balance and appends exactly one record of `-amount`, and refusal is the wrapped `InsufficientFunds`; with standard rules success happens exactly when the balance covers the amount, and reconciliation and non-negative balances are kept |
| Service.AccountService.Transfer | src/main/java/com/banking/service/AccountService.java:104-128 | an amount of zero or less fails with no change; both accounts are looked up before any write; the source's refusal and the store's funds check are passed on; success writes the debit and then the credit, both computed from the balances loaded first, and appends `-amount` for the source and then `+amount` for the destination; with standard rules a self-transfer raises the total by the amount, and the tables stay reconciled exactly when the two accounts differ |
| Service.AccountService.TransferCorrected | src/main/java/com/banking/service/AccountService.java:104-128 | the same guards, errors and two records, but the destination is loaded again after the debit is stored: success writes the debit the source computes and then the credit computed from the destination as stored after the debit; with standard rules every transfer, a self-transfer included, keeps the total, the reconciliation and non-negative balances |
| Service.AccountService.StoreTransfer | src/main/java/com/banking/service/AccountService.java:122-123 | the debit write and then the credit write: both apply exactly when the store's funds check passes, and otherwise the wrapped `InsufficientFunds` is returned and the table is unchanged |
| Service.AccountService.StoreReloadingTransfer | src/main/java/com/banking/service/AccountService.java:122-123 | corrected: the debit write, then a credit computed from the destination as stored after the debit; the same funds check and failure |
| Service.AccountService.LogTransfer | src/main/java/com/banking/service/AccountService.java:126-127 | appends exactly two records with consecutive timestamps, the negated amount for the source and then the amount for the destination |
| Service.TransferLedger | src/main/java/com/banking/service/AccountService.java:112-127 | for the writes and records the transfer leaves: the total moves by the amount exactly for a self-transfer, reconciliation is kept exactly when the accounts differ, and a covered debit leaves no negative balance |
| Service.ReloadingTransferLedger | src/main/java/com/banking/service/AccountService.java:112-127 | for the corrected writes: the total is kept, reconciliation is kept for every pair of accounts, and a covered debit leaves no negative balance |
| Banking.SimpleName | src/main/java/com/banking/BankingSystem.java:21 | `getClass().getSimpleName()` of the class built for each variant; `RemoveAccountSuffix` and `UpperStems` state that it yields the stems "Savings" and "Checking" and then the tags "SAVINGS" and "CHECKING" |
| Banking.RemoveAccount | src/main/java/com/banking/BankingSystem.java:21 | `replace("Account", "")` never lengthens the name, and leaves a name with no capital A unchanged |
| Banking.KindOfTag | src/main/java/com/banking/BankingSystem.java:39-43 | the dispatch of `findAccount`: "SAVINGS" is a savings account and every other tag a checking account; `TagRoundTrip` and `TagDispatchAgrees` state what it gives back |
| Banking.AdjustableKind | src/main/java/com/banking/BankingSystem.java:190-197 | the dispatch of the monthly batch: "SAVINGS" and "CHECKING" are adjusted and every other tag skipped; `TagDispatchAgrees` states which tags and that it agrees with `findAccount` |
| Banking.TypeTag | src/main/java/com/banking/BankingSystem.java:21 | the simple class name with "Account" removed and upper-cased is "SAVINGS" for a savings account and "CHECKING" for a checking account |
| Banking.RemoveAccountSuffix | src/main/java/com/banking/BankingSystem.java:21 | removing every "Account" from a stem plus "Account" gives the stem back, when the stem has no capital A |
| Banking.UpperStems | src/main/java/com/banking/BankingSystem.java:21 | upper-casing the two class-name stems gives the two tags |
| Banking.ToUpperCase | src/main/java/com/banking/BankingSystem.java:21 | upper-casing keeps the length, maps each character and leaves no lower-case ASCII letter |
| Banking.TagRoundTrip | src/main/java/com/banking/BankingSystem.java:21-43 | a tag written by `addAccount` is read back by `findAccount`, and by the monthly batch, as the variant that was stored |
| Banking.TagDispatchAgrees | src/main/java/com/banking/BankingSystem.java:39-43 | `findAccount`'s variant writes back the same tag exactly when the tag is one of the two `addAccount` writes; the batch recognises exactly those two tags and then agrees with `findAccount`; an unrecognised tag, which `findAccount` reads as checking, is never the checking tag itself |
| Banking.Select | src/main/java/com/banking/BankingSystem.java:31-35 | a row found by the keyed query carries the id that was asked for |
| Banking.SetBalance | src/main/java/com/banking/BankingSystem.java:57-61 | the `UPDATE accounts SET balance = ? WHERE account_id = ?` as a value; `SetBalanceKeepsIds`, `SelectSetBalance` and `SetBalanceAbsent` state that it keeps ids and tags, moves only the matched account and is no change without a match |
| Banking.Total | src/main/java/com/banking/BankingSystem.java:244 | `SUM(balance)` as a value; `TotalAppend`, `TotalUpdate` and `TotalSetBalance` state how every store write moves it |
| Banking.SelectSome | src/main/java/com/banking/BankingSystem.java:31-35 | the keyed query finds a row exactly when some row carries the id |
| Banking.SelectIds | src/main/java/com/banking/BankingSystem.java:31-35 | the same, stated over the set of stored ids |
| Banking.SelectAt | src/main/java/com/banking/BankingSystem.java:31-35 | in a keyed table the query returns the one row with that id |
| Banking.FindAccount | src/main/java/com/banking/BankingSystem.java:30-45 | fails with `AccountNotFound(id)` exactly when no row matches; otherwise returns the id and the stored balance, as a savings account exactly when the tag is "SAVINGS" |
| Banking.InsertByBalance | src/main/java/com/banking/BankingSystem.java:150 | placing a row in an ascending listing keeps it ascending and adds exactly that row |
| Banking.GetAccountsSortedByBalance | src/main/java/com/banking/BankingSystem.java:149-150 | the listing is in ascending balance order and is a permutation of the table |
| Banking.GetAccountWithMinBalance | src/main/java/com/banking/BankingSystem.java:262-274 | none exactly when the table is empty; otherwise the id and balance of a stored row whose balance is at most every other balance |
| Banking.MinBalanceOfAnyListing | src/main/java/com/banking/BankingSystem.java:263 | every ascending arrangement of the table, however it orders equal balances, starts with the balance the minimum query returns |
| Banking.GetTotalBalance | src/main/java/com/banking/BankingSystem.java:243-248 | as written: null exactly when the table is empty, otherwise the sum of every stored balance |
| Banking.TotalBalanceOfEmptyIsNull | src/main/java/com/banking/BankingSystem.java:244-247 | with no accounts the query as written yields null, while the corrected total is zero |
| Banking.TotalBalanceOrZero | src/main/java/com/banking/BankingSystem.java:243-252 | corrected: zero for an empty table, and otherwise the value of the query as written |
| Banking.TotalBalanceOrZeroAppend | src/main/java/com/banking/BankingSystem.java:244 | each inserted account adds exactly its balance to the corrected total |
| Banking.GetNumberOfAccounts | src/main/java/com/banking/BankingSystem.java:287-291 | `COUNT(*)`: in a keyed table, the number of distinct stored accounts |
| Banking.CountIsDistinctIds | src/main/java/com/banking/BankingSystem.java:288 | in a keyed table the number of rows is the number of distinct stored accounts, proved by induction on the table |
| Banking.BankingSystem.constructor | src/main/java/com/banking/BankingSystem.java:15 | a store over the accounts table as the database already holds it, keyed by account id |
| Banking.BankingSystem.AddAccount | src/main/java/com/banking/BankingSystem.java:16-27 | inserts (id, derived tag, balance) exactly when the id is not yet a key; otherwise fails with the wrapped duplicate-key error and changes nothing; the key is kept |
| Banking.BankingSystem.UpdateAccountAfterDeposit | src/main/java/com/banking/BankingSystem.java:52-74 | succeeds exactly when the id is stored and then overwrites that account's balance alone; otherwise fails with the wrapped `AccountNotFound` and changes nothing |
| Banking.BankingSystem.UpdateAccountAfterWithdrawal | src/main/java/com/banking/BankingSystem.java:77-113 | fails with the wrapped `AccountNotFound` for an absent id, and with the wrapped `InsufficientFunds` when the stored balance is below the value passed; otherwise overwrites the balance; a failure changes nothing |
| Banking.BankingSystem.UpdateAccountBalance | src/main/java/com/banking/BankingSystem.java:212-220 | overwrites the balance of the matching row; with no match nothing changes and no error is raised |
| Banking.BankingSystem.AddTransactionForMonthlyFeesAndInterest | src/main/java/com/banking/BankingSystem.java:223-233 | appends exactly one record of the id and amount, stamped with the current clock |
| Banking.BankingSystem.ApplyMonthlyFeesAndInterest | src/main/java/com/banking/BankingSystem.java:181-210 | after scanning every row, each SAVINGS or CHECKING row holds the balance `processMonthlyFees` leaves and every other row is untouched; the log gains, in scan order, one record per adjusted row of new balance minus old; the key is kept |
| Banking.BankingSystem.AdjustScannedRow | src/main/java/com/banking/BankingSystem.java:185-203 | one scan step: the adjusted prefix grows by one row, and so does the stamped log of deltas |
| Banking.BankingSystem.ClearAccounts | src/main/java/com/banking/BankingSystem.java:307-313 | removes every account; the transactions table is outside its frame |
| Banking.SetBalanceKeepsIds | src/main/java/com/banking/BankingSystem.java:57-61 | a balance update keeps every row's id and tag, the set of stored ids and the key |
| Banking.SetBalanceAt | src/main/java/com/banking/BankingSystem.java:57-61 | in a keyed table, updating an id changes that one row |
| Banking.SetBalanceAbsent | src/main/java/com/banking/BankingSystem.java:57-64 | an update with no matching row changes nothing |
| Banking.SetBalanceKeepsSelect | src/main/java/com/banking/BankingSystem.java:98-102 | an update neither adds nor removes an account |
| Banking.SelectSetBalance | src/main/java/com/banking/BankingSystem.java:57-61 | after an update the updated account reads back the new balance, and every other account reads back what it had |
| Banking.TotalUpdate | src/main/java/com/banking/BankingSystem.java:244 | replacing one row moves the sum by the difference of balances |
| Banking.TotalAppend | src/main/java/com/banking/BankingSystem.java:244 | an inserted row adds its balance to the sum |
| Banking.TotalSetBalance | src/main/java/com/banking/BankingSystem.java:244 | in a keyed table, overwriting an account's balance moves the sum by new minus stored |
| Banking.Adjusted | src/main/java/com/banking/BankingSystem.java:190-200 | one row of the batch: a SAVINGS or CHECKING row takes the balance `processMonthlyFees` leaves for that variant, any other row is kept; `MonthlyKeepsIds` states that only the balance changes and that an unrecognised row stays as it was |
| Banking.MonthlyAdjusted | src/main/java/com/banking/BankingSystem.java:185-203 | the table after the batch, row by row; `MonthlyKeepsIds` and `MonthlyLogMatchesDelta` state that only balances change, unrecognised rows stay and each change is logged |
| Banking.RowPosting | src/main/java/com/banking/BankingSystem.java:194-202 | the one record a SAVINGS or CHECKING row gets, new balance minus old, and none for any other row; `RowPostingNet` states that its net for the row's account is exactly that row's balance change |
| Banking.MonthlyDeltas | src/main/java/com/banking/BankingSystem.java:185-203 | the batch's postings in scan order: at most one per row; `MonthlyDeltasFromTable` and `MonthlyLogMatchesDelta` state that they name scanned accounts and net to each balance change |
| Banking.MonthlyScanStep | src/main/java/com/banking/BankingSystem.java:185-203 | adjusting the next scanned row is the update of its id alone, and its posting extends the batch's postings |
| Banking.StampConcat | src/main/java/com/banking/BankingSystem.java:229 | stamping two runs of postings in a row is stamping their concatenation |
| Banking.RowPostingNet | src/main/java/com/banking/BankingSystem.java:192-202 | one row's batch record logs, for its own account, exactly the change in balance, and nothing for any other account |
| Banking.MonthlyKeepsIds | src/main/java/com/banking/BankingSystem.java:193-200 | the batch changes balances only, so it keeps ids, tags and the key, and a row with an unrecognised tag is left as it was |
| Banking.MonthlyDeltasFromTable | src/main/java/com/banking/BankingSystem.java:195-202 | the batch logs only accounts of the scanned table |
| Banking.MonthlyLogMatchesDelta | src/main/java/com/banking/BankingSystem.java:190-203 | for every account, the net of the batch's records is exactly the change of its balance |
| TransactionLog.Stamp | src/main/java/com/banking/util/TransactionLogger.java:38-42 | postings appended one by one keep their order, id and amount; `StampConcat` and `StampChronological` state that the timestamps are consecutive and keep the log chronological |
| TransactionLog.NewestFirst | src/main/java/com/banking/util/TransactionLogger.java:16 | the rows of `WHERE account_id = ? ORDER BY date DESC`: never more than the log holds; `NewestFirstMembers` and `NewestFirstDescending` state which records and in what order |
| TransactionLog.TransactionLogger.constructor | src/main/java/com/banking/util/TransactionLogger.java:13 | a logger over the transactions table as the database already holds it, with a clock later than every stored timestamp |
| TransactionLog.TransactionLogger.AddTransaction | src/main/java/com/banking/util/TransactionLogger.java:35-46 | appends exactly one record holding the given id and amount unchanged, with no check of sign or account, stamped later than every earlier record |
| TransactionLog.TransactionLogger.GetTransactionHistory | src/main/java/com/banking/util/TransactionLogger.java:15-33 | returns the account's records newest first, and only reads the log |
| TransactionLog.TransactionLogger.ClearTransactions | src/main/java/com/banking/util/TransactionLogger.java:73-79 | empties the log |
| TransactionLog.RecordGetters | src/main/java/com/banking/util/TransactionLogger.java:82-103 | the getters return exactly the constructor's id, amount and date |
| TransactionLog.NewestFirstMembers | src/main/java/com/banking/util/TransactionLogger.java:16-26 | a record is in the history exactly when it is in the log and names the account |
| TransactionLog.NewestFirstOnlyAccount | src/main/java/com/banking/util/TransactionLogger.java:16-26 | every record of the history names the account asked for |
| TransactionLog.NewestFirstEmpty | src/main/java/com/banking/util/TransactionLogger.java:17-28 | the history is empty, not an error, exactly when no record names the account |
| TransactionLog.NewestFirstDescending | src/main/java/com/banking/util/TransactionLogger.java:16 | in a chronological log the history is in strictly descending date order |
| TransactionLog.NewestFirstAppend | src/main/java/com/banking/util/TransactionLogger.java:35-42 | a new record comes first in its own account's history and leaves other histories as they were |
| TransactionLog.NetForConcat | src/main/java/com/banking/util/TransactionLogger.java:35-42 | the net logged for an account splits over consecutive runs of records |
| TransactionLog.NetForAbsent | src/main/java/com/banking/util/TransactionLogger.java:35-42 | an account no record names has a net of zero |
| TransactionLog.StampChronological | src/main/java/com/banking/util/TransactionLogger.java:41 | records stamped from the clock keep the log chronological and behind the advanced clock |
| Ledger.EmptyReconciled | src/main/java/com/banking/BankingSystem.java:307-309 | base case: an empty bank, with no accounts and no records, is reconciled |
| Ledger.ReconciledInsert | src/main/java/com/banking/service/AccountService.java:46-52 | a new account, with its initial balance logged, keeps the tables reconciled |
| Ledger.NetForAppendOne | src/main/java/com/banking/util/TransactionLogger.java:35-42 | an appended record moves only its own account's net, by its amount |
| Ledger.ReconciledPost | src/main/java/com/banking/service/AccountService.java:67-98 | changing one stored balance by a delta and logging that delta keeps the tables reconciled |
| Ledger.TransferWrites | src/main/java/com/banking/service/AccountService.java:116-123 | the debit and then the credit, both from the balances loaded before either write; `TransferBetweenTwoAccounts` and `SelfTransferWrites` state what they do to the two accounts and the total |
| Ledger.TransferBetweenTwoAccounts | src/main/java/com/banking/service/AccountService.java:112-123 | between two different accounts the writes move the amount from one balance to the other, keep the key, keep the total and leave other accounts alone |
| Ledger.TransferBetweenTwoAccountsReconciled | src/main/java/com/banking/service/AccountService.java:112-127 | between two different accounts the writes and the two records keep the tables reconciled |
| Ledger.SelfTransferWrites | src/main/java/com/banking/service/AccountService.java:112-123 | as written, on one account the credit overwrites the debit: the account and the total both gain the amount |
| Ledger.SelfTransferCreatesMoney | src/main/java/com/banking/service/AccountService.java:112-127 | as written, a self-transfer of a positive amount leaves a reconciled bank unreconciled |
| Ledger.SelfTransferExample | src/main/java/com/banking/service/AccountService.java:112-123 | an account holding 100.00 that transfers 30.00 to itself holds 130.00 |
| Ledger.ReloadingTransferWrites | src/main/java/com/banking/service/AccountService.java:116-123 | corrected: the debit, then the credit computed from the destination as stored after the debit; `ReloadingTransferAt`, `ReloadingTransferKeepsTotal` and `ReloadingTransferReconciled` state that it moves the amount between two accounts, leaves a self-transfer as it was and keeps the bank reconciled |
| Ledger.ReloadingTransferKeepsTotal | src/main/java/com/banking/service/AccountService.java:112-123 | with the destination read after the debit, every transfer keeps the total, and a self-transfer leaves the account as it was |
| Ledger.ReloadingTransferReconciled | src/main/java/com/banking/service/AccountService.java:112-127 | with the destination read after the debit, every transfer, a self-transfer included, keeps the tables reconciled |
| Ledger.TransferKeepsNonNegative | src/main/java/com/banking/service/AccountService.java:112-123 | a debit covered by the balance leaves every balance non-negative, in both forms of the writes |
| Ledger.ReconciledMonthly | src/main/java/com/banking/BankingSystem.java:185-203 | the monthly batch, with the deltas it logs, keeps the tables reconciled |
| Ledger.ClearAccountsLeavesOrphans | src/main/java/com/banking/BankingSystem.java:307-309 | clearing the accounts while records remain leaves records no account explains |
| Ledger.ClearTransactionsLeavesBalances | src/main/java/com/banking/util/TransactionLogger.java:73-76 | clearing the log while some balance is not zero leaves that balance unexplained |

## Left out

- Printing: the table output of `fetchAccount`, `getAccountsSortedByBalance`, `getAccountWithMinBalance` and `fetchTransactions` is left out, together with their `getDouble`/`printf` formatting. Only the rows those queries select are modelled.
- The service's one-line delegators `fetchAccount`, `getAccountsSortedByBalance`, `applyMonthlyFeesAndInterest`, `getTotalBalance`, `getAccountWithMinBalance` and `getNumberOfAccounts` (AccountService.java:143-165) are not modelled separately: each only forwards to the store member modelled above.
- Timestamps: `LocalDateTime.now()` becomes the logger's counter, which every append advances by one. Records are therefore strictly ordered by append position; ties between equal real timestamps are not modelled.
- Database errors: JDBC connections, transaction isolation and every `SQLException` path are left out. This covers "Database error during …", the swallowed `printStackTrace` failures and a failing connection. Each store call is modelled as succeeding or failing on its own.
- Atomicity of `transfer`: the Java code stores the debit and the credit through separate calls, so a database error after the debit would keep the debit alone. Database errors are not modelled, and once the debit is stored the credit cannot fail in the model, because the destination was found. So the model never reaches that half-written state, and it does not claim `transfer` is atomic.
- The account model classes (`Account`, `SavingsAccount`, `CheckingAccount`, `AccountFactory`) are not part of this model. Their behaviour is the parameter `AccountRules`. The deposit and withdraw behaviour that the service's guards take for granted is the hypothesis `Standard`. The monthly fee and interest stay abstract.
- Null ids: Dafny strings cannot be null, so only the empty-id branch of `findAccount` is modelled.
- The table schema is not part of this model. Account ids are assumed to be the primary key, so `addAccount` on a taken id fails with a `DuplicateKey` error. The key is the invariant `Valid()` of `Banking.BankingSystem`.
- `SetBalance` overwrites every row whose id matches the key, as the SQL `UPDATE` does. Under the key that is one row.
- Banking.ToUpperCase: upper-cases ASCII letters only, so the model assumes a default locale that upper-cases `'i'` to `'I'`. Java's `toUpperCase()` (BankingSystem.java:21) uses the default locale. Under a Turkish or Azeri locale the tags would be "SAVİNGS" and "CHECKİNG"; `findAccount` would then read every account as checking, and the monthly batch would skip every row.
- The tables persist: the Java stores are stateless wrappers over a file database, so a new service may start on tables that are already filled, and even unreconciled. The model's constructors therefore take the tables' current contents, and nothing promises that a new service starts reconciled. `Ledger.EmptyReconciled` is only the base case of an empty bank.
- Service.AccountService.constructor: the Java constructor builds a fresh `BankingSystem` and `TransactionLogger`. The model takes both stores and the account rules as arguments, so several services can share the same tables.

## Findings

| source | as written | input that shows it | evidently intended | confidence | as-written member | corrected member |
|---|---|---|---|---|---|---|
| src/main/java/com/banking/service/AccountService.java:112-123 | a transfer loads both accounts before either write; when source and destination are the same account the credit, computed from the first load, overwrites the debit | account A holding 100.00 transfers 30.00 to itself: A then holds 130.00, the total grows by 30.00, and the log records -30.00 and +30.00 | a self-transfer leaves the balance and the total unchanged, with the log agreeing with the balance | not executed | Ledger.SelfTransferCreatesMoney | Ledger.ReloadingTransferReconciled |
| src/main/java/com/banking/BankingSystem.java:243-252 | `SUM(balance)` over an empty table is SQL NULL, which `getBigDecimal` returns, so an empty bank reports a null total; the `BigDecimal.ZERO` fallback is not reached for an empty table | a bank with no accounts | the total balance of an empty bank is zero | not executed | Banking.TotalBalanceOfEmptyIsNull | Banking.TotalBalanceOrZeroAppend |

The as-written self-transfer is also modelled by `Service.AccountService.Transfer`, `Ledger.SelfTransferWrites` and `Ledger.SelfTransferExample`. The corrected version is `Service.AccountService.TransferCorrected`, which reads the destination again after the debit is stored, together with `Ledger.ReloadingTransferKeepsTotal`. The as-written total is `Banking.GetTotalBalance`; the corrected one is `Banking.TotalBalanceOrZero`.
