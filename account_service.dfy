/** `AccountService`: the operations a customer sees. Each one validates its
    input, loads the account through the store, lets the account object compute
    the new balance, writes that balance back and logs the signed amount. */
module Service {
  import opened Failures
  import opened Accounts
  import opened TransactionLog
  import opened Banking
  import opened Ledger

  const EmptyAccountNumber := "Account number cannot be empty"
  const NegativeInitialBalance := "Initial balance cannot be negative"
  const DepositNotPositive := "Deposit amount must be positive"
  const WithdrawalNotPositive := "Withdrawal amount must be positive"
  const TransferNotPositive := "Transfer amount must be positive"

  class AccountService {
    /** the accounts table */
    const bankingSystem: BankingSystem
    /** the transactions table */
    const logger: TransactionLogger
    /** what the account model classes do to a loaded account */
    const rules: AccountRules

    ghost predicate Valid()
      reads bankingSystem, logger
    {
      bankingSystem.Valid() && logger.Valid()
    }

    /** The service over the given store and log; both stay as they are. */
    constructor (bankingSystem: BankingSystem, logger: TransactionLogger, rules: AccountRules)
      requires bankingSystem.Valid() && logger.Valid()
      ensures this.bankingSystem == bankingSystem && this.logger == logger && this.rules == rules
      ensures Valid()
    {
      this.bankingSystem := bankingSystem;
      this.logger := logger;
      this.rules := rules;
    }

    /** `findAccount`: an empty number is refused before the store is asked. */
    function FindAccount(accountId: string): (r: Result<Account>)
      reads bankingSystem
      ensures accountId == [] ==> r == Err(AccountNotFound(EmptyAccountNumber))
      ensures r.Ok? <==> accountId != [] && Select(bankingSystem.rows, accountId).Some?
      ensures accountId != [] && Select(bankingSystem.rows, accountId).None? ==> r == Err(AccountNotFound(accountId))
      ensures r.Ok? ==>
        && r.value.accountNumber == accountId
        && r.value.balance == Select(bankingSystem.rows, accountId).value.balance
        && (r.value.kind == Savings <==> Select(bankingSystem.rows, accountId).value.tag == "SAVINGS")
    {
      if accountId == [] then Err(AccountNotFound(EmptyAccountNumber))
      else Banking.FindAccount(bankingSystem.rows, accountId)
    }

    /** `createAccount`: refuses a negative initial balance, inserts the account
        (the store refuses a taken number) and logs the initial balance. */
    method CreateAccount(kind: Kind, accountId: string, initialBalance: int) returns (r: Result<Account>)
      requires Valid()
      modifies bankingSystem, logger
      ensures Valid()
      ensures r.Ok? <==> initialBalance >= 0 && Select(old(bankingSystem.rows), accountId).None?
      ensures initialBalance < 0 ==> r == Err(BankingError(NegativeInitialBalance))
      ensures initialBalance >= 0 && Select(old(bankingSystem.rows), accountId).Some? ==>
        r == Err(Wrapped(CreateFailed, DuplicateKey(accountId)))
      ensures r.Ok? ==>
        && r.value == Account(accountId, kind, initialBalance)
        && bankingSystem.rows == old(bankingSystem.rows) + [Row(accountId, TypeTag(kind), initialBalance)]
        && logger.records == old(logger.records) + [TransactionRecord(accountId, initialBalance, old(logger.clock))]
        && logger.clock == old(logger.clock) + 1
      ensures r.Err? ==>
        && bankingSystem.rows == old(bankingSystem.rows)
        && logger.records == old(logger.records)
        && logger.clock == old(logger.clock)
      ensures Reconciled(old(bankingSystem.rows), old(logger.records)) ==>
        Reconciled(bankingSystem.rows, logger.records)
      ensures NonNegative(old(bankingSystem.rows)) ==> NonNegative(bankingSystem.rows)
    {
      if initialBalance < 0 {
        return Err(BankingError(NegativeInitialBalance));
      }
      var account := Account(accountId, kind, initialBalance);
      ghost var t, records := bankingSystem.rows, logger.records;
      var added := bankingSystem.AddAccount(account);
      if added.Fail? {
        return Err(added.error);
      }
      ghost var date := logger.clock;
      logger.AddTransaction(accountId, initialBalance);
      if Reconciled(t, records) {
        ReconciledInsert(t, records, Row(accountId, TypeTag(kind), initialBalance), date);
      }
      r := Ok(account);
    }

    /** `deposit`: refuses a non-positive amount and an unknown account, stores the
        balance the account computes and logs the amount. */
    method Deposit(accountId: string, amount: int) returns (r: Outcome)
      requires Valid()
      modifies bankingSystem, logger
      ensures Valid()
      ensures r.Done? <==> amount > 0 && old(FindAccount(accountId)).Ok?
      ensures amount <= 0 ==> r == Fail(BankingError(DepositNotPositive))
      ensures amount > 0 && old(FindAccount(accountId)).Err? ==> r == Fail(old(FindAccount(accountId)).error)
      ensures r.Done? ==>
        && bankingSystem.rows == SetBalance(old(bankingSystem.rows), accountId,
             rules.deposit(old(FindAccount(accountId)).value, amount))
        && logger.records == old(logger.records) + [TransactionRecord(accountId, amount, old(logger.clock))]
        && logger.clock == old(logger.clock) + 1
      ensures r.Fail? ==>
        && bankingSystem.rows == old(bankingSystem.rows)
        && logger.records == old(logger.records)
        && logger.clock == old(logger.clock)
      ensures Standard(rules) && Reconciled(old(bankingSystem.rows), old(logger.records)) ==>
        Reconciled(bankingSystem.rows, logger.records)
      ensures Standard(rules) && NonNegative(old(bankingSystem.rows)) ==> NonNegative(bankingSystem.rows)
    {
      if amount <= 0 {
        return Fail(BankingError(DepositNotPositive));
      }
      var found := FindAccount(accountId);
      if found.Err? {
        return Fail(found.error);
      }
      var account := found.value;
      var balance := rules.deposit(account, amount);
      ghost var t, records, date := bankingSystem.rows, logger.records, logger.clock;
      var stored := bankingSystem.UpdateAccountAfterDeposit(account.accountNumber, balance);
      assert stored.Done?;
      logger.AddTransaction(accountId, amount);
      if Standard(rules) {
        assert balance == account.balance + amount;
        if Reconciled(t, records) {
          ReconciledPost(t, records, accountId, amount, date);
        }
        if NonNegative(t) {
          ghost var i := IndexOf(t, accountId);
          NonNegativeSetBalance(t, accountId, balance);
        }
      }
      r := Done;
    }

    /** `withdraw`: refuses a non-positive amount and an unknown account; the
        account may refuse the withdrawal, and so may the store's funds check;
        otherwise the new balance is stored and the negated amount logged. */
    method Withdraw(accountId: string, amount: int) returns (r: Outcome)
      requires Valid()
      modifies bankingSystem, logger
      ensures Valid()
      ensures amount <= 0 ==> r == Fail(BankingError(WithdrawalNotPositive))
      ensures amount > 0 && old(FindAccount(accountId)).Err? ==> r == Fail(old(FindAccount(accountId)).error)
      ensures amount > 0 && old(FindAccount(accountId)).Ok? && rules.withdraw(old(FindAccount(accountId)).value, amount).Err? ==>
        r == Fail(rules.withdraw(old(FindAccount(accountId)).value, amount).error)
      ensures amount > 0 && old(FindAccount(accountId)).Ok? && rules.withdraw(old(FindAccount(accountId)).value, amount).Ok? ==>
        var balance, debit := old(FindAccount(accountId)).value.balance, rules.withdraw(old(FindAccount(accountId)).value, amount).value;
        r == if balance >= debit then Done else Fail(Wrapped(WithdrawalFailed, InsufficientFunds(accountId, debit, balance)))
      ensures r.Done? ==>
        && amount > 0 && old(FindAccount(accountId)).Ok?
        && rules.withdraw(old(FindAccount(accountId)).value, amount).Ok?
        && bankingSystem.rows == SetBalance(old(bankingSystem.rows), accountId,
             rules.withdraw(old(FindAccount(accountId)).value, amount).value)
        && logger.records == old(logger.records) + [TransactionRecord(accountId, -amount, old(logger.clock))]
        && logger.clock == old(logger.clock) + 1
      ensures r.Fail? ==>
        && bankingSystem.rows == old(bankingSystem.rows)
        && logger.records == old(logger.records)
        && logger.clock == old(logger.clock)
      ensures Standard(rules) ==>
        (r.Done? <==> amount > 0 && old(FindAccount(accountId)).Ok? && old(FindAccount(accountId)).value.balance >= amount)
      ensures Standard(rules) && amount > 0 && old(FindAccount(accountId)).Ok? && old(FindAccount(accountId)).value.balance < amount ==>
        r == Fail(InsufficientFunds(accountId, amount, old(FindAccount(accountId)).value.balance))
      ensures Standard(rules) && Reconciled(old(bankingSystem.rows), old(logger.records)) ==>
        Reconciled(bankingSystem.rows, logger.records)
      ensures Standard(rules) && NonNegative(old(bankingSystem.rows)) ==> NonNegative(bankingSystem.rows)
    {
      if amount <= 0 {
        return Fail(BankingError(WithdrawalNotPositive));
      }
      var found := FindAccount(accountId);
      if found.Err? {
        return Fail(found.error);
      }
      var account := found.value;
      var withdrawn := rules.withdraw(account, amount);
      if withdrawn.Err? {
        return Fail(withdrawn.error);
      }
      ghost var t, records, date := bankingSystem.rows, logger.records, logger.clock;
      var stored := bankingSystem.UpdateAccountAfterWithdrawal(account.accountNumber, withdrawn.value);
      if stored.Fail? {
        return Fail(stored.error);
      }
      logger.AddTransaction(accountId, -amount);
      if Standard(rules) {
        assert withdrawn.value == account.balance + -amount;
        if Reconciled(t, records) {
          ReconciledPost(t, records, accountId, -amount, date);
        }
        if NonNegative(t) {
          ghost var i := IndexOf(t, accountId);
          NonNegativeSetBalance(t, accountId, withdrawn.value);
        }
      }
      r := Done;
    }

    /** `transfer`, as written: loads both accounts, lets the first compute its
        debited balance and the second its credited balance, stores the debit and
        then the credit, and logs the negated and the plain amount. Both balances
        come from the loads, so when the two numbers are the same the credit
        overwrites the debit. */
    method Transfer(fromId: string, toId: string, amount: int) returns (r: Outcome)
      requires Valid()
      modifies bankingSystem, logger
      ensures Valid()
      ensures amount <= 0 ==> r == Fail(BankingError(TransferNotPositive))
      ensures amount > 0 && old(FindAccount(fromId)).Err? ==> r == Fail(old(FindAccount(fromId)).error)
      ensures amount > 0 && old(FindAccount(fromId)).Ok? && old(FindAccount(toId)).Err? ==> r == Fail(old(FindAccount(toId)).error)
      ensures amount > 0 && old(FindAccount(fromId)).Ok? && old(FindAccount(toId)).Ok? && rules.withdraw(old(FindAccount(fromId)).value, amount).Err? ==>
        r == Fail(rules.withdraw(old(FindAccount(fromId)).value, amount).error)
      ensures amount > 0 && old(FindAccount(fromId)).Ok? && old(FindAccount(toId)).Ok? && rules.withdraw(old(FindAccount(fromId)).value, amount).Ok? ==>
        var balance, debit := old(FindAccount(fromId)).value.balance, rules.withdraw(old(FindAccount(fromId)).value, amount).value;
        r == if balance >= debit then Done else Fail(Wrapped(WithdrawalFailed, InsufficientFunds(fromId, debit, balance)))
      ensures r.Done? ==>
        && amount > 0 && old(FindAccount(fromId)).Ok? && old(FindAccount(toId)).Ok?
        && rules.withdraw(old(FindAccount(fromId)).value, amount).Ok?
        && bankingSystem.rows ==
             SetBalance(SetBalance(old(bankingSystem.rows), fromId,
                                   rules.withdraw(old(FindAccount(fromId)).value, amount).value),
                        toId, rules.deposit(old(FindAccount(toId)).value, amount))
        && logger.records == old(logger.records) +
             [TransactionRecord(fromId, -amount, old(logger.clock)),
              TransactionRecord(toId, amount, old(logger.clock) + 1)]
        && logger.clock == old(logger.clock) + 2
      ensures r.Fail? ==>
        && bankingSystem.rows == old(bankingSystem.rows)
        && logger.records == old(logger.records)
        && logger.clock == old(logger.clock)
      ensures Standard(rules) ==>
        (r.Done? <==> amount > 0 && old(FindAccount(fromId)).Ok? && old(FindAccount(toId)).Ok?
                      && old(FindAccount(fromId)).value.balance >= amount)
      ensures Standard(rules) && r.Done? ==>
        bankingSystem.rows == TransferWrites(old(bankingSystem.rows), fromId, toId, amount)
      ensures Standard(rules) && r.Done? ==>
        Total(bankingSystem.rows) == Total(old(bankingSystem.rows)) + (if fromId == toId then amount else 0)
      ensures Standard(rules) && r.Done? && Reconciled(old(bankingSystem.rows), old(logger.records)) ==>
        (Reconciled(bankingSystem.rows, logger.records) <==> fromId != toId)
      ensures Standard(rules) && NonNegative(old(bankingSystem.rows)) ==> NonNegative(bankingSystem.rows)
    {
      if amount <= 0 {
        return Fail(BankingError(TransferNotPositive));
      }
      var fromFound := FindAccount(fromId);
      if fromFound.Err? {
        return Fail(fromFound.error);
      }
      var toFound := FindAccount(toId);
      if toFound.Err? {
        return Fail(toFound.error);
      }
      var fromAccount, toAccount := fromFound.value, toFound.value;
      var withdrawn := rules.withdraw(fromAccount, amount);
      if withdrawn.Err? {
        return Fail(withdrawn.error);
      }
      var deposited := rules.deposit(toAccount, amount);
      ghost var t, records, date := bankingSystem.rows, logger.records, logger.clock;
      r := StoreTransfer(fromId, toId, withdrawn.value, deposited);
      if r.Done? {
        LogTransfer(fromId, toId, amount);
        if Standard(rules) {
          assert withdrawn.value == fromAccount.balance - amount;
          assert deposited == toAccount.balance + amount;
          TransferLedger(t, records, fromId, toId, amount, date, bankingSystem.rows, logger.records);
        }
      }
    }

    /** `transfer` with the destination loaded again after the debit is stored, so
        that a self-transfer credits the debited balance. */
    method TransferCorrected(fromId: string, toId: string, amount: int) returns (r: Outcome)
      requires Valid()
      modifies bankingSystem, logger
      ensures Valid()
      ensures amount <= 0 ==> r == Fail(BankingError(TransferNotPositive))
      ensures amount > 0 && old(FindAccount(fromId)).Err? ==> r == Fail(old(FindAccount(fromId)).error)
      ensures amount > 0 && old(FindAccount(fromId)).Ok? && old(FindAccount(toId)).Err? ==> r == Fail(old(FindAccount(toId)).error)
      ensures amount > 0 && old(FindAccount(fromId)).Ok? && old(FindAccount(toId)).Ok? && rules.withdraw(old(FindAccount(fromId)).value, amount).Err? ==>
        r == Fail(rules.withdraw(old(FindAccount(fromId)).value, amount).error)
      ensures amount > 0 && old(FindAccount(fromId)).Ok? && old(FindAccount(toId)).Ok? && rules.withdraw(old(FindAccount(fromId)).value, amount).Ok? ==>
        var balance, debit := old(FindAccount(fromId)).value.balance, rules.withdraw(old(FindAccount(fromId)).value, amount).value;
        r == if balance >= debit then Done else Fail(Wrapped(WithdrawalFailed, InsufficientFunds(fromId, debit, balance)))
      ensures r.Done? ==>
        && amount > 0 && old(FindAccount(fromId)).Ok? && old(FindAccount(toId)).Ok?
        && rules.withdraw(old(FindAccount(fromId)).value, amount).Ok?
        && (var debited := SetBalance(old(bankingSystem.rows), fromId,
                                      rules.withdraw(old(FindAccount(fromId)).value, amount).value);
            && Select(debited, toId).Some?
            && bankingSystem.rows ==
                 SetBalance(debited, toId, rules.deposit(Banking.FindAccount(debited, toId).value, amount)))
        && logger.records == old(logger.records) +
             [TransactionRecord(fromId, -amount, old(logger.clock)),
              TransactionRecord(toId, amount, old(logger.clock) + 1)]
        && logger.clock == old(logger.clock) + 2
      ensures r.Fail? ==>
        && bankingSystem.rows == old(bankingSystem.rows)
        && logger.records == old(logger.records)
        && logger.clock == old(logger.clock)
      ensures Standard(rules) ==>
        (r.Done? <==> amount > 0 && old(FindAccount(fromId)).Ok? && old(FindAccount(toId)).Ok?
                      && old(FindAccount(fromId)).value.balance >= amount)
      ensures Standard(rules) && r.Done? ==>
        bankingSystem.rows == ReloadingTransferWrites(old(bankingSystem.rows), fromId, toId, amount)
      ensures Standard(rules) ==> Total(bankingSystem.rows) == Total(old(bankingSystem.rows))
      ensures Standard(rules) && Reconciled(old(bankingSystem.rows), old(logger.records)) ==>
        Reconciled(bankingSystem.rows, logger.records)
      ensures Standard(rules) && NonNegative(old(bankingSystem.rows)) ==> NonNegative(bankingSystem.rows)
    {
      if amount <= 0 {
        return Fail(BankingError(TransferNotPositive));
      }
      var fromFound := FindAccount(fromId);
      if fromFound.Err? {
        return Fail(fromFound.error);
      }
      var toFound := FindAccount(toId);
      if toFound.Err? {
        return Fail(toFound.error);
      }
      var fromAccount := fromFound.value;
      var withdrawn := rules.withdraw(fromAccount, amount);
      if withdrawn.Err? {
        return Fail(withdrawn.error);
      }
      ghost var t, records, date := bankingSystem.rows, logger.records, logger.clock;
      r := StoreReloadingTransfer(fromId, toId, amount, withdrawn.value);
      if r.Done? {
        LogTransfer(fromId, toId, amount);
        if Standard(rules) {
          ghost var debited := SetBalance(t, fromId, withdrawn.value);
          assert withdrawn.value == fromAccount.balance - amount;
          assert ReloadingTransferWrites(t, fromId, toId, amount) ==
            SetBalance(debited, toId, Select(debited, toId).value.balance + amount);
          ReloadingTransferLedger(t, records, fromId, toId, amount, date, bankingSystem.rows, logger.records);
        }
      }
    }

    /** The two stores of `transfer` once both new balances are computed: the
        debit, which the store's funds check may refuse, then the credit. */
    method StoreTransfer(fromId: string, toId: string, debit: int, credit: int) returns (r: Outcome)
      requires Valid() && Select(bankingSystem.rows, toId).Some?
      modifies bankingSystem
      ensures Valid()
      ensures r.Done? <==>
        Select(old(bankingSystem.rows), fromId).Some? && Select(old(bankingSystem.rows), fromId).value.balance >= debit
      ensures r.Done? ==> bankingSystem.rows == SetBalance(SetBalance(old(bankingSystem.rows), fromId, debit), toId, credit)
      ensures r.Fail? ==> bankingSystem.rows == old(bankingSystem.rows)
      ensures Select(old(bankingSystem.rows), fromId).Some? && Select(old(bankingSystem.rows), fromId).value.balance < debit ==>
        r == Fail(Wrapped(WithdrawalFailed, InsufficientFunds(fromId, debit, Select(old(bankingSystem.rows), fromId).value.balance)))
    {
      ghost var t := bankingSystem.rows;
      var debited := bankingSystem.UpdateAccountAfterWithdrawal(fromId, debit);
      if debited.Fail? {
        return debited;
      }
      SetBalanceKeepsSelect(t, fromId, debit, toId);
      var credited := bankingSystem.UpdateAccountAfterDeposit(toId, credit);
      assert credited.Done?;
      r := Done;
    }

    /** The corrected stores: the debit, then the destination loaded again and
        credited from what the store now holds. */
    method StoreReloadingTransfer(fromId: string, toId: string, amount: int, debit: int) returns (r: Outcome)
      requires Valid() && Select(bankingSystem.rows, toId).Some?
      modifies bankingSystem
      ensures Valid()
      ensures r.Done? <==>
        Select(old(bankingSystem.rows), fromId).Some? && Select(old(bankingSystem.rows), fromId).value.balance >= debit
      ensures r.Done? ==>
        var debited := SetBalance(old(bankingSystem.rows), fromId, debit);
        && Select(debited, toId).Some?
        && bankingSystem.rows == SetBalance(debited, toId, rules.deposit(Banking.FindAccount(debited, toId).value, amount))
      ensures r.Fail? ==> bankingSystem.rows == old(bankingSystem.rows)
      ensures Select(old(bankingSystem.rows), fromId).Some? && Select(old(bankingSystem.rows), fromId).value.balance < debit ==>
        r == Fail(Wrapped(WithdrawalFailed, InsufficientFunds(fromId, debit, Select(old(bankingSystem.rows), fromId).value.balance)))
    {
      ghost var t := bankingSystem.rows;
      var debited := bankingSystem.UpdateAccountAfterWithdrawal(fromId, debit);
      if debited.Fail? {
        return debited;
      }
      SetBalanceKeepsSelect(t, fromId, debit, toId);
      var reloaded := Banking.FindAccount(bankingSystem.rows, toId);
      var credited := bankingSystem.UpdateAccountAfterDeposit(toId, rules.deposit(reloaded.value, amount));
      assert credited.Done?;
      r := Done;
    }

    /** The two records of a completed transfer: the negated amount against the
        source, then the amount against the destination. */
    method LogTransfer(fromId: string, toId: string, amount: int)
      requires Valid()
      modifies logger
      ensures Valid()
      ensures logger.records == old(logger.records) +
        [TransactionRecord(fromId, -amount, old(logger.clock)), TransactionRecord(toId, amount, old(logger.clock) + 1)]
      ensures logger.clock == old(logger.clock) + 2
    {
      ghost var records, date := logger.records, logger.clock;
      logger.AddTransaction(fromId, -amount);
      logger.AddTransaction(toId, amount);
      assert records + [TransactionRecord(fromId, -amount, date)] + [TransactionRecord(toId, amount, date + 1)]
        == records + [TransactionRecord(fromId, -amount, date), TransactionRecord(toId, amount, date + 1)];
    }
  }

  /** What the as-written transfer does to the ledger when deposit adds and
      withdraw subtracts, for the table u it writes and the log it leaves: a
      self-transfer creates the amount, the tables stay reconciled exactly when
      the two accounts differ, and a covered debit leaves no balance negative. */
  lemma TransferLedger(t: Table, records: seq<TransactionRecord>, fromId: string, toId: string,
                       amount: int, date: nat, u: Table, logged: seq<TransactionRecord>)
    requires UniqueIds(t) && Select(t, fromId).Some? && Select(t, toId).Some? && amount > 0
    requires u == TransferWrites(t, fromId, toId, amount)
    requires logged == records + [TransactionRecord(fromId, -amount, date), TransactionRecord(toId, amount, date + 1)]
    ensures Total(u) == Total(t) + (if fromId == toId then amount else 0)
    ensures Reconciled(t, records) ==> (Reconciled(u, logged) <==> fromId != toId)
    ensures NonNegative(t) && Select(t, fromId).value.balance >= amount ==> NonNegative(u)
  {
    if fromId != toId {
      TransferBetweenTwoAccounts(t, fromId, toId, amount);
    } else {
      SelfTransferWrites(t, fromId, amount);
    }
    if Reconciled(t, records) {
      if fromId != toId {
        TransferBetweenTwoAccountsReconciled(t, records, fromId, toId, amount, date);
      } else {
        SelfTransferCreatesMoney(t, records, fromId, amount, date);
      }
    }
    if NonNegative(t) && Select(t, fromId).value.balance >= amount {
      TransferKeepsNonNegative(t, fromId, toId, amount);
    }
  }

  /** The same for the corrected transfer: it keeps the total and the
      reconciliation for every pair of accounts. */
  lemma ReloadingTransferLedger(t: Table, records: seq<TransactionRecord>, fromId: string, toId: string,
                                amount: int, date: nat, u: Table, logged: seq<TransactionRecord>)
    requires UniqueIds(t) && Select(t, fromId).Some? && Select(t, toId).Some? && amount > 0
    requires u == ReloadingTransferWrites(t, fromId, toId, amount)
    requires logged == records + [TransactionRecord(fromId, -amount, date), TransactionRecord(toId, amount, date + 1)]
    ensures Total(u) == Total(t)
    ensures Reconciled(t, records) ==> Reconciled(u, logged)
    ensures NonNegative(t) && Select(t, fromId).value.balance >= amount ==> NonNegative(u)
  {
    ReloadingTransferKeepsTotal(t, fromId, toId, amount);
    if Reconciled(t, records) {
      ReloadingTransferReconciled(t, records, fromId, toId, amount, date);
    }
    if NonNegative(t) && Select(t, fromId).value.balance >= amount {
      TransferKeepsNonNegative(t, fromId, toId, amount);
    }
  }
}
