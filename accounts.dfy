/** The account model classes (`Account`, `SavingsAccount`, `CheckingAccount`,
    `AccountFactory`). Their source is not part of this model, so their
    behaviour enters as parameters: an `AccountRules` value holds what
    `deposit`, `withdraw` and `processMonthlyFees` do to a loaded account. */
module Accounts {
  import opened Failures

  /** The two account variants. */
  datatype Kind = Savings | Checking

  /** An account as loaded into memory: its number, its variant and its balance
      in cents. */
  datatype Account = Account(accountNumber: string, kind: Kind, balance: int)

  /** The behaviour of the model classes, left abstract:
      `deposit(a, x)` is the balance after `a.deposit(x)`,
      `withdraw(a, x)` the balance after `a.withdraw(x)` or the exception it throws,
      `monthlyFees(a)` the balance after `a.processMonthlyFees()`. */
  datatype AccountRules = AccountRules(
    deposit: (Account, int) -> int,
    withdraw: (Account, int) -> Result<int>,
    monthlyFees: Account -> int)

  /** The behaviour of deposit and withdraw that the service's amount guards and
      `InsufficientFundsException(accountId, requested, available)` take for
      granted: a deposit adds the amount; a withdrawal of more than the balance
      throws `InsufficientFunds` with the requested and the available amount,
      and otherwise subtracts the amount. Used only as a hypothesis of lemmas;
      the monthly adjustment stays abstract. */
  ghost predicate Standard(rules: AccountRules) {
    && (forall a: Account, x: int :: rules.deposit(a, x) == a.balance + x)
    && (forall a: Account, x: int :: rules.withdraw(a, x) ==
          if a.balance < x then Err(InsufficientFunds(a.accountNumber, x, a.balance))
          else Ok(a.balance - x))
  }

  /** The rules of `Standard`, as a value: shows that `Standard` can be met. */
  function StandardRules(fees: Account -> int): (rules: AccountRules)
    ensures Standard(rules)
  {
    AccountRules(
      (a: Account, x: int) => a.balance + x,
      (a: Account, x: int) =>
        if a.balance < x then Err(InsufficientFunds(a.accountNumber, x, a.balance))
        else Ok(a.balance - x),
      fees)
  }
}
