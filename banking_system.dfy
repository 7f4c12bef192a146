/** `BankingSystem`: the accounts table (id, type tag, balance), the store
    writes the service and the monthly batch perform on it, and the read-only
    report queries over it. */
module Banking {
  import opened Failures
  import opened Accounts
  import opened TransactionLog

  /** One row of the accounts table. */
  datatype Row = Row(accountId: string, tag: string, balance: int)

  /** The accounts table, in the order a full scan returns its rows. */
  type Table = seq<Row>

  const CreateFailed := "Failed to create account"
  const DepositFailed := "Deposit failed"
  const WithdrawalFailed := "Withdrawal failed"

  // ---------------------------------------------------------------------------
  // Type tags

  /** `getClass().getSimpleName()` of the class the factory builds for a variant. */
  function SimpleName(kind: Kind): string {
    match kind
    case Savings => "SavingsAccount"
    case Checking => "CheckingAccount"
  }

  /** `s.replace("Account", "")`: every occurrence, scanning left to right. */
  function RemoveAccount(s: string): (r: string)
    ensures |r| <= |s|
    ensures (forall i :: 0 <= i < |s| ==> s[i] != 'A') ==> r == s
  {
    if |s| < 7 then s
    else if s[..7] == "Account" then assert s[0] == s[..7][0]; RemoveAccount(s[7..])
    else [s[0]] + RemoveAccount(s[1..])
  }

  /** `Character.toUpperCase` on the ASCII letters. */
  function UpperChar(c: char): char {
    if 'a' <= c <= 'z' then (c as int - 32) as char else c
  }

  /** `String.toUpperCase` on ASCII text. */
  function ToUpperCase(s: string): (r: string)
    ensures |r| == |s|
    ensures forall i :: 0 <= i < |s| ==> r[i] == UpperChar(s[i]) && !('a' <= r[i] <= 'z')
  {
    seq(|s|, i requires 0 <= i < |s| => UpperChar(s[i]))
  }

  /** The tag `addAccount` stores: the simple class name without "Account", upper-cased. */
  function TypeTag(kind: Kind): (tag: string)
    ensures tag == match kind case Savings => "SAVINGS" case Checking => "CHECKING"
  {
    var stem := if kind.Savings? then "Savings" else "Checking";
    assert SimpleName(kind) == stem + "Account";
    RemoveAccountSuffix(stem);
    UpperStems();
    ToUpperCase(RemoveAccount(SimpleName(kind)))
  }

  /** The two stems, upper-cased. */
  lemma UpperStems()
    ensures ToUpperCase("Savings") == "SAVINGS"
    ensures ToUpperCase("Checking") == "CHECKING"
  {
    var s := ToUpperCase("Savings");
    assert forall i :: 0 <= i < 7 ==> s[i] == "SAVINGS"[i];
    var c := ToUpperCase("Checking");
    assert forall i :: 0 <= i < 8 ==> c[i] == "CHECKING"[i];
  }

  /** Removing "Account" from a name that ends in it, and has no other capital A,
      leaves the stem. */
  lemma {:induction false} RemoveAccountSuffix(stem: string)
    requires forall i :: 0 <= i < |stem| ==> stem[i] != 'A'
    ensures RemoveAccount(stem + "Account") == stem
  {
    var s := stem + "Account";
    if stem == [] {
      assert s == "Account";
      assert s[7..] == [];
    } else {
      assert s[..7][0] == stem[0];
      assert s[1..] == stem[1..] + "Account";
      RemoveAccountSuffix(stem[1..]);
    }
  }

  /** The variant `findAccount` builds from a stored tag: "SAVINGS" is a savings
      account, any other tag a checking account. */
  function KindOfTag(tag: string): Kind {
    if tag == "SAVINGS" then Savings else Checking
  }

  /** The variant the monthly batch recognises in a tag; other tags are skipped. */
  function AdjustableKind(tag: string): Option<Kind> {
    if tag == "SAVINGS" then Some(Savings)
    else if tag == "CHECKING" then Some(Checking)
    else None
  }

  // ---------------------------------------------------------------------------
  // The table as a value

  /** Account ids are a key of the table. */
  ghost predicate UniqueIds(t: Table) {
    forall i, j :: 0 <= i < j < |t| ==> t[i].accountId != t[j].accountId
  }

  /** `SELECT * FROM accounts WHERE account_id = ?`, first row. */
  function Select(t: Table, accountId: string): (r: Option<Row>)
    ensures r.Some? ==> r.value.accountId == accountId
  {
    if t == [] then None
    else if t[0].accountId == accountId then Some(t[0])
    else Select(t[1..], accountId)
  }

  /** `UPDATE accounts SET balance = ? WHERE account_id = ?`. */
  function SetBalance(t: Table, accountId: string, balance: int): Table {
    seq(|t|, i requires 0 <= i < |t| =>
      if t[i].accountId == accountId then t[i].(balance := balance) else t[i])
  }

  /** The sum of all balances. */
  function Total(t: Table): int {
    if t == [] then 0 else t[0].balance + Total(t[1..])
  }

  /** Balances never decrease along the sequence. */
  ghost predicate Ascending(s: Table) {
    forall i, j :: 0 <= i < j < |s| ==> s[i].balance <= s[j].balance
  }

  /** The set of account ids in the table. */
  function AccountIds(t: Table): set<string> {
    set i | 0 <= i < |t| :: t[i].accountId
  }

  // ---------------------------------------------------------------------------
  // Read-only queries

  /** `findAccount`: the stored row as a savings or checking account carrying the
      stored balance; a missing id raises `AccountNotFound`. */
  function FindAccount(t: Table, accountId: string): (r: Result<Account>)
    ensures r.Err? <==> Select(t, accountId).None?
    ensures r.Err? ==> r.error == AccountNotFound(accountId)
    ensures r.Ok? ==> var row := Select(t, accountId).value;
      && r.value.accountNumber == accountId
      && r.value.balance == row.balance
      && (r.value.kind == Savings <==> row.tag == "SAVINGS")
  {
    match Select(t, accountId)
    case None => Err(AccountNotFound(accountId))
    case Some(row) => Ok(Account(accountId, KindOfTag(row.tag), row.balance))
  }

  /** Places a row into an ascending listing. */
  function InsertByBalance(r: Row, s: Table): (u: Table)
    requires Ascending(s)
    ensures |u| == |s| + 1 && (u[0] == r || (s != [] && u[0] == s[0]))
    ensures Ascending(u)
    ensures multiset(u) == multiset(s) + multiset{r}
  {
    if s == [] then [r]
    else if r.balance <= s[0].balance then [r] + s
    else
      assert s == [s[0]] + s[1..];
      [s[0]] + InsertByBalance(r, s[1..])
  }

  /** `getAccountsSortedByBalance` (`ORDER BY balance ASC`): every account, in
      ascending balance order. */
  function GetAccountsSortedByBalance(t: Table): (s: Table)
    ensures Ascending(s)
    ensures multiset(s) == multiset(t)
  {
    if t == [] then []
    else
      assert t == [t[0]] + t[1..];
      InsertByBalance(t[0], GetAccountsSortedByBalance(t[1..]))
  }

  /** `getAccountWithMinBalance` (`ORDER BY balance ASC LIMIT 1`): the id and balance
      of the first row of the ascending listing, or none for an empty table. */
  function GetAccountWithMinBalance(t: Table): (r: Option<(string, int)>)
    ensures r.None? <==> t == []
    ensures r.Some? ==> exists i :: 0 <= i < |t| && t[i].accountId == r.value.0 && t[i].balance == r.value.1
    ensures r.Some? ==> forall i :: 0 <= i < |t| ==> r.value.1 <= t[i].balance
  {
    var s := GetAccountsSortedByBalance(t);
    if s == [] then
      assert |multiset(t)| == 0;
      None
    else
      assert s[0] in multiset(t);
      assert forall i :: 0 <= i < |t| ==> t[i] in multiset(s);
      Some((s[0].accountId, s[0].balance))
  }

  /** `getTotalBalance` as written: `SUM(balance)` is SQL NULL on an empty table,
      and `getBigDecimal` hands that NULL back. */
  function GetTotalBalance(t: Table): (r: Option<int>)
    ensures r.None? <==> t == []
    ensures r.Some? ==> r.value == Total(t)
  {
    if t == [] then None else Some(Total(t))
  }

  /** The total the method is evidently meant to return: zero with no accounts. */
  function TotalBalanceOrZero(t: Table): (r: int)
    ensures t == [] ==> r == 0
    ensures GetTotalBalance(t).Some? ==> r == GetTotalBalance(t).value
  {
    Total(t)
  }

  /** `getNumberOfAccounts` (`COUNT(*)`). */
  function GetNumberOfAccounts(t: Table): (n: nat)
    ensures UniqueIds(t) ==> n == |AccountIds(t)|
  {
    CountIsDistinctIds(t);
    |t|
  }

  // ---------------------------------------------------------------------------
  // The monthly batch as a value

  /** A row after the batch: a SAVINGS or CHECKING row gets the balance
      `processMonthlyFees` leaves; any other row is untouched. */
  function Adjusted(row: Row, rules: AccountRules): Row {
    match AdjustableKind(row.tag)
    case None => row
    case Some(kind) => row.(balance := rules.monthlyFees(Account(row.accountId, kind, row.balance)))
  }

  /** Each row of the table after the batch. */
  function MonthlyAdjusted(t: Table, rules: AccountRules): Table {
    seq(|t|, i requires 0 <= i < |t| => Adjusted(t[i], rules))
  }

  /** What the batch logs for one row: its id and the delta actually applied, new
      balance minus old, for a SAVINGS or CHECKING row; nothing for any other row. */
  function RowPosting(row: Row, rules: AccountRules): seq<Posting> {
    if AdjustableKind(row.tag).Some?
    then [Posting(row.accountId, Adjusted(row, rules).balance - row.balance)]
    else []
  }

  /** What the batch logs for the whole table, in scan order. */
  function MonthlyDeltas(t: Table, rules: AccountRules): (r: seq<Posting>)
    ensures |r| <= |t|
  {
    if t == [] then []
    else MonthlyDeltas(t[..|t| - 1], rules) + RowPosting(t[|t| - 1], rules)
  }

  // ---------------------------------------------------------------------------
  // The table as a mutable store

  class BankingSystem {
    /** the rows of the accounts table */
    var rows: Table

    ghost predicate Valid()
      reads this
    {
      UniqueIds(rows)
    }

    /** A store over the accounts table as the database holds it. */
    constructor (rows: Table)
      requires UniqueIds(rows)
      ensures Valid() && this.rows == rows
    {
      this.rows := rows;
    }

    /** `addAccount`: inserts the account's id, its type tag and its balance; the
        database refuses an id that is already a key. */
    method AddAccount(account: Account) returns (r: Outcome)
      requires Valid()
      modifies this
      ensures Valid()
      ensures r.Done? <==> Select(old(rows), account.accountNumber).None?
      ensures r.Done? ==> rows == old(rows) + [Row(account.accountNumber, TypeTag(account.kind), account.balance)]
      ensures r.Fail? ==> rows == old(rows) && r.error == Wrapped(CreateFailed, DuplicateKey(account.accountNumber))
    {
      if Select(rows, account.accountNumber).Some? {
        return Fail(Wrapped(CreateFailed, DuplicateKey(account.accountNumber)));
      }
      SelectSome(rows, account.accountNumber);
      rows := rows + [Row(account.accountNumber, TypeTag(account.kind), account.balance)];
      r := Done;
    }

    /** `updateAccountAfterDeposit`: overwrites the stored balance with the given
        value; if no row matched, rolls back and fails. */
    method UpdateAccountAfterDeposit(accountId: string, balance: int) returns (r: Outcome)
      requires Valid()
      modifies this
      ensures Valid()
      ensures r.Done? <==> Select(old(rows), accountId).Some?
      ensures r.Done? ==> rows == SetBalance(old(rows), accountId, balance)
      ensures r.Fail? ==> rows == old(rows) && r.error == Wrapped(DepositFailed, AccountNotFound(accountId))
    {
      if Select(rows, accountId).None? {
        return Fail(Wrapped(DepositFailed, AccountNotFound(accountId)));
      }
      SetBalanceKeepsIds(rows, accountId, balance);
      rows := SetBalance(rows, accountId, balance);
      r := Done;
    }

    /** `updateAccountAfterWithdrawal`: fails if the id is absent, or if the stored
        balance is below the value passed (the new balance); otherwise overwrites
        the stored balance with it. A failure rolls back. */
    method UpdateAccountAfterWithdrawal(accountId: string, balance: int) returns (r: Outcome)
      requires Valid()
      modifies this
      ensures Valid()
      ensures r.Done? <==> Select(old(rows), accountId).Some? && Select(old(rows), accountId).value.balance >= balance
      ensures r.Done? ==> rows == SetBalance(old(rows), accountId, balance)
      ensures r.Fail? ==> rows == old(rows)
      ensures Select(old(rows), accountId).None? ==> r == Fail(Wrapped(WithdrawalFailed, AccountNotFound(accountId)))
      ensures Select(old(rows), accountId).Some? && Select(old(rows), accountId).value.balance < balance ==>
        r == Fail(Wrapped(WithdrawalFailed, InsufficientFunds(accountId, balance, Select(old(rows), accountId).value.balance)))
    {
      var current := Select(rows, accountId);
      if current.None? {
        return Fail(Wrapped(WithdrawalFailed, AccountNotFound(accountId)));
      }
      if current.value.balance < balance {
        return Fail(Wrapped(WithdrawalFailed, InsufficientFunds(accountId, balance, current.value.balance)));
      }
      SetBalanceKeepsIds(rows, accountId, balance);
      rows := SetBalance(rows, accountId, balance);
      r := Done;
    }

    /** `updateAccountBalance`: overwrites the balance of the matching row; no row
        matching is no change and no error. */
    method UpdateAccountBalance(accountId: string, balance: int)
      requires Valid()
      modifies this
      ensures Valid()
      ensures rows == SetBalance(old(rows), accountId, balance)
    {
      SetBalanceKeepsIds(rows, accountId, balance);
      rows := SetBalance(rows, accountId, balance);
    }

    /** `addTransactionForMonthlyFeesAndInterest`: one record in the shared
        transactions table. */
    method AddTransactionForMonthlyFeesAndInterest(logger: TransactionLogger, accountId: string, amount: int)
      requires logger.Valid()
      modifies logger
      ensures logger.Valid()
      ensures logger.records == old(logger.records) + [TransactionRecord(accountId, amount, old(logger.clock))]
      ensures logger.clock == old(logger.clock) + 1
    {
      logger.AddTransaction(accountId, amount);
    }

    /** `applyMonthlyFeesAndInterest`: scans every row; a SAVINGS or CHECKING row
        gets the balance `processMonthlyFees` leaves and a record of the delta
        applied; any other row is skipped. */
    method ApplyMonthlyFeesAndInterest(logger: TransactionLogger, rules: AccountRules)
      requires Valid() && logger.Valid()
      modifies this, logger
      ensures Valid() && logger.Valid()
      ensures rows == MonthlyAdjusted(old(rows), rules)
      ensures logger.records == old(logger.records) + Stamp(MonthlyDeltas(old(rows), rules), old(logger.clock))
      ensures logger.clock == old(logger.clock) + |MonthlyDeltas(old(rows), rules)|
    {
      var scan := rows;
      var i := 0;
      assert scan[..0] == [] && scan[0..] == scan;
      while i < |scan|
        invariant 0 <= i <= |scan|
        invariant UniqueIds(scan)
        invariant rows == MonthlyAdjusted(scan[..i], rules) + scan[i..]
        invariant logger.Valid()
        invariant logger.records == old(logger.records) + Stamp(MonthlyDeltas(scan[..i], rules), old(logger.clock))
        invariant logger.clock == old(logger.clock) + |MonthlyDeltas(scan[..i], rules)|
      {
        AdjustScannedRow(logger, rules, scan, i, old(logger.records), old(logger.clock));
        i := i + 1;
      }
      assert scan[..i] == scan && scan[i..] == [];
      MonthlyKeepsIds(scan, rules);
    }

    /** The body of the batch's scan loop for the row at index i: adjusts a SAVINGS
        or CHECKING row and logs the delta, skips any other row. */
    method AdjustScannedRow(logger: TransactionLogger, rules: AccountRules, scan: Table, i: nat,
                            ghost logged: seq<TransactionRecord>, ghost from: nat)
      requires UniqueIds(scan) && i < |scan|
      requires rows == MonthlyAdjusted(scan[..i], rules) + scan[i..]
      requires logger.Valid()
      requires logger.records == logged + Stamp(MonthlyDeltas(scan[..i], rules), from)
      requires logger.clock == from + |MonthlyDeltas(scan[..i], rules)|
      modifies this, logger
      ensures rows == MonthlyAdjusted(scan[..i + 1], rules) + scan[i + 1..]
      ensures logger.Valid()
      ensures logger.records == logged + Stamp(MonthlyDeltas(scan[..i + 1], rules), from)
      ensures logger.clock == from + |MonthlyDeltas(scan[..i + 1], rules)|
    {
      var row := scan[i];
      MonthlyScanStep(scan, i, rules);
      StampConcat(MonthlyDeltas(scan[..i], rules), RowPosting(scan[i], rules), from);
      var kind := AdjustableKind(row.tag);
      if kind.Some? {
        var account := Account(row.accountId, kind.value, row.balance);
        var balance := rules.monthlyFees(account);
        assert balance == Adjusted(row, rules).balance;
        UpdateAccountBalance(row.accountId, balance);
        AddTransactionForMonthlyFeesAndInterest(logger, row.accountId, balance - row.balance);
      }
    }

    /** `clearAccounts`: deletes every account; the transactions table is another
        object and is not touched. */
    method ClearAccounts()
      modifies this
      ensures Valid()
      ensures rows == []
    {
      rows := [];
    }
  }

  // ---------------------------------------------------------------------------
  // Lemmas

  /** An update keeps every row's id and tag, so it keeps the key. */
  lemma SetBalanceKeepsIds(t: Table, accountId: string, balance: int)
    ensures |SetBalance(t, accountId, balance)| == |t|
    ensures forall i :: 0 <= i < |t| ==>
      SetBalance(t, accountId, balance)[i].accountId == t[i].accountId &&
      SetBalance(t, accountId, balance)[i].tag == t[i].tag
    ensures UniqueIds(t) ==> UniqueIds(SetBalance(t, accountId, balance))
    ensures AccountIds(SetBalance(t, accountId, balance)) == AccountIds(t)
  {
    var u := SetBalance(t, accountId, balance);
    assert forall x :: x in AccountIds(u) ==> x in AccountIds(t) by {
      forall x | x in AccountIds(u) ensures x in AccountIds(t) {
        var i :| 0 <= i < |u| && u[i].accountId == x;
        assert t[i].accountId == x;
      }
    }
    assert forall x :: x in AccountIds(t) ==> x in AccountIds(u) by {
      forall x | x in AccountIds(t) ensures x in AccountIds(u) {
        var i :| 0 <= i < |t| && t[i].accountId == x;
        assert u[i].accountId == x;
      }
    }
  }

  /** `Select` finds a row exactly when some row carries the id. */
  lemma {:induction false} SelectSome(t: Table, accountId: string)
    ensures Select(t, accountId).Some? <==> exists i :: 0 <= i < |t| && t[i].accountId == accountId
  {
    if t != [] && t[0].accountId != accountId {
      SelectSome(t[1..], accountId);
      assert forall i :: 1 <= i < |t| ==> t[i] == t[1..][i - 1];
    }
  }

  /** The same, in terms of the table's accounts. */
  lemma SelectIds(t: Table, accountId: string)
    ensures Select(t, accountId).Some? <==> accountId in AccountIds(t)
  {
    SelectSome(t, accountId);
    if accountId in AccountIds(t) {
      var i :| 0 <= i < |t| && t[i].accountId == accountId;
    }
  }

  /** In a keyed table, the row at index i is the row `Select` finds for its id. */
  lemma {:induction false} SelectAt(t: Table, i: nat)
    requires UniqueIds(t) && i < |t|
    ensures Select(t, t[i].accountId) == Some(t[i])
  {
    if i > 0 {
      assert t[1..][i - 1] == t[i];
      SelectAt(t[1..], i - 1);
    }
  }

  /** In a keyed table, updating the id at index i changes that row alone. */
  lemma SetBalanceAt(t: Table, i: nat, balance: int)
    requires UniqueIds(t) && i < |t|
    ensures SetBalance(t, t[i].accountId, balance) == t[i := t[i].(balance := balance)]
  {
  }

  /** An update of an id that has no row changes nothing. */
  lemma SetBalanceAbsent(t: Table, accountId: string, balance: int)
    requires Select(t, accountId).None?
    ensures SetBalance(t, accountId, balance) == t
  {
    SelectSome(t, accountId);
  }

  /** An update neither adds nor removes an account. */
  lemma SetBalanceKeepsSelect(t: Table, accountId: string, balance: int, other: string)
    ensures Select(SetBalance(t, accountId, balance), other).Some? <==> Select(t, other).Some?
  {
    SetBalanceKeepsIds(t, accountId, balance);
    SelectIds(t, other);
    SelectIds(SetBalance(t, accountId, balance), other);
  }

  /** After an update, the updated account reads back the new balance and every
      other account reads back what it had. */
  lemma SelectSetBalance(t: Table, accountId: string, balance: int, other: string)
    requires UniqueIds(t)
    ensures Select(SetBalance(t, accountId, balance), other) ==
      match Select(t, other)
      case None => None
      case Some(row) => Some(if other == accountId then row.(balance := balance) else row)
  {
    var u := SetBalance(t, accountId, balance);
    SetBalanceKeepsIds(t, accountId, balance);
    SetBalanceKeepsSelect(t, accountId, balance, other);
    match Select(t, other)
    case None =>
    case Some(row) =>
      SelectSome(t, other);
      var i :| 0 <= i < |t| && t[i].accountId == other;
      SelectAt(t, i);
      SelectAt(u, i);
  }

  /** Replacing one row changes the total by the difference of balances. */
  lemma {:induction false} TotalUpdate(t: Table, i: nat, row: Row)
    requires i < |t|
    ensures Total(t[i := row]) == Total(t) - t[i].balance + row.balance
  {
    if i > 0 {
      assert t[i := row][1..] == t[1..][i - 1 := row];
      TotalUpdate(t[1..], i - 1, row);
    }
  }

  /** An inserted row adds its balance to the total. */
  lemma {:induction false} TotalAppend(t: Table, row: Row)
    ensures Total(t + [row]) == Total(t) + row.balance
  {
    if t != [] {
      assert (t + [row])[1..] == t[1..] + [row];
      TotalAppend(t[1..], row);
    }
  }

  /** In a keyed table, overwriting an account's balance changes the total by the
      difference between the new and the stored balance. */
  lemma TotalSetBalance(t: Table, accountId: string, balance: int)
    requires UniqueIds(t) && Select(t, accountId).Some?
    ensures Total(SetBalance(t, accountId, balance)) == Total(t) - Select(t, accountId).value.balance + balance
  {
    SelectSome(t, accountId);
    var i :| 0 <= i < |t| && t[i].accountId == accountId;
    SelectAt(t, i);
    SetBalanceAt(t, i, balance);
    TotalUpdate(t, i, t[i].(balance := balance));
  }

  /** For a keyed table, the row count is the number of distinct accounts. */
  lemma {:induction false} CountIsDistinctIds(t: Table)
    ensures UniqueIds(t) ==> |t| == |AccountIds(t)|
  {
    if t != [] && UniqueIds(t) {
      CountIsDistinctIds(t[1..]);
      assert AccountIds(t) == {t[0].accountId} + AccountIds(t[1..]) by {
        forall x | x in AccountIds(t) ensures x in {t[0].accountId} + AccountIds(t[1..]) {
          var i :| 0 <= i < |t| && t[i].accountId == x;
          if i > 0 { assert t[1..][i - 1].accountId == x; }
        }
        forall x | x in AccountIds(t[1..]) ensures x in AccountIds(t) {
          var i :| 0 <= i < |t[1..]| && t[1..][i].accountId == x;
          assert t[i + 1].accountId == x;
        }
      }
      assert t[0].accountId !in AccountIds(t[1..]);
    }
  }

  /** A stored tag reads back as the variant that was stored. */
  lemma TagRoundTrip(kind: Kind)
    ensures KindOfTag(TypeTag(kind)) == kind
    ensures AdjustableKind(TypeTag(kind)) == Some(kind)
  {
  }

  /** Where the batch recognises a tag, it agrees with `findAccount`'s dispatch;
      a tag it does not recognise is read by `findAccount` as a checking account. */
  lemma TagDispatchAgrees(tag: string)
    ensures TypeTag(KindOfTag(tag)) == tag <==> tag == TypeTag(Savings) || tag == TypeTag(Checking)
    ensures AdjustableKind(tag).Some? <==> tag == TypeTag(Savings) || tag == TypeTag(Checking)
    ensures AdjustableKind(tag).Some? ==> AdjustableKind(tag).value == KindOfTag(tag)
    ensures AdjustableKind(tag).None? ==> KindOfTag(tag) == Checking && tag != TypeTag(Checking)
  {
  }

  /** One step of the batch scan, as the value functions see it: the table holds
      the adjusted prefix and the untouched rest, and adjusting row i is an update
      of its id alone. */
  lemma MonthlyScanStep(scan: Table, i: nat, rules: AccountRules)
    requires UniqueIds(scan) && i < |scan|
    ensures var rows := MonthlyAdjusted(scan[..i], rules) + scan[i..];
      && UniqueIds(rows)
      && (AdjustableKind(scan[i].tag).Some? ==>
            SetBalance(rows, scan[i].accountId, Adjusted(scan[i], rules).balance)
              == MonthlyAdjusted(scan[..i + 1], rules) + scan[i + 1..])
      && (AdjustableKind(scan[i].tag).None? ==> rows == MonthlyAdjusted(scan[..i + 1], rules) + scan[i + 1..])
    ensures MonthlyDeltas(scan[..i + 1], rules) == MonthlyDeltas(scan[..i], rules) + RowPosting(scan[i], rules)
  {
    assert scan[..i + 1][..i] == scan[..i];
    var rows := MonthlyAdjusted(scan[..i], rules) + scan[i..];
    assert |rows| == |scan|;
    assert forall k :: 0 <= k < |scan| ==> rows[k].accountId == scan[k].accountId;
    assert rows[i] == scan[i];
    SetBalanceAt(rows, i, Adjusted(scan[i], rules).balance);
    assert MonthlyAdjusted(scan[..i + 1], rules) + scan[i + 1..] == rows[i := Adjusted(scan[i], rules)];
  }

  /** Stamping two runs of postings one after the other. */
  lemma StampConcat(ps: seq<Posting>, qs: seq<Posting>, from: nat)
    ensures Stamp(ps + qs, from) == Stamp(ps, from) + Stamp(qs, from + |ps|)
  {
  }

  /** The net one row's batch records log for an account: the row's delta if it is
      that account's row (zero for a row the batch skips), nothing otherwise. */
  lemma RowPostingNet(row: Row, rules: AccountRules, from: nat, accountId: string)
    ensures NetFor(Stamp(RowPosting(row, rules), from), accountId) ==
      if row.accountId == accountId then Adjusted(row, rules).balance - row.balance else 0
  {
    var st := Stamp(RowPosting(row, rules), from);
    if st != [] {
      assert st[..0] == [];
    }
  }

  /** The batch keeps ids and tags, so it keeps the key, and it leaves a row
      whose tag it does not recognise as it was. */
  lemma MonthlyKeepsIds(t: Table, rules: AccountRules)
    ensures |MonthlyAdjusted(t, rules)| == |t|
    ensures forall i :: 0 <= i < |t| ==>
      MonthlyAdjusted(t, rules)[i].accountId == t[i].accountId && MonthlyAdjusted(t, rules)[i].tag == t[i].tag
    ensures forall i :: 0 <= i < |t| && AdjustableKind(t[i].tag).None? ==> MonthlyAdjusted(t, rules)[i] == t[i]
    ensures UniqueIds(t) ==> UniqueIds(MonthlyAdjusted(t, rules))
  {
  }

  /** The batch logs only accounts of the table. */
  lemma {:induction false} MonthlyDeltasFromTable(t: Table, rules: AccountRules, k: nat)
    requires k < |MonthlyDeltas(t, rules)|
    ensures exists i :: 0 <= i < |t| && t[i].accountId == MonthlyDeltas(t, rules)[k].accountId
  {
    var front := t[..|t| - 1];
    if k < |MonthlyDeltas(front, rules)| {
      MonthlyDeltasFromTable(front, rules, k);
      var i :| 0 <= i < |front| && front[i].accountId == MonthlyDeltas(front, rules)[k].accountId;
      assert t[i] == front[i];
    } else {
      assert MonthlyDeltas(t, rules)[k].accountId == t[|t| - 1].accountId;
    }
  }

  /** What the batch logs for an account is exactly the change of its balance:
      one record of the delta for a SAVINGS or CHECKING row, nothing otherwise. */
  lemma {:induction false} MonthlyLogMatchesDelta(t: Table, rules: AccountRules, from: nat, i: nat)
    requires UniqueIds(t) && i < |t|
    ensures NetFor(Stamp(MonthlyDeltas(t, rules), from), t[i].accountId)
      == MonthlyAdjusted(t, rules)[i].balance - t[i].balance
  {
    var n := |t| - 1;
    var front := t[..n];
    var ds := MonthlyDeltas(front, rules);
    var id := t[i].accountId;
    StampConcat(ds, RowPosting(t[n], rules), from);
    NetForConcat(Stamp(ds, from), Stamp(RowPosting(t[n], rules), from + |ds|), id);
    RowPostingNet(t[n], rules, from + |ds|, id);
    if i < n {
      assert front[i] == t[i];
      MonthlyLogMatchesDelta(front, rules, from, i);
    } else {
      var sds := Stamp(ds, from);
      forall k | 0 <= k < |sds| ensures sds[k].accountId != id {
        MonthlyDeltasFromTable(front, rules, k);
      }
      NetForAbsent(sds, id);
    }
  }

  /** Whatever order `ORDER BY balance ASC` gives rows of equal balance, the
      listing starts with the minimum balance. */
  lemma MinBalanceOfAnyListing(t: Table, s: Table)
    requires t != [] && Ascending(s) && multiset(s) == multiset(t)
    ensures GetAccountWithMinBalance(t).Some? && s != []
    ensures GetAccountWithMinBalance(t).value.1 == s[0].balance
  {
    assert |s| == |multiset(s)| == |t|;
    var m := GetAccountWithMinBalance(t).value;
    assert s[0] in multiset(t);
    var i :| 0 <= i < |t| && t[i] == s[0];
    var j :| 0 <= j < |t| && t[j].accountId == m.0 && t[j].balance == m.1;
    assert t[j] in multiset(s);
    var k :| 0 <= k < |s| && s[k] == t[j];
  }

  /** The total of an empty table, as written, is null rather than zero. */
  lemma TotalBalanceOfEmptyIsNull()
    ensures GetTotalBalance([]) == None
    ensures TotalBalanceOrZero([]) == 0
  {
  }

  /** The corrected total grows by the balance of each account inserted: N fresh
      accounts with balances a1..aN total exactly a1 + ... + aN. */
  lemma TotalBalanceOrZeroAppend(t: Table, row: Row)
    ensures TotalBalanceOrZero(t + [row]) == TotalBalanceOrZero(t) + row.balance
  {
    TotalAppend(t, row);
  }
}
