/** The ledger view of the two tables: every stored balance should equal the net
    of its account's records, and every record should name a stored account.
    The lemmas say which store and log changes keep that reconciliation, and
    which (a self-transfer, each bulk clear) break it. */
module Ledger {
  import opened Failures
  import opened Accounts
  import opened TransactionLog
  import opened Banking

  /** Each stored balance equals the net its account's records log. */
  ghost predicate BalancesMatchLog(t: Table, records: seq<TransactionRecord>) {
    forall i :: 0 <= i < |t| ==> t[i].balance == NetFor(records, t[i].accountId)
  }

  /** The accounts the records name. */
  function LoggedIds(records: seq<TransactionRecord>): set<string> {
    set k | 0 <= k < |records| :: records[k].accountId
  }

  /** Every record names an account of the table. */
  ghost predicate NoOrphans(t: Table, records: seq<TransactionRecord>) {
    LoggedIds(records) <= AccountIds(t)
  }

  /** The accounts table and the transactions table agree. */
  ghost predicate Reconciled(t: Table, records: seq<TransactionRecord>) {
    UniqueIds(t) && BalancesMatchLog(t, records) && NoOrphans(t, records)
  }

  /** No stored balance is negative. */
  ghost predicate NonNegative(t: Table) {
    forall i :: 0 <= i < |t| ==> t[i].balance >= 0
  }

  /** A bank whose accounts and transactions were both cleared is reconciled. */
  lemma EmptyReconciled()
    ensures Reconciled([], [])
  {
  }

  /** A record adds its account to the logged ones. */
  lemma LoggedIdsAppend(records: seq<TransactionRecord>, rec: TransactionRecord)
    ensures LoggedIds(records + [rec]) == LoggedIds(records) + {rec.accountId}
  {
    var r' := records + [rec];
    forall x | x in LoggedIds(r') ensures x in LoggedIds(records) + {rec.accountId} {
      var k :| 0 <= k < |r'| && r'[k].accountId == x;
      if k < |records| {
        assert r'[k] == records[k];
      }
    }
    forall x | x in LoggedIds(records) ensures x in LoggedIds(r') {
      var k :| 0 <= k < |records| && records[k].accountId == x;
      assert r'[k] == records[k];
    }
    assert r'[|records|] == rec;
  }

  /** An inserted row adds its id to the table's accounts. */
  lemma AccountIdsAppend(t: Table, row: Row)
    ensures AccountIds(t + [row]) == AccountIds(t) + {row.accountId}
  {
    var t' := t + [row];
    forall x | x in AccountIds(t') ensures x in AccountIds(t) + {row.accountId} {
      var i :| 0 <= i < |t'| && t'[i].accountId == x;
      if i < |t| {
        assert t'[i] == t[i];
      }
    }
    forall x | x in AccountIds(t) ensures x in AccountIds(t') {
      var i :| 0 <= i < |t| && t[i].accountId == x;
      assert t'[i] == t[i];
    }
    assert t'[|t|] == row;
  }

  /** Opening an account with its initial balance logged keeps the tables reconciled. */
  lemma ReconciledInsert(t: Table, records: seq<TransactionRecord>, row: Row, date: nat)
    requires Reconciled(t, records) && Select(t, row.accountId).None?
    ensures Reconciled(t + [row], records + [TransactionRecord(row.accountId, row.balance, date)])
  {
    SelectSome(t, row.accountId);
    var t' := t + [row];
    var rec := TransactionRecord(row.accountId, row.balance, date);
    var records' := records + [rec];
    forall i | 0 <= i < |t'| ensures t'[i].balance == NetFor(records', t'[i].accountId) {
      NetForAppendOne(records, rec, t'[i].accountId);
      if i < |t| {
        assert t'[i] == t[i];
      } else {
        SelectIds(t, row.accountId);
        forall k | 0 <= k < |records| ensures records[k].accountId != row.accountId {
          assert records[k].accountId in LoggedIds(records);
        }
        NetForAbsent(records, row.accountId);
      }
    }
    LoggedIdsAppend(records, rec);
    AccountIdsAppend(t, row);
  }

  /** A record moves only its own account's net. */
  lemma NetForAppendOne(records: seq<TransactionRecord>, rec: TransactionRecord, accountId: string)
    ensures NetFor(records + [rec], accountId) ==
      NetFor(records, accountId) + (if rec.accountId == accountId then rec.amount else 0)
  {
    assert (records + [rec])[..|records|] == records;
  }

  /** The index of a stored account. */
  lemma IndexOf(t: Table, accountId: string) returns (i: nat)
    requires UniqueIds(t) && Select(t, accountId).Some?
    ensures i < |t| && t[i].accountId == accountId && Select(t, accountId) == Some(t[i])
  {
    SelectSome(t, accountId);
    i :| 0 <= i < |t| && t[i].accountId == accountId;
    SelectAt(t, i);
  }

  /** Overwriting the balance at one index of a keyed table keeps the key, is
      the update `SetBalance` performs for that row's id, and moves the total by
      the difference. */
  lemma BalanceAt(t: Table, i: nat, balance: int)
    requires UniqueIds(t) && i < |t|
    ensures var t' := t[i := t[i].(balance := balance)];
      && UniqueIds(t')
      && SetBalance(t, t[i].accountId, balance) == t'
      && Total(t') == Total(t) - t[i].balance + balance
  {
    SetBalanceAt(t, i, balance);
    TotalUpdate(t, i, t[i].(balance := balance));
  }

  /** Changing the balance at one index by delta, with a record of delta, keeps the
      tables reconciled. */
  lemma ReconciledAt(t: Table, records: seq<TransactionRecord>, i: nat, delta: int, date: nat)
    requires Reconciled(t, records) && i < |t|
    ensures Reconciled(t[i := t[i].(balance := t[i].balance + delta)],
                       records + [TransactionRecord(t[i].accountId, delta, date)])
  {
    var t' := t[i := t[i].(balance := t[i].balance + delta)];
    var rec := TransactionRecord(t[i].accountId, delta, date);
    BalanceAt(t, i, t[i].balance + delta);
    forall j | 0 <= j < |t'| ensures t'[j].balance == NetFor(records + [rec], t'[j].accountId) {
      NetForAppendOne(records, rec, t[j].accountId);
    }
    SetBalanceKeepsIds(t, t[i].accountId, t[i].balance + delta);
    LoggedIdsAppend(records, rec);
    assert t[i].accountId in AccountIds(t);
  }

  /** Changing one account's balance by delta, with a record of delta, keeps the
      tables reconciled. */
  lemma ReconciledPost(t: Table, records: seq<TransactionRecord>, accountId: string, delta: int, date: nat)
    requires Reconciled(t, records) && Select(t, accountId).Some?
    ensures var t' := SetBalance(t, accountId, Select(t, accountId).value.balance + delta);
      Reconciled(t', records + [TransactionRecord(accountId, delta, date)])
  {
    var i := IndexOf(t, accountId);
    BalanceAt(t, i, t[i].balance + delta);
    ReconciledAt(t, records, i, delta, date);
  }

  /** Moves `Reconciled` across equal tables and logs, and exists only for that:
      as a lemma it keeps the predicate from being unfolded again at the copies. */
  lemma ReconciledTransport(t: Table, u: Table, records: seq<TransactionRecord>, logged: seq<TransactionRecord>)
    requires Reconciled(t, records) && t == u && records == logged
    ensures Reconciled(u, logged)
  {
  }

  /** A change of one balance keeps every balance non-negative when the new one is. */
  lemma NonNegativeSetBalance(t: Table, accountId: string, balance: int)
    requires NonNegative(t) && balance >= 0
    ensures NonNegative(SetBalance(t, accountId, balance))
  {
  }

  /** The writes of a transfer as the service performs them: the debit and then
      the credit, both computed from the balances loaded before either write. */
  function TransferWrites(t: Table, fromId: string, toId: string, amount: int): Table
    requires Select(t, fromId).Some? && Select(t, toId).Some?
  {
    SetBalance(SetBalance(t, fromId, Select(t, fromId).value.balance - amount),
               toId, Select(t, toId).value.balance + amount)
  }

  /** The transfer writes between the rows at two different indexes. */
  lemma TransferAt(t: Table, f: nat, d: nat, amount: int)
    requires UniqueIds(t) && f < |t| && d < |t| && f != d
    ensures var t' := t[f := t[f].(balance := t[f].balance - amount)][d := t[d].(balance := t[d].balance + amount)];
      && Select(t, t[f].accountId) == Some(t[f])
      && Select(t, t[d].accountId) == Some(t[d])
      && TransferWrites(t, t[f].accountId, t[d].accountId, amount) == t'
      && UniqueIds(t')
      && Total(t') == Total(t)
  {
    SelectAt(t, f);
    SelectAt(t, d);
    BalanceAt(t, f, t[f].balance - amount);
    var t1 := t[f := t[f].(balance := t[f].balance - amount)];
    assert t1[d] == t[d];
    BalanceAt(t1, d, t[d].balance + amount);
  }

  /** A transfer between two different accounts moves the amount from one balance
      to the other and keeps the total. */
  lemma TransferBetweenTwoAccounts(t: Table, fromId: string, toId: string, amount: int)
    requires UniqueIds(t) && Select(t, fromId).Some? && Select(t, toId).Some?
    requires fromId != toId
    ensures var t' := TransferWrites(t, fromId, toId, amount);
      && UniqueIds(t')
      && Total(t') == Total(t)
      && Select(t', fromId) == Some(Select(t, fromId).value.(balance := Select(t, fromId).value.balance - amount))
      && Select(t', toId) == Some(Select(t, toId).value.(balance := Select(t, toId).value.balance + amount))
  {
    var f := IndexOf(t, fromId);
    var d := IndexOf(t, toId);
    TransferAt(t, f, d, amount);
    var t' := t[f := t[f].(balance := t[f].balance - amount)][d := t[d].(balance := t[d].balance + amount)];
    SelectAt(t', f);
    SelectAt(t', d);
  }

  /** A transfer between two different accounts, logged as a debit record and then
      a credit record, keeps the tables reconciled. */
  lemma TransferBetweenTwoAccountsReconciled(t: Table, records: seq<TransactionRecord>,
                                             fromId: string, toId: string, amount: int, date: nat)
    requires Reconciled(t, records) && Select(t, fromId).Some? && Select(t, toId).Some?
    requires fromId != toId
    ensures Reconciled(TransferWrites(t, fromId, toId, amount),
                       records + [TransactionRecord(fromId, -amount, date),
                                  TransactionRecord(toId, amount, date + 1)])
  {
    var f := IndexOf(t, fromId);
    var d := IndexOf(t, toId);
    var t1 := t[f := t[f].(balance := t[f].balance + -amount)];
    var r1 := records + [TransactionRecord(t[f].accountId, -amount, date)];
    ReconciledAt(t, records, f, -amount, date);
    ReconciledAt(t1, r1, d, amount, date + 1);
    assert t1[d] == t[d];
    TransferAt(t, f, d, amount);
    assert r1 + [TransactionRecord(t1[d].accountId, amount, date + 1)] ==
      records + [TransactionRecord(fromId, -amount, date), TransactionRecord(toId, amount, date + 1)];
    assert TransferWrites(t, fromId, toId, amount) == t1[d := t1[d].(balance := t1[d].balance + amount)];
  }

  /** On one account both legs start from the balance loaded before either write,
      so the credit overwrites the debit and the account, like the total, gains
      the amount. */
  lemma SelfTransferWrites(t: Table, accountId: string, amount: int)
    requires UniqueIds(t) && Select(t, accountId).Some?
    ensures var t' := TransferWrites(t, accountId, accountId, amount);
      && Select(t', accountId).Some?
      && Select(t', accountId).value.balance == Select(t, accountId).value.balance + amount
      && Total(t') == Total(t) + amount
  {
    var i := IndexOf(t, accountId);
    var b := t[i].balance;
    BalanceAt(t, i, b - amount);
    var t1 := t[i := t[i].(balance := b - amount)];
    BalanceAt(t1, i, b + amount);
    var t' := t1[i := t1[i].(balance := b + amount)];
    SelectAt(t', i);
  }

  /** The same writes, logged as a debit and a credit record, leave the account's
      balance unexplained by the log whenever the amount is positive. */
  lemma SelfTransferCreatesMoney(t: Table, records: seq<TransactionRecord>,
                                 accountId: string, amount: int, date: nat)
    requires Reconciled(t, records) && Select(t, accountId).Some? && amount > 0
    ensures !Reconciled(TransferWrites(t, accountId, accountId, amount),
                        records + [TransactionRecord(accountId, -amount, date),
                                   TransactionRecord(accountId, amount, date + 1)])
  {
    var i := IndexOf(t, accountId);
    var b := t[i].balance;
    SelfTransferWrites(t, accountId, amount);
    var t' := TransferWrites(t, accountId, accountId, amount);
    var j := IndexOf(t', accountId);
    var r1 := records + [TransactionRecord(accountId, -amount, date)];
    var r2 := r1 + [TransactionRecord(accountId, amount, date + 1)];
    assert NetFor(r2, accountId) == b by {
      NetForAppendOne(records, TransactionRecord(accountId, -amount, date), accountId);
      NetForAppendOne(r1, TransactionRecord(accountId, amount, date + 1), accountId);
    }
    assert r2 == records + [TransactionRecord(accountId, -amount, date), TransactionRecord(accountId, amount, date + 1)];
    assert t'[j].balance != NetFor(r2, t'[j].accountId);
  }

  /** The same, on one concrete account: 100.00 transferred 30.00 to itself holds 130.00. */
  lemma SelfTransferExample()
    ensures TransferWrites([Row("A", "SAVINGS", 10000)], "A", "A", 3000) == [Row("A", "SAVINGS", 13000)]
  {
  }

  /** The writes of a transfer that reads the destination again after the debit is
      stored: for two accounts these are the writes above, and for a self-transfer
      the credit starts from the debited balance. */
  function ReloadingTransferWrites(t: Table, fromId: string, toId: string, amount: int): Table
    requires Select(t, fromId).Some?
  {
    var t1 := SetBalance(t, fromId, Select(t, fromId).value.balance - amount);
    match Select(t1, toId)
    case None => t1
    case Some(row) => SetBalance(t1, toId, row.balance + amount)
  }

  /** The reloading writes between the rows at two indexes, which may coincide. */
  lemma ReloadingTransferAt(t: Table, f: nat, d: nat, amount: int)
    requires UniqueIds(t) && f < |t| && d < |t|
    ensures var t1 := t[f := t[f].(balance := t[f].balance + -amount)];
      && UniqueIds(t1)
      && Select(t, t[f].accountId) == Some(t[f])
      && ReloadingTransferWrites(t, t[f].accountId, t[d].accountId, amount)
           == t1[d := t1[d].(balance := t1[d].balance + amount)]
  {
    SelectAt(t, f);
    var t1 := t[f := t[f].(balance := t[f].balance + -amount)];
    BalanceAt(t, f, t[f].balance + -amount);
    assert t1[d].accountId == t[d].accountId;
    SelectAt(t1, d);
    assert ReloadingTransferWrites(t, t[f].accountId, t[d].accountId, amount) == SetBalance(t1, t[d].accountId, t1[d].balance + amount);
    BalanceAt(t1, d, t1[d].balance + amount);
  }

  /** Reading the destination after the debit keeps the total for every transfer,
      and a self-transfer then leaves the account as it was. */
  lemma ReloadingTransferKeepsTotal(t: Table, fromId: string, toId: string, amount: int)
    requires UniqueIds(t) && Select(t, fromId).Some? && Select(t, toId).Some?
    ensures var t' := ReloadingTransferWrites(t, fromId, toId, amount);
      && Total(t') == Total(t)
      && (fromId == toId ==> Select(t', fromId) == Select(t, fromId))
  {
    var f := IndexOf(t, fromId);
    var d := IndexOf(t, toId);
    ReloadingTransferAt(t, f, d, amount);
    var t1 := t[f := t[f].(balance := t[f].balance + -amount)];
    var t' := t1[d := t1[d].(balance := t1[d].balance + amount)];
    TotalUpdate(t, f, t1[f]);
    TotalUpdate(t1, d, t'[d]);
    if fromId == toId {
      BalanceAt(t1, d, t1[d].balance + amount);
      SelectAt(t', f);
    }
  }

  /** Reading the destination after the debit keeps the tables reconciled for every
      transfer, a self-transfer included. */
  lemma ReloadingTransferReconciled(t: Table, records: seq<TransactionRecord>,
                                    fromId: string, toId: string, amount: int, date: nat)
    requires Reconciled(t, records) && Select(t, fromId).Some? && Select(t, toId).Some?
    ensures Reconciled(ReloadingTransferWrites(t, fromId, toId, amount),
                       records + [TransactionRecord(fromId, -amount, date),
                                  TransactionRecord(toId, amount, date + 1)])
  {
    var f := IndexOf(t, fromId);
    var d := IndexOf(t, toId);
    var t1 := t[f := t[f].(balance := t[f].balance + -amount)];
    var t' := t1[d := t1[d].(balance := t1[d].balance + amount)];
    var r2 := records + [TransactionRecord(fromId, -amount, date), TransactionRecord(toId, amount, date + 1)];
    ReloadingLegsReconciled(t, records, f, d, amount, date);
    ReloadingTransferAt(t, f, d, amount);
    ReconciledTransport(t', ReloadingTransferWrites(t, fromId, toId, amount), r2, r2);
  }

  /** The debit at index `f` and then the credit at index `d` of the debited table,
      each with its record, keep the tables reconciled; `f` and `d` may coincide. */
  lemma ReloadingLegsReconciled(t: Table, records: seq<TransactionRecord>, f: nat, d: nat, amount: int, date: nat)
    requires Reconciled(t, records) && f < |t| && d < |t|
    ensures var t1 := t[f := t[f].(balance := t[f].balance + -amount)];
      Reconciled(t1[d := t1[d].(balance := t1[d].balance + amount)],
                 records + [TransactionRecord(t[f].accountId, -amount, date),
                            TransactionRecord(t[d].accountId, amount, date + 1)])
  {
    var t1 := t[f := t[f].(balance := t[f].balance + -amount)];
    var r1 := records + [TransactionRecord(t[f].accountId, -amount, date)];
    ReconciledAt(t, records, f, -amount, date);
    ReconciledAt(t1, r1, d, amount, date + 1);
    assert t1[d].accountId == t[d].accountId;
    assert r1 + [TransactionRecord(t[d].accountId, amount, date + 1)]
        == records + [TransactionRecord(t[f].accountId, -amount, date),
                      TransactionRecord(t[d].accountId, amount, date + 1)];
  }

  /** A transfer the standard withdrawal allows, from a balance covering the
      amount, leaves every balance non-negative, in both forms of the writes. */
  lemma TransferKeepsNonNegative(t: Table, fromId: string, toId: string, amount: int)
    requires UniqueIds(t) && NonNegative(t) && Select(t, fromId).Some? && Select(t, toId).Some?
    requires 0 < amount <= Select(t, fromId).value.balance
    ensures NonNegative(TransferWrites(t, fromId, toId, amount))
    ensures NonNegative(ReloadingTransferWrites(t, fromId, toId, amount))
  {
    var f := IndexOf(t, fromId);
    var d := IndexOf(t, toId);
    NonNegativeSetBalance(t, fromId, t[f].balance - amount);
    NonNegativeSetBalance(SetBalance(t, fromId, t[f].balance - amount), toId, t[d].balance + amount);
    ReloadingTransferAt(t, f, d, amount);
    var t1 := t[f := t[f].(balance := t[f].balance + -amount)];
    assert NonNegative(t1[d := t1[d].(balance := t1[d].balance + amount)]);
  }

  /** The monthly batch keeps the tables reconciled: each adjusted account's records
      grow by exactly the delta its balance changed by. */
  lemma ReconciledMonthly(t: Table, records: seq<TransactionRecord>, rules: AccountRules, from: nat)
    requires Reconciled(t, records)
    ensures Reconciled(MonthlyAdjusted(t, rules), records + Stamp(MonthlyDeltas(t, rules), from))
  {
    var t' := MonthlyAdjusted(t, rules);
    var logged := Stamp(MonthlyDeltas(t, rules), from);
    var records' := records + logged;
    MonthlyKeepsIds(t, rules);
    forall i | 0 <= i < |t'| ensures t'[i].balance == NetFor(records', t'[i].accountId) {
      NetForConcat(records, logged, t[i].accountId);
      MonthlyLogMatchesDelta(t, rules, from, i);
    }
    assert AccountIds(t') == AccountIds(t) by {
      forall x | x in AccountIds(t') ensures x in AccountIds(t) {
        var i :| 0 <= i < |t'| && t'[i].accountId == x;
        assert t[i].accountId == x;
      }
      forall x | x in AccountIds(t) ensures x in AccountIds(t') {
        var i :| 0 <= i < |t| && t[i].accountId == x;
        assert t'[i].accountId == x;
      }
    }
    forall x | x in LoggedIds(records') ensures x in AccountIds(t) {
      var k :| 0 <= k < |records'| && records'[k].accountId == x;
      if k < |records| {
        assert records'[k] == records[k];
        assert x in LoggedIds(records);
      } else {
        MonthlyDeltasFromTable(t, rules, k - |records|);
        var i :| 0 <= i < |t| && t[i].accountId == MonthlyDeltas(t, rules)[k - |records|].accountId;
        assert t[i].accountId == x;
      }
    }
  }

  /** Clearing the accounts while records remain leaves orphan records. */
  lemma ClearAccountsLeavesOrphans(records: seq<TransactionRecord>)
    requires records != []
    ensures !Reconciled([], records)
  {
    assert records[0].accountId in LoggedIds(records);
  }

  /** Clearing the transactions while some balance is not zero leaves that balance
      unexplained by the log. */
  lemma ClearTransactionsLeavesBalances(t: Table, i: nat)
    requires i < |t| && t[i].balance != 0
    ensures !Reconciled(t, [])
  {
    assert NetFor([], t[i].accountId) == 0;
  }
}
