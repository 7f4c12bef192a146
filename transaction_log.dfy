/** The transactions table and `TransactionLogger`: an append-only list of
    records, read back per account with the newest record first. */
module TransactionLog {

  /** `TransactionRecord`: an immutable value; its destructors are the getters.
      `date` is the timestamp, modelled as a tick of a monotone counter. */
  datatype TransactionRecord = TransactionRecord(accountId: string, amount: int, date: nat)

  /** An (account, signed amount) pair that still has to be given a timestamp. */
  datatype Posting = Posting(accountId: string, amount: int)

  /** Timestamps strictly increase along the table (append order). */
  ghost predicate Chronological(records: seq<TransactionRecord>) {
    forall i, j :: 0 <= i < j < |records| ==> records[i].date < records[j].date
  }

  /** The rows `SELECT * FROM transactions WHERE account_id = ? ORDER BY date DESC`
      yields when timestamps follow append order: the account's records, newest first. */
  function NewestFirst(records: seq<TransactionRecord>, accountId: string): (r: seq<TransactionRecord>)
    ensures |r| <= |records|
  {
    if records == [] then []
    else NewestFirst(records[1..], accountId)
         + (if records[0].accountId == accountId then [records[0]] else [])
  }

  /** The records the postings become when appended one by one from clock value `from`. */
  function Stamp(postings: seq<Posting>, from: nat): (records: seq<TransactionRecord>)
    ensures |records| == |postings|
    ensures forall k :: 0 <= k < |postings| ==>
      records[k].accountId == postings[k].accountId && records[k].amount == postings[k].amount
  {
    seq(|postings|, k requires 0 <= k < |postings| =>
      TransactionRecord(postings[k].accountId, postings[k].amount, from + k))
  }

  /** The net amount the records log for one account. */
  function NetFor(records: seq<TransactionRecord>, accountId: string): int
  {
    if records == [] then 0
    else NetFor(records[..|records| - 1], accountId)
         + (if records[|records| - 1].accountId == accountId then records[|records| - 1].amount else 0)
  }

  class TransactionLogger {
    /** the rows of the transactions table, in insertion order */
    var records: seq<TransactionRecord>
    /** the clock: the timestamp the next record receives */
    var clock: nat

    ghost predicate Valid()
      reads this
    {
      && Chronological(records)
      && forall i :: 0 <= i < |records| ==> records[i].date < clock
    }

    /** A logger over the transactions table as the database holds it, with a
        clock later than every stored timestamp. */
    constructor (records: seq<TransactionRecord>, clock: nat)
      requires Chronological(records) && forall i :: 0 <= i < |records| ==> records[i].date < clock
      ensures Valid() && this.records == records && this.clock == clock
    {
      this.records, this.clock := records, clock;
    }

    /** `addTransaction`: inserts one record with the given id and amount, unchecked,
        stamped with the current time. */
    method AddTransaction(accountId: string, amount: int)
      requires Valid()
      modifies this
      ensures Valid()
      ensures records == old(records) + [TransactionRecord(accountId, amount, old(clock))]
      ensures clock == old(clock) + 1
    {
      records := records + [TransactionRecord(accountId, amount, clock)];
      clock := clock + 1;
    }

    /** `getTransactionHistory`: the account's records, newest first; the log is only read. */
    method GetTransactionHistory(accountId: string) returns (history: seq<TransactionRecord>)
      ensures history == NewestFirst(records, accountId)
    {
      history := [];
      var i := |records|;
      while i > 0
        invariant 0 <= i <= |records|
        invariant history == NewestFirst(records[i..], accountId)
      {
        i := i - 1;
        assert records[i..][1..] == records[i + 1..];
        if records[i].accountId == accountId {
          history := history + [records[i]];
        }
      }
      assert records[0..] == records;
    }

    /** `clearTransactions`: deletes every record; the clock keeps running. */
    method ClearTransactions()
      requires Valid()
      modifies this
      ensures Valid()
      ensures records == [] && clock == old(clock)
    {
      records := [];
    }
  }

  /** The getters return exactly what the record was built from. */
  lemma RecordGetters(accountId: string, amount: int, date: nat)
    ensures var r := TransactionRecord(accountId, amount, date);
            r.accountId == accountId && r.amount == amount && r.date == date
  {
  }

  /** The history holds exactly the account's records: nothing of another account,
      nothing missed. */
  lemma {:induction false} NewestFirstMembers(records: seq<TransactionRecord>, accountId: string, r: TransactionRecord)
    ensures r in NewestFirst(records, accountId) <==> r in records && r.accountId == accountId
  {
    if records != [] {
      NewestFirstMembers(records[1..], accountId, r);
      assert records == [records[0]] + records[1..];
    }
  }

  /** Every record of the history belongs to the account asked for. */
  lemma NewestFirstOnlyAccount(records: seq<TransactionRecord>, accountId: string)
    ensures forall k :: 0 <= k < |NewestFirst(records, accountId)| ==>
      NewestFirst(records, accountId)[k].accountId == accountId
  {
    var h := NewestFirst(records, accountId);
    forall k | 0 <= k < |h| ensures h[k].accountId == accountId {
      NewestFirstMembers(records, accountId, h[k]);
    }
  }

  /** The history is empty, not an error, exactly when the account has no records. */
  lemma NewestFirstEmpty(records: seq<TransactionRecord>, accountId: string)
    ensures NewestFirst(records, accountId) == [] <==>
      forall k :: 0 <= k < |records| ==> records[k].accountId != accountId
  {
    var h := NewestFirst(records, accountId);
    if h != [] {
      NewestFirstMembers(records, accountId, h[0]);
    }
    forall k | 0 <= k < |records| && records[k].accountId == accountId ensures h != [] {
      NewestFirstMembers(records, accountId, records[k]);
    }
  }

  /** In a chronological log the history is ordered by date, newest first. */
  lemma {:induction false} NewestFirstDescending(records: seq<TransactionRecord>, accountId: string)
    requires Chronological(records)
    ensures var h := NewestFirst(records, accountId);
            forall i, j :: 0 <= i < j < |h| ==> h[i].date > h[j].date
  {
    if records != [] {
      var tail := records[1..];
      NewestFirstDescending(tail, accountId);
      var h' := NewestFirst(tail, accountId);
      forall k | 0 <= k < |h'| ensures h'[k].date > records[0].date {
        NewestFirstMembers(tail, accountId, h'[k]);
        var m :| 0 <= m < |tail| && tail[m] == h'[k];
        assert records[m + 1] == h'[k];
      }
    }
  }

  /** A new record comes first in its account's history; other histories are unchanged. */
  lemma NewestFirstAppend(records: seq<TransactionRecord>, r: TransactionRecord, accountId: string)
    ensures NewestFirst(records + [r], accountId) ==
      (if r.accountId == accountId then [r] else []) + NewestFirst(records, accountId)
  {
    if records == [] {
      assert [r][1..] == [];
    } else {
      assert (records + [r])[1..] == records[1..] + [r];
      NewestFirstAppend(records[1..], r, accountId);
    }
  }

  /** The net logged for an account splits over a concatenation of logs. */
  lemma {:induction false} NetForConcat(a: seq<TransactionRecord>, b: seq<TransactionRecord>, accountId: string)
    ensures NetFor(a + b, accountId) == NetFor(a, accountId) + NetFor(b, accountId)
  {
    if b != [] {
      assert (a + b)[..|a + b| - 1] == a + b[..|b| - 1];
      NetForConcat(a, b[..|b| - 1], accountId);
    } else {
      assert a + b == a;
    }
  }

  /** An account no record mentions has a net of zero. */
  lemma {:induction false} NetForAbsent(records: seq<TransactionRecord>, accountId: string)
    requires forall k :: 0 <= k < |records| ==> records[k].accountId != accountId
    ensures NetFor(records, accountId) == 0
  {
    if records != [] {
      NetForAbsent(records[..|records| - 1], accountId);
    }
  }

  /** Appending stamped postings keeps the log chronological and behind the clock. */
  lemma StampChronological(records: seq<TransactionRecord>, postings: seq<Posting>, clock: nat)
    requires Chronological(records)
    requires forall i :: 0 <= i < |records| ==> records[i].date < clock
    ensures Chronological(records + Stamp(postings, clock))
    ensures forall i :: 0 <= i < |records + Stamp(postings, clock)| ==>
      (records + Stamp(postings, clock))[i].date < clock + |postings|
  {
  }
}
