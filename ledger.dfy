/**
 * Properties of the ledger-append request: when it commits, what it writes,
 * and what sequences of whole transactions against one account can do.
 */
module Ledger {
  import opened Wrappers
  import opened Numerals
  import opened Dynamo
  import opened AddCreditTxn

  /** The balance increment evaluates exactly when the stored account item
      carries a numeric balance; the SET targets are distinct. */
  lemma AccountUpdateEvaluates(t: Table, cust: string, acct: string, last: int, latest: int, amount: int)
    ensures ValidSets(AccountUpdate(cust, acct, last, latest, amount).sets)
    ensures AllOperandsEvaluate(Stored(t, Key(cust, acct)), AccountUpdate(cust, acct, last, latest, amount).sets) <==>
      AcctBalanceAttr in Stored(t, Key(cust, acct)) && Stored(t, Key(cust, acct))[AcctBalanceAttr].N?
  {
    var before := Stored(t, Key(cust, acct));
    var sets := AccountUpdate(cust, acct, last, latest, amount).sets;
    assert sets[0].operand == Plus(AcctBalanceAttr, N(amount));
    assert sets[1].operand == Literal(N(latest));
    assert AllOperandsEvaluate(before, sets) <==>
      Eval(before, sets[0].operand).Some? && Eval(before, sets[1].operand).Some?;
  }

  /** The record's operands are all literals, so they always evaluate. */
  lemma LedgerRecordPutEvaluates(t: Table, acct: string, latest: int, date: string, txnType: string, amount: int)
    ensures ValidSets(LedgerRecordPut(acct, latest, date, txnType, amount).sets)
    ensures AllOperandsEvaluate(Stored(t, RecordKey(latest, acct)), LedgerRecordPut(acct, latest, date, txnType, amount).sets)
  {
  }

  /** The account item the update leaves behind. */
  lemma AccountUpdateResult(t: Table, cust: string, acct: string, last: int, latest: int, amount: int)
    requires WellFormed(t)
    requires Key(cust, acct) in t.items
    requires AcctBalanceAttr in t.items[Key(cust, acct)] && t.items[Key(cust, acct)][AcctBalanceAttr].N?
    ensures ValidSets(AccountUpdate(cust, acct, last, latest, amount).sets)
    ensures NewItem(t, AccountUpdate(cust, acct, last, latest, amount)) ==
      Some(CreditedAccount(t.items[Key(cust, acct)], amount, latest))
  {
    AccountUpdateEvaluates(t, cust, acct, last, latest, amount);
    var u := AccountUpdate(cust, acct, last, latest, amount);
    var acctItem := t.items[Key(cust, acct)];
    assert HasKeyAttrs(acctItem, Key(cust, acct));
    var acc := acctItem[PartitionKeyAttr := S(cust)][SortKeyAttr := S(acct)];
    assert acc == acctItem;
    var n := NewItem(t, u).value;
    var expected := CreditedAccount(acctItem, amount, latest);
    assert Targets(u.sets) == {AcctBalanceAttr, AcctLastTxnAttr} by {
      assert u.sets[0].attr == AcctBalanceAttr && u.sets[1].attr == AcctLastTxnAttr;
    }
    assert n[AcctBalanceAttr] == Eval(acctItem, u.sets[0].operand).value;
    assert n[AcctLastTxnAttr] == Eval(acctItem, u.sets[1].operand).value;
    assert n.Keys == expected.Keys;
    forall a | a in n ensures n[a] == expected[a] {
      if a !in Targets(u.sets) { assert n[a] == acc[a]; }
    }
    assert n == expected;
  }

  /** The record's SET actions on a fresh item holding only its key. */
  lemma RecordSetsResult(acct: string, latest: int, date: string, txnType: string, amount: int)
    ensures ValidSets(LedgerRecordPut(acct, latest, date, txnType, amount).sets)
    ensures ApplySets(map[], map[PartitionKeyAttr := S(IntToString(latest)), SortKeyAttr := S(acct)],
                      LedgerRecordPut(acct, latest, date, txnType, amount).sets)
            == Some(LedgerRecord(acct, latest, date, txnType, amount))
  {
    var sets := LedgerRecordPut(acct, latest, date, txnType, amount).sets;
    var m0 := map[PartitionKeyAttr := S(IntToString(latest)), SortKeyAttr := S(acct)];
    LedgerRecordSetsValid(acct, latest, date, txnType, amount);
    ApplyLiteralSets(map[], m0, sets);
    RecordAssigned(acct, latest, date, txnType, amount);
  }

  /** The record's SET list is valid and assigns literals only. */
  lemma LedgerRecordSetsValid(acct: string, latest: int, date: string, txnType: string, amount: int)
    ensures ValidSets(LedgerRecordPut(acct, latest, date, txnType, amount).sets)
    ensures forall i | 0 <= i < |LedgerRecordPut(acct, latest, date, txnType, amount).sets| ::
      LedgerRecordPut(acct, latest, date, txnType, amount).sets[i].operand.Literal?
  {
  }

  /** Assigning the record's literals, in order, to its key attributes. */
  lemma RecordAssigned(acct: string, latest: int, date: string, txnType: string, amount: int)
    ensures forall i | 0 <= i < |LedgerRecordPut(acct, latest, date, txnType, amount).sets| ::
      LedgerRecordPut(acct, latest, date, txnType, amount).sets[i].operand.Literal?
    ensures AssignLiterals(map[PartitionKeyAttr := S(IntToString(latest)), SortKeyAttr := S(acct)],
                           LedgerRecordPut(acct, latest, date, txnType, amount).sets)
            == LedgerRecord(acct, latest, date, txnType, amount)
  {
    var s0, s1, s2, s3, s4 :=
      Set(TxnAmountAttr, Literal(N(amount))), Set(TxnDateAttr, Literal(S(date))),
      Set(TxnTypeAttr, Literal(S(txnType))), Set(Gsi1PkAttr, Literal(S(date))),
      Set(Gsi1SkAttr, Literal(S(acct)));
    assert LedgerRecordPut(acct, latest, date, txnType, amount).sets == [s0, s1, s2, s3, s4];
    var m0 := map[PartitionKeyAttr := S(IntToString(latest)), SortKeyAttr := S(acct)];
    assert [s0, s1, s2, s3, s4][1..] == [s1, s2, s3, s4];
    assert [s1, s2, s3, s4][1..] == [s2, s3, s4];
    assert [s2, s3, s4][1..] == [s3, s4];
    assert [s3, s4][1..] == [s4];
    assert [s4][1..] == [];
    var m1 := m0[TxnAmountAttr := N(amount)];
    var m2 := m1[TxnDateAttr := S(date)];
    var m3 := m2[TxnTypeAttr := S(txnType)];
    var m4 := m3[Gsi1PkAttr := S(date)];
    calc {
      AssignLiterals(m0, [s0, s1, s2, s3, s4]);
      AssignLiterals(m1, [s1, s2, s3, s4]);
      AssignLiterals(m2, [s2, s3, s4]);
      AssignLiterals(m3, [s3, s4]);
      AssignLiterals(m4, [s4]);
      AssignLiterals(m4[Gsi1SkAttr := S(acct)], []);
    }
    RecordBuiltInOrder(acct, latest, date, txnType, amount);
  }

  /** The record item, assembled attribute by attribute in the put's order. */
  lemma RecordBuiltInOrder(acct: string, latest: int, date: string, txnType: string, amount: int)
    ensures map[PartitionKeyAttr := S(IntToString(latest)), SortKeyAttr := S(acct)]
              [TxnAmountAttr := N(amount)][TxnDateAttr := S(date)][TxnTypeAttr := S(txnType)]
              [Gsi1PkAttr := S(date)][Gsi1SkAttr := S(acct)]
            == LedgerRecord(acct, latest, date, txnType, amount)
  {
  }

  /** The record item the create-only put leaves behind. */
  lemma LedgerRecordPutResult(t: Table, acct: string, latest: int, date: string, txnType: string, amount: int)
    requires RecordKey(latest, acct) !in t.items
    ensures ValidSets(LedgerRecordPut(acct, latest, date, txnType, amount).sets)
    ensures NewItem(t, LedgerRecordPut(acct, latest, date, txnType, amount)) ==
      Some(LedgerRecord(acct, latest, date, txnType, amount))
  {
    var u := LedgerRecordPut(acct, latest, date, txnType, amount);
    RecordSetsResult(acct, latest, date, txnType, amount);
    assert Stored(t, u.key) == map[];
    assert map[][PartitionKeyAttr := S(IntToString(latest))][SortKeyAttr := S(acct)]
        == map[PartitionKeyAttr := S(IntToString(latest)), SortKeyAttr := S(acct)];
  }

  /** The transaction built for (cust, acct) commits exactly when the table is
      the configured one, the two actions name different items, the account
      exists with a numeric balance and still carries `last`, and no item is
      stored at the record's key. */
  lemma CreditCommitsIff(t: Table, cust: string, acct: string, last: int, latest: int,
                         date: string, txnType: string, amount: int)
    requires WellFormed(t)
    ensures Apply(t, CreateTransactWriteItemsInput(cust, acct, last, latest, date, txnType, amount)).1.Committed?
        <==> && t.name == TableName
             && cust != IntToString(latest)
             && Key(cust, acct) in t.items
             && AcctLastTxnAttr in t.items[Key(cust, acct)]
             && t.items[Key(cust, acct)][AcctLastTxnAttr] == N(last)
             && AcctBalanceAttr in t.items[Key(cust, acct)]
             && t.items[Key(cust, acct)][AcctBalanceAttr].N?
             && RecordKey(latest, acct) !in t.items
  {
    var input := CreateTransactWriteItemsInput(cust, acct, last, latest, date, txnType, amount);
    var us := input.items;
    var acctKey, recKey := Key(cust, acct), RecordKey(latest, acct);
    assert us[0] == AccountUpdate(cust, acct, last, latest, amount);
    assert us[1] == LedgerRecordPut(acct, latest, date, txnType, amount);
    AccountUpdateEvaluates(t, cust, acct, last, latest, amount);
    LedgerRecordPutEvaluates(t, acct, latest, date, txnType, amount);
    assert WellFormedRequest(us) <==> cust != IntToString(latest);
    assert Holds(us[0].cond, Stored(t, acctKey)) <==>
      acctKey in t.items && AcctLastTxnAttr in t.items[acctKey] && t.items[acctKey][AcctLastTxnAttr] == N(last);
    assert Holds(us[1].cond, Stored(t, recKey)) <==> recKey !in t.items;
  }

  /** A committed transaction changes exactly two items: the account gets the
      new balance and sequence number, and the ledger record appears at its key. */
  lemma CreditEffect(t: Table, cust: string, acct: string, last: int, latest: int,
                     date: string, txnType: string, amount: int)
    requires WellFormed(t)
    requires Apply(t, CreateTransactWriteItemsInput(cust, acct, last, latest, date, txnType, amount)).1.Committed?
    ensures AcctBalanceAttr in t.items[Key(cust, acct)] && t.items[Key(cust, acct)][AcctBalanceAttr].N?
    ensures Apply(t, CreateTransactWriteItemsInput(cust, acct, last, latest, date, txnType, amount)).0 ==
      Table(t.name, t.items[Key(cust, acct) := CreditedAccount(t.items[Key(cust, acct)], amount, latest)]
                           [RecordKey(latest, acct) := LedgerRecord(acct, latest, date, txnType, amount)])
  {
    CreditCommitsIff(t, cust, acct, last, latest, date, txnType, amount);
    AccountUpdateResult(t, cust, acct, last, latest, amount);
    LedgerRecordPutResult(t, acct, latest, date, txnType, amount);
    ApplyPairCommitted(t, AccountUpdate(cust, acct, last, latest, amount), LedgerRecordPut(acct, latest, date, txnType, amount));
  }

  /** Balance and sequence number after a committed transaction. */
  lemma CreditBalanceAndSequence(t: Table, cust: string, acct: string, last: int, latest: int,
                                 date: string, txnType: string, amount: int)
    requires WellFormed(t)
    requires Key(cust, acct) in t.items && AccountReadable(t, Key(cust, acct))
    requires Apply(t, CreateTransactWriteItemsInput(cust, acct, last, latest, date, txnType, amount)).1.Committed?
    ensures var t' := Apply(t, CreateTransactWriteItemsInput(cust, acct, last, latest, date, txnType, amount)).0;
      && WellFormed(t')
      && AccountReadable(t', Key(cust, acct))
      && Balance(t', Key(cust, acct)) == Balance(t, Key(cust, acct)) + amount
      && LastTxn(t, Key(cust, acct)) == last
      && LastTxn(t', Key(cust, acct)) == latest
      && RecordKey(latest, acct) !in t.items
      && RecordKey(latest, acct) in t'.items
      && t'.items[RecordKey(latest, acct)] == LedgerRecord(acct, latest, date, txnType, amount)
  {
    var input := CreateTransactWriteItemsInput(cust, acct, last, latest, date, txnType, amount);
    CreditCommitsIff(t, cust, acct, last, latest, date, txnType, amount);
    CreditEffect(t, cust, acct, last, latest, date, txnType, amount);
    ApplyPreservesWellFormed(t, input);
    assert Key(cust, acct) != RecordKey(latest, acct);
  }

  /** If the account is missing or its sequence number has moved past the
      one observed, the account guard fails and nothing is written. */
  lemma StaleSnapshotCancels(t: Table, cust: string, acct: string, last: int, latest: int,
                             date: string, txnType: string, amount: int)
    requires WellFormed(t) && t.name == TableName && cust != IntToString(latest)
    requires Key(cust, acct) !in t.items || AcctLastTxnAttr !in t.items[Key(cust, acct)]
             || t.items[Key(cust, acct)][AcctLastTxnAttr] != N(last)
    ensures var r := Apply(t, CreateTransactWriteItemsInput(cust, acct, last, latest, date, txnType, amount));
      r.0 == t && r.1.Canceled? && r.1.reasons[0] == ConditionalCheckFailed
  {
    var input := CreateTransactWriteItemsInput(cust, acct, last, latest, date, txnType, amount);
    AccountUpdateEvaluates(t, cust, acct, last, latest, amount);
    LedgerRecordPutEvaluates(t, acct, latest, date, txnType, amount);
    assert input.items[0] == AccountUpdate(cust, acct, last, latest, amount);
    assert input.items[1] == LedgerRecordPut(acct, latest, date, txnType, amount);
    assert TablesExist(t, input.items) && WellFormedRequest(input.items);
    assert !Holds(input.items[0].cond, Stored(t, Key(cust, acct)));
    assert Reasons(t, input.items)[0] == ConditionalCheckFailed;
  }

  /** Submitting a committed request a second time never writes a second
      ledger record: the create-only guard on the record fails. */
  lemma ReplayNeverDuplicates(t: Table, cust: string, acct: string, last: int, latest: int,
                              date: string, txnType: string, amount: int)
    requires WellFormed(t)
    requires Apply(t, CreateTransactWriteItemsInput(cust, acct, last, latest, date, txnType, amount)).1.Committed?
    ensures var input := CreateTransactWriteItemsInput(cust, acct, last, latest, date, txnType, amount);
      var t1 := Apply(t, input).0;
      var r := Apply(t1, input);
      r.0 == t1 && r.1.Canceled? && r.1.reasons[1] == ConditionalCheckFailed
  {
    var input := CreateTransactWriteItemsInput(cust, acct, last, latest, date, txnType, amount);
    var t1 := Apply(t, input).0;
    CreditCommitsIff(t, cust, acct, last, latest, date, txnType, amount);
    CreditEffect(t, cust, acct, last, latest, date, txnType, amount);
    ApplyPreservesWellFormed(t, input);
    assert RecordKey(latest, acct) in t1.items;
    AccountUpdateEvaluates(t1, cust, acct, last, latest, amount);
    LedgerRecordPutEvaluates(t1, acct, latest, date, txnType, amount);
    assert input.items[1] == LedgerRecordPut(acct, latest, date, txnType, amount);
    assert TablesExist(t1, input.items) && WellFormedRequest(input.items);
    assert HasKeyAttrs(t1.items[RecordKey(latest, acct)], RecordKey(latest, acct));
    assert !Holds(input.items[1].cond, Stored(t1, RecordKey(latest, acct)));
    assert Reasons(t1, input.items)[1] == ConditionalCheckFailed;
  }

  /** Two requests built from the same observed sequence number: once one
      has committed, the other is cancelled by the account guard. */
  lemma SameSnapshotAtMostOneCommits(t: Table, cust: string, acct: string, last: int,
                                     date1: string, txnType1: string, amount1: int,
                                     date2: string, txnType2: string, amount2: int)
    requires WellFormed(t)
    requires Apply(t, CreateTransactWriteItemsInput(cust, acct, last, NextTxnNumber(last), date1, txnType1, amount1)).1.Committed?
    ensures var t1 := Apply(t, CreateTransactWriteItemsInput(cust, acct, last, NextTxnNumber(last), date1, txnType1, amount1)).0;
      var r := Apply(t1, CreateTransactWriteItemsInput(cust, acct, last, NextTxnNumber(last), date2, txnType2, amount2));
      r.0 == t1 && r.1.Canceled? && r.1.reasons[0] == ConditionalCheckFailed
  {
    var latest := NextTxnNumber(last);
    var t1 := Apply(t, CreateTransactWriteItemsInput(cust, acct, last, latest, date1, txnType1, amount1)).0;
    var input := CreateTransactWriteItemsInput(cust, acct, last, latest, date2, txnType2, amount2);
    CreditCommitsIff(t, cust, acct, last, latest, date1, txnType1, amount1);
    CreditBalanceAndSequence(t, cust, acct, last, latest, date1, txnType1, amount1);
    AccountUpdateEvaluates(t1, cust, acct, last, latest, amount2);
    LedgerRecordPutEvaluates(t1, acct, latest, date2, txnType2, amount2);
    assert input.items[0] == AccountUpdate(cust, acct, last, latest, amount2);
    assert TablesExist(t1, input.items) && WellFormedRequest(input.items);
    assert !Holds(input.items[0].cond, Stored(t1, Key(cust, acct)));
    assert Reasons(t1, input.items)[0] == ConditionalCheckFailed;
  }

  // ---------------------------------------------------------------------
  // Runs of `main`

  lemma MainCustomerIsNotARecordKey(n: int)
    ensures RecordKey(n, AcctNumber) != AccountKey
  {
    NumeralsAreNotOthers(CustNumber, n);
  }

  /** A request prepared by `main` from a snapshot commits against that same
      snapshot exactly when no record exists yet at the next number. */
  lemma FreshSnapshotCommits(t: Table, date: string, txnType: string, amount: int)
    requires WellFormed(t)
    requires PrepareCredit(t, date, txnType, amount).Success?
    ensures Apply(t, PrepareCredit(t, date, txnType, amount).value).1.Committed?
        <==> RecordKey(LastTxn(t, AccountKey) + 1, AcctNumber) !in t.items
  {
    var last := LastTxn(t, AccountKey);
    MainCustomerIsNotARecordKey(last + 1);
    CreditCommitsIff(t, CustNumber, AcctNumber, last, last + 1, date, txnType, amount);
  }

  /** Two runs of `main` that read the same snapshot: if the first commits,
      the second is cancelled by the account guard and changes nothing. */
  lemma ConcurrentRunsAtMostOneCommits(t: Table, date1: string, txnType1: string, amount1: int,
                                       date2: string, txnType2: string, amount2: int)
    requires WellFormed(t)
    requires PrepareCredit(t, date1, txnType1, amount1).Success?
    requires Apply(t, PrepareCredit(t, date1, txnType1, amount1).value).1.Committed?
    ensures PrepareCredit(t, date2, txnType2, amount2).Success?
    ensures var t1 := Apply(t, PrepareCredit(t, date1, txnType1, amount1).value).0;
      var r := Apply(t1, PrepareCredit(t, date2, txnType2, amount2).value);
      r.0 == t1 && r.1.Canceled? && r.1.reasons[0] == ConditionalCheckFailed
  {
    var last := LastTxn(t, AccountKey);
    SameSnapshotAtMostOneCommits(t, CustNumber, AcctNumber, last, date1, txnType1, amount1, date2, txnType2, amount2);
  }

  /** Two runs of `main` one after the other, each from a fresh snapshot,
      that both commit: the balance has grown by both amounts, the sequence
      number by two, and both records are in the ledger. */
  lemma SuccessiveRunsCompose(t0: Table, date1: string, txnType1: string, amount1: int,
                              date2: string, txnType2: string, amount2: int)
    requires WellFormed(t0)
    requires PrepareCredit(t0, date1, txnType1, amount1).Success?
    requires Apply(t0, PrepareCredit(t0, date1, txnType1, amount1).value).1.Committed?
    ensures var t1 := Apply(t0, PrepareCredit(t0, date1, txnType1, amount1).value).0;
      PrepareCredit(t1, date2, txnType2, amount2).Success?
    ensures var t1 := Apply(t0, PrepareCredit(t0, date1, txnType1, amount1).value).0;
      var r := Apply(t1, PrepareCredit(t1, date2, txnType2, amount2).value);
      var n := LastTxn(t0, AccountKey);
      r.1.Committed? ==>
        && AccountReadable(r.0, AccountKey)
        && Balance(r.0, AccountKey) == Balance(t0, AccountKey) + amount1 + amount2
        && LastTxn(r.0, AccountKey) == n + 2
        && RecordKey(n + 1, AcctNumber) in r.0.items
        && r.0.items[RecordKey(n + 1, AcctNumber)] == LedgerRecord(AcctNumber, n + 1, date1, txnType1, amount1)
        && RecordKey(n + 2, AcctNumber) in r.0.items
        && r.0.items[RecordKey(n + 2, AcctNumber)] == LedgerRecord(AcctNumber, n + 2, date2, txnType2, amount2)
  {
    var n := LastTxn(t0, AccountKey);
    CreditBalanceAndSequence(t0, CustNumber, AcctNumber, n, n + 1, date1, txnType1, amount1);
    var t1 := Apply(t0, PrepareCredit(t0, date1, txnType1, amount1).value).0;
    assert LastTxn(t1, AccountKey) == n + 1;
    var r := Apply(t1, PrepareCredit(t1, date2, txnType2, amount2).value);
    if r.1.Committed? {
      CreditBalanceAndSequence(t1, CustNumber, AcctNumber, n + 1, n + 2, date2, txnType2, amount2);
      CreditEffect(t1, CustNumber, AcctNumber, n + 1, n + 2, date2, txnType2, amount2);
      MainCustomerIsNotARecordKey(n + 1);
      assert RecordKey(n + 1, AcctNumber) != RecordKey(n + 2, AcctNumber) by {
        if IntToString(n + 1) == IntToString(n + 2) { IntToStringInjective(n + 1, n + 2); }
      }
    }
  }

  // ---------------------------------------------------------------------
  // Any order of whole transactions against the account of `main`

  /** A credit as some run of `main` built it: the sequence number it
      observed (possibly stale by the time it is applied) and its payload. */
  datatype Credit = Credit(observedLast: int, date: string, txnType: string, amount: int)

  function CreditRequest(c: Credit): TransactWriteItemsInput {
    CreateTransactWriteItemsInput(CustNumber, AcctNumber, c.observedLast, NextTxnNumber(c.observedLast),
                                  c.date, c.txnType, c.amount)
  }

  /** Apply the credits' transactions one after another; return the final
      table and the credits that committed, in order. */
  function RunCredits(t: Table, cs: seq<Credit>): (Table, seq<Credit>)
    decreases |cs|
  {
    if cs == [] then (t, [])
    else
      var step := Apply(t, CreditRequest(cs[0]));
      var tail := RunCredits(step.0, cs[1..]);
      (tail.0, if step.1.Committed? then [cs[0]] + tail.1 else tail.1)
  }

  function SumAmounts(cs: seq<Credit>): int {
    if cs == [] then 0 else cs[0].amount + SumAmounts(cs[1..])
  }

  /** One credit's transaction, in terms of the account and the ledger. */
  lemma CreditStep(t: Table, c: Credit)
    requires WellFormed(t) && AccountReadable(t, AccountKey)
    ensures var (t1, outcome) := Apply(t, CreditRequest(c));
      && WellFormed(t1) && AccountReadable(t1, AccountKey)
      && (!outcome.Committed? ==> t1 == t)
      && (outcome.Committed? ==>
            && c.observedLast == LastTxn(t, AccountKey)
            && Balance(t1, AccountKey) == Balance(t, AccountKey) + c.amount
            && LastTxn(t1, AccountKey) == LastTxn(t, AccountKey) + 1
            && RecordKey(c.observedLast + 1, AcctNumber) != AccountKey
            && RecordKey(c.observedLast + 1, AcctNumber) !in t.items
            && RecordKey(c.observedLast + 1, AcctNumber) in t1.items
            && t1.items[RecordKey(c.observedLast + 1, AcctNumber)] == LedgerRecord(AcctNumber, c.observedLast + 1, c.date, c.txnType, c.amount)
            && (forall k | k in t.items && k != AccountKey :: k in t1.items && t1.items[k] == t.items[k]))
  {
    var (t1, outcome) := Apply(t, CreditRequest(c));
    if outcome.Committed? {
      CreditBalanceAndSequence(t, CustNumber, AcctNumber, c.observedLast, c.observedLast + 1, c.date, c.txnType, c.amount);
      CreditEffect(t, CustNumber, AcctNumber, c.observedLast, c.observedLast + 1, c.date, c.txnType, c.amount);
      MainCustomerIsNotARecordKey(c.observedLast + 1);
    }
  }

  /** Balance conservation over a run: the balance grows by exactly the
      committed amounts and the sequence number by the number of commits. */
  lemma {:induction false} RunConservesBalance(t: Table, cs: seq<Credit>)
    requires WellFormed(t) && AccountReadable(t, AccountKey)
    ensures var final, applied := RunCredits(t, cs).0, RunCredits(t, cs).1;
      && WellFormed(final) && AccountReadable(final, AccountKey)
      && Balance(final, AccountKey) == Balance(t, AccountKey) + SumAmounts(applied)
      && LastTxn(final, AccountKey) == LastTxn(t, AccountKey) + |applied|
    decreases |cs|
  {
    if cs != [] {
      var c := cs[0];
      var t1 := Apply(t, CreditRequest(c)).0;
      var outcome := Apply(t, CreditRequest(c)).1;
      var final, rest := RunCredits(t1, cs[1..]).0, RunCredits(t1, cs[1..]).1;
      CreditStep(t, c);
      RunConservesBalance(t1, cs[1..]);
      if outcome.Committed? {
        assert RunCredits(t, cs) == (final, [c] + rest);
        assert SumAmounts([c] + rest) == c.amount + SumAmounts(rest);
      } else {
        assert RunCredits(t, cs) == (final, rest);
      }
    }
  }

  /** Over a run, the committed credits are exactly those that observed
      last, last+1, last+2, ... in turn: sequence numbers are gapless and
      each is used once; and no item other than the account is changed or
      removed, so the ledger is append-only. */
  lemma {:induction false} RunIsGaplessAndAppendOnly(t: Table, cs: seq<Credit>)
    requires WellFormed(t) && AccountReadable(t, AccountKey)
    ensures var final, applied := RunCredits(t, cs).0, RunCredits(t, cs).1;
      && (forall j | 0 <= j < |applied| :: applied[j].observedLast == LastTxn(t, AccountKey) + j)
      && (forall k | k in t.items && k != AccountKey :: k in final.items && final.items[k] == t.items[k])
    decreases |cs|
  {
    if cs != [] {
      var c := cs[0];
      var t1 := Apply(t, CreditRequest(c)).0;
      var outcome := Apply(t, CreditRequest(c)).1;
      var final, rest := RunCredits(t1, cs[1..]).0, RunCredits(t1, cs[1..]).1;
      CreditStep(t, c);
      RunIsGaplessAndAppendOnly(t1, cs[1..]);
      if outcome.Committed? {
        RunConservesBalance(t1, cs[1..]);
        var n := LastTxn(t, AccountKey);
        var applied := [c] + rest;
        assert RunCredits(t, cs) == (final, applied);
        forall j | 0 <= j < |applied|
          ensures applied[j].observedLast == n + j
        {
          if j > 0 { assert applied[j] == rest[j - 1]; }
        }
        forall k | k in t.items && k != AccountKey
          ensures k in final.items && final.items[k] == t.items[k]
        {
          assert k in t1.items && t1.items[k] == t.items[k];
        }
      } else {
        assert RunCredits(t, cs) == (final, rest);
      }
    }
  }

  /** The credit's ledger record is in the table, under its own number. */
  predicate Recorded(t: Table, c: Credit) {
    && RecordKey(c.observedLast + 1, AcctNumber) in t.items
    && t.items[RecordKey(c.observedLast + 1, AcctNumber)] == LedgerRecord(AcctNumber, c.observedLast + 1, c.date, c.txnType, c.amount)
  }

  /** Every committed credit of a run leaves its ledger record, under its own
      sequence number, in the final table. */
  lemma {:induction false} RunRecordsEveryCommit(t: Table, cs: seq<Credit>)
    requires WellFormed(t) && AccountReadable(t, AccountKey)
    ensures forall j | 0 <= j < |RunCredits(t, cs).1| :: Recorded(RunCredits(t, cs).0, RunCredits(t, cs).1[j])
    decreases |cs|
  {
    if cs != [] {
      var c := cs[0];
      var t1 := Apply(t, CreditRequest(c)).0;
      var outcome := Apply(t, CreditRequest(c)).1;
      var final, rest := RunCredits(t1, cs[1..]).0, RunCredits(t1, cs[1..]).1;
      CreditStep(t, c);
      RunRecordsEveryCommit(t1, cs[1..]);
      if outcome.Committed? {
        RunIsGaplessAndAppendOnly(t1, cs[1..]);
        var applied := [c] + rest;
        assert RunCredits(t, cs) == (final, applied);
        var recKey := RecordKey(c.observedLast + 1, AcctNumber);
        assert recKey in final.items && final.items[recKey] == t1.items[recKey];
        assert Recorded(final, c);
        forall j | 0 < j < |applied| ensures Recorded(final, applied[j]) {
          assert applied[j] == rest[j - 1];
        }
      } else {
        assert RunCredits(t, cs) == (final, rest);
      }
    }
  }

  // ---------------------------------------------------------------------
  // A worked example

  /** An assumed account state: CUST#102 / ACCT#510 holds balance 1000 and
      last number 7. */
  const ExampleTable := Table(TableName, map[AccountKey := map[
    PartitionKeyAttr := S(CustNumber), SortKeyAttr := S(AcctNumber),
    AcctBalanceAttr := N(1000), AcctLastTxnAttr := N(7)]])

  /** `main` credits 50 on 2023/01/01 by atm: the request targets number 8,
      commits, and leaves balance 1050, last number 8 and record "8". */
  lemma ExampleCredit()
    ensures PrepareCredit(ExampleTable, TxnDate, TxnType, TxnAmount) ==
      Success(CreateTransactWriteItemsInput(CustNumber, AcctNumber, 7, 8, TxnDate, TxnType, TxnAmount))
    ensures var r := Apply(ExampleTable, CreateTransactWriteItemsInput(CustNumber, AcctNumber, 7, 8, TxnDate, TxnType, TxnAmount));
      && r.1.Committed?
      && AccountReadable(r.0, AccountKey)
      && Balance(r.0, AccountKey) == 1050
      && LastTxn(r.0, AccountKey) == 8
      && Key("8", AcctNumber) in r.0.items
      && r.0.items[Key("8", AcctNumber)] == LedgerRecord(AcctNumber, 8, "2023/01/01", "atm", 50)
  {
    var t := ExampleTable;
    assert WellFormed(t);
    assert AccountReadable(t, AccountKey) && LastTxn(t, AccountKey) == 7 && Balance(t, AccountKey) == 1000;
    assert IntToString(8) == "8";
    assert RecordKey(8, AcctNumber) !in t.items;
    MainCustomerIsNotARecordKey(8);
    CreditCommitsIff(t, CustNumber, AcctNumber, 7, 8, TxnDate, TxnType, TxnAmount);
    CreditBalanceAndSequence(t, CustNumber, AcctNumber, 7, 8, TxnDate, TxnType, TxnAmount);
  }
}
