/**
 * The client side of the ledger append in acmebank/python/add_credit_txn.py:
 * the hardcoded configuration, the error help table, the account query and
 * the two-action conditional transaction it builds, and the step of `main`
 * that turns the account snapshot into that transaction.
 */
module AddCreditTxn {
  import opened Wrappers
  import opened Numerals
  import opened Dynamo

  const TableName := "acme-bank-v11"
  const CustNumber := "CUST#102"
  const AcctNumber := "ACCT#510"
  /** The example transaction `main` appends. */
  const TxnAmount := 50
  const TxnDate := "2023/01/01"
  const TxnType := "atm"

  /** Attribute names used by the account item and the ledger record. */
  const AcctBalanceAttr := "acct_balance"
  const AcctLastTxnAttr := "acct_last_txn"
  const TxnAmountAttr := "txn_amount"
  const TxnDateAttr := "txn_date"
  const TxnTypeAttr := "txn_type"
  const Gsi1PkAttr := "GSI1_PK"
  const Gsi1SkAttr := "GSI1_SK"

  // ---------------------------------------------------------------------
  // Error help table

  const ErrorHelpStrings: map<string, string> := map[
    "TransactionCanceledException" := "Transaction Cancelled, implies a client issue, fix before retrying",
    "TransactionInProgressException" := "The transaction with the given request token is already in progress, consider changing retry strategy for this type of error",
    "IdempotentParameterMismatchException" := "Request rejected because it was retried with a different payload but with a request token that was already used,change request token for this payload to be accepted",
    "InternalServerError" := "Internal Server Error, generally safe to retry with exponential back-off",
    "ProvisionedThroughputExceededException" := "Request rate is too high. If you're using a custom retry strategy make sure to retry with exponential back-off.Otherwise consider reducing frequency of requests or increasing provisioned capacity for your table or secondary index",
    "ResourceNotFoundException" := "One of the tables was not found, verify table exists before retrying",
    "ServiceUnavailable" := "Had trouble reaching DynamoDB. generally safe to retry with exponential back-off",
    "ThrottlingException" := "Request denied due to throttling, generally safe to retry with exponential back-off",
    "UnrecognizedClientException" := "The request signature is incorrect most likely due to an invalid AWS access key ID or secret key, fix before retrying",
    "ValidationException" := "The input fails to satisfy the constraints specified by DynamoDB, fix input before retrying",
    "RequestLimitExceeded" := "Throughput exceeds the current throughput limit for your account, increase account level throughput before retrying"
  ]

  /** The codes the help table knows. */
  const KnownErrorCodes: set<string> := {
    "TransactionCanceledException", "TransactionInProgressException",
    "IdempotentParameterMismatchException", "InternalServerError",
    "ProvisionedThroughputExceededException", "ResourceNotFoundException",
    "ServiceUnavailable", "ThrottlingException", "UnrecognizedClientException",
    "ValidationException", "RequestLimitExceeded"
  }

  /** The help string `handle_error` prints; the lookup raises KeyError on any
      code outside the table, so a caller must pass a known code. */
  function HandleError(code: string): (help: string)
    requires code in ErrorHelpStrings
    ensures code in KnownErrorCodes
    ensures 0 < |help|
  {
    ErrorHelpStrings[code]
  }

  /** The table is defined for exactly the eleven codes listed. */
  lemma ErrorHelpDomain()
    ensures ErrorHelpStrings.Keys == KnownErrorCodes
  {
  }

  /** Every failure the backend model reports, for a transaction or a query,
      has an entry, so `handle_error` never raises KeyError on them. */
  lemma HelpCoversBackendFailures(t: Table, input: TransactWriteItemsInput, q: QueryInput)
    ensures !Apply(t, input).1.Committed? ==> ErrorCode(Apply(t, input).1) in ErrorHelpStrings
    ensures Query(t, q).Failure? ==> Query(t, q).error in ErrorHelpStrings
  {
  }

  // ---------------------------------------------------------------------
  // The account query

  /** Ignores both arguments: the key condition always names CUST#102 / ACCT#510. */
  function CreateAccountQueryInput(cust: string, account: string): (q: QueryInput)
    ensures q.table == TableName
    ensures q.pkAttr == PartitionKeyAttr && q.skAttr == SortKeyAttr
    ensures q.pkValue == S(CustNumber) && q.skValue == S(AcctNumber)
  {
    QueryInput(TableName, PartitionKeyAttr, S("CUST#102"), SortKeyAttr, S("ACCT#510"))
  }

  /** Whatever customer and account are asked for, the query reads the
      CUST#102 / ACCT#510 item. */
  lemma AccountQueryIgnoresArguments(t: Table, cust: string, account: string)
    requires t.name == TableName
    ensures Query(t, CreateAccountQueryInput(cust, account)) ==
      Success(if Key(CustNumber, AcctNumber) in t.items then [t.items[Key(CustNumber, AcctNumber)]] else [])
  {
  }

  // ---------------------------------------------------------------------
  // The two-action transaction

  /** Item 1: add the amount to the balance and advance the sequence number,
      provided the account exists and its sequence number is still `last`. */
  function AccountUpdate(cust: string, acct: string, last: int, latest: int, amount: int): Update {
    Update(
      TableName,
      Key(cust, acct),
      [Set(AcctBalanceAttr, Plus(AcctBalanceAttr, N(amount))), Set(AcctLastTxnAttr, Literal(N(latest)))],
      And(AttributeExists(SortKeyAttr), Equals(AcctLastTxnAttr, N(last))))
  }

  /** The key of a ledger record: the bare transaction number and the account. */
  function RecordKey(latest: int, acct: string): Key {
    Key(IntToString(latest), acct)
  }

  /** Item 2: create the ledger record, provided nothing is stored at its key. */
  function LedgerRecordPut(acct: string, latest: int, date: string, txnType: string, amount: int): Update {
    Update(
      TableName,
      RecordKey(latest, acct),
      [ Set(TxnAmountAttr, Literal(N(amount))), Set(TxnDateAttr, Literal(S(date))),
        Set(TxnTypeAttr, Literal(S(txnType))), Set(Gsi1PkAttr, Literal(S(date))),
        Set(Gsi1SkAttr, Literal(S(acct))) ],
      And(AttributeNotExists(PartitionKeyAttr), AttributeNotExists(SortKeyAttr)))
  }

  function CreateTransactWriteItemsInput(
    cust: string, acct: string, last: int, latest: int, date: string, txnType: string, amount: int
  ): (input: TransactWriteItemsInput)
    ensures |input.items| == 2
    ensures input.items[0].key == Key(cust, acct)
    ensures input.items[1].key == RecordKey(latest, acct)
  {
    TransactWriteItemsInput([AccountUpdate(cust, acct, last, latest, amount),
                             LedgerRecordPut(acct, latest, date, txnType, amount)])
  }

  // ---------------------------------------------------------------------
  // Views of the table used by the properties

  const AccountKey := Key(CustNumber, AcctNumber)

  /** The account item exists with a numeric balance and sequence number. */
  predicate AccountReadable(t: Table, k: Key) {
    && k in t.items
    && AcctBalanceAttr in t.items[k] && t.items[k][AcctBalanceAttr].N?
    && AcctLastTxnAttr in t.items[k] && t.items[k][AcctLastTxnAttr].N?
  }

  function Balance(t: Table, k: Key): int
    requires AccountReadable(t, k)
  {
    t.items[k][AcctBalanceAttr].n
  }

  function LastTxn(t: Table, k: Key): int
    requires AccountReadable(t, k)
  {
    t.items[k][AcctLastTxnAttr].n
  }

  /** The full ledger record item written by a successful transaction. */
  function LedgerRecord(acct: string, latest: int, date: string, txnType: string, amount: int): Item {
    map[PartitionKeyAttr := S(IntToString(latest)), SortKeyAttr := S(acct),
        TxnAmountAttr := N(amount), TxnDateAttr := S(date), TxnTypeAttr := S(txnType),
        Gsi1PkAttr := S(date), Gsi1SkAttr := S(acct)]
  }

  /** The account item after a successful transaction: new balance and
      sequence number, every other attribute as it was. */
  function CreditedAccount(account: Item, amount: int, latest: int): Item
    requires AcctBalanceAttr in account && account[AcctBalanceAttr].N?
  {
    account[AcctBalanceAttr := N(account[AcctBalanceAttr].n + amount)][AcctLastTxnAttr := N(latest)]
  }

  // ---------------------------------------------------------------------
  // Steps 1-5 of `main`

  /** Why `main` stops before submitting: the query failed (handle_error
      prints, the query returns None and the subscript fails), no item came
      back (IndexError), or an attribute is missing or not a number (KeyError). */
  datatype ReadFailure = QueryFailed(code: string) | NoAccountItem | MissingAttribute(attr: string)

  function NextTxnNumber(last: int): int {
    last + 1
  }

  /** Query the account, read its last transaction number and balance, and
      build the transaction for the next number. */
  function PrepareCredit(snapshot: Table, date: string, txnType: string, amount: int): (r: Result<TransactWriteItemsInput, ReadFailure>)
    ensures r.Success? <==> snapshot.name == TableName && AccountReadable(snapshot, AccountKey)
    ensures r.Success? ==>
      var last := LastTxn(snapshot, AccountKey);
      r.value == CreateTransactWriteItemsInput(CustNumber, AcctNumber, last, last + 1, date, txnType, amount)
    ensures r.Failure? && r.error.QueryFailed? ==> r.error.code in ErrorHelpStrings
  {
    match Query(snapshot, CreateAccountQueryInput(CustNumber, AcctNumber))
    case Failure(code) => Failure(QueryFailed(code))
    case Success(found) =>
      if found == [] then Failure(NoAccountItem)
      else
        var account := found[0];
        if AcctLastTxnAttr !in account || !account[AcctLastTxnAttr].N? then Failure(MissingAttribute(AcctLastTxnAttr))
        else if AcctBalanceAttr !in account || !account[AcctBalanceAttr].N? then Failure(MissingAttribute(AcctBalanceAttr))
        else
          var last := account[AcctLastTxnAttr].n;
          Success(CreateTransactWriteItemsInput(CustNumber, AcctNumber, last, NextTxnNumber(last), date, txnType, amount))
  }

  /** The record key `main` writes, read back with `int()`, is the account's
      observed last number plus one, and the account guard compares against
      that observed number. */
  lemma PreparedRecordNumber(snapshot: Table, date: string, txnType: string, amount: int)
    requires PrepareCredit(snapshot, date, txnType, amount).Success?
    ensures var input := PrepareCredit(snapshot, date, txnType, amount).value;
      && IsNumeral(input.items[1].key.pk)
      && NumeralValue(input.items[1].key.pk) == LastTxn(snapshot, AccountKey) + 1
      && input.items[0].cond.right == Equals(AcctLastTxnAttr, N(LastTxn(snapshot, AccountKey)))
  {
    IntToStringRoundTrip(LastTxn(snapshot, AccountKey) + 1);
  }
}
