# Ledger append for ACME Bank, modelled in Dafny

This project models the ledger-append request of `acmebank/python/add_credit_txn.py`.
The script reads one account's last transaction number and balance. It computes the
next number and builds one DynamoDB `TransactWriteItems` request with two conditional
actions:

- an `Update` of the account item. It adds the amount to `acct_balance` and sets
  `acct_last_txn` to the new number. It is guarded by
  `attribute_exists(SK) And acct_last_txn = :acct_last_txn`, a compare-and-swap on the
  sequence number.
- an `Update` that creates the ledger record at key `(new number, account)`. It is
  guarded by `attribute_not_exists(PK) And attribute_not_exists(SK)`, so it can only
  create, never overwrite.

The script never executes the transaction itself: DynamoDB applies all actions or none.
The model therefore gives the request a meaning as a pure transition on an abstract table.
`Dynamo.Apply` takes a table and a request and returns the new table and an outcome.

Files:

- `wrappers.dfy`: `Option` and `Result`.
- `numerals.dfy`: Python's `str(int)`. The record's partition key is the new transaction
  number rendered this way.
- `dynamo.dfy`: the table, the condition and `SET` expressions the request uses,
  `TransactWriteItems` (`Apply`) and key-equality `Query`.
- `add_credit_txn.dfy`: the script's constants, the error help table and `handle_error`'s
  lookup, `create_account_query_input`, `create_transact_write_items_input`, and steps 1-5
  of `main` (`PrepareCredit`).
- `ledger.dfy`: the properties. These cover when the request commits, what it writes,
  replay, two requests from one snapshot, successive runs, runs of any length, and a
  worked example.

The model keeps three quirks of the code as they are:

- The record's partition key is the bare transaction number, not customer plus number.
- `create_account_query_input` ignores its arguments and always queries `CUST#102` / `ACCT#510`.
- There is no retry. One attempt is made, and a failure is only reported.

Nor is there an error classifier: `handle_error` only looks up and prints a help text.

## Model

| member | source | states |
|---|---|---|
| `Dynamo.Apply` | acmebank/python/add_credit_txn.py:71-99 | The two actions sit in one `TransactItems` list, so the call is all-or-nothing. The call commits exactly when every action names the table, the request is well formed, and every guard and every operand holds on the table as it was. Any failure returns the table unchanged. A cancellation carries one reason per action, and at least one reason is a failure. |
| `Dynamo.ApplyCommittedEffect` | acmebank/python/add_credit_txn.py:71-99 | A commit stores each action's new item at its key. Every other item stays as it was, and the keys afterwards are the old keys plus the actions' keys. |
| `Dynamo.WriteAllEffect` | acmebank/python/add_credit_txn.py:71-99 | When the actions' keys are distinct, writing them one after another stores each action's own item, whatever the order. |
| `Dynamo.ApplyPairFacts` | acmebank/python/add_credit_txn.py:71-99 | A committed two-action request names two different items. It stores the first action's new item at the first key and the second's at the second key, and changes nothing else. |
| `Dynamo.ApplyPairCommitted` | acmebank/python/add_credit_txn.py:71-99 | A committed two-action request leaves exactly the old table with its two keys overwritten by the new items. |
| `Dynamo.ApplyPreservesWellFormed` | acmebank/python/add_credit_txn.py:76-92 | After any transaction, every stored item still carries its own key as its PK and SK attributes. |
| `Dynamo.ApplySets` | acmebank/python/add_credit_txn.py:80 | `SET` succeeds exactly when every operand evaluates. Assigned attributes take their operand's value, computed on the item as it was before the update. Attributes that are not assigned keep their values. |
| `Dynamo.NewItem` | acmebank/python/add_credit_txn.py:74-79 | An update on an absent key creates the item with its key attributes. The result exists exactly when every operand evaluates, and it carries its key. |
| `Dynamo.Query` | acmebank/python/add_credit_txn.py:46-50 | A query on `PK = … And SK = …` fails exactly for a wrong table or a malformed key condition. Otherwise it returns at most one item: the item at that key, if there is one. |
| `Dynamo.QueryAfterCommit` | acmebank/python/add_credit_txn.py:46-50 | Read-after-write: after a commit, a key query fails exactly as before. On an action's key it returns that action's new item; on any other key it returns what it returned before the commit. |
| `Numerals.NatToString` | acmebank/python/add_credit_txn.py:144 | `str(n)` is a non-empty string of digits, one character exactly when n < 10. Its value is stated by `Numerals.NatToStringRoundTrip` and its canonical form by `Numerals.NatToStringNoLeadingZero`. |
| `Numerals.NatToStringRoundTrip` | acmebank/python/add_credit_txn.py:141-144 | `int(str(n)) == n`: the digits `str` produces denote n again (`DigitsValue`). |
| `Numerals.NatToStringNoLeadingZero` | acmebank/python/add_credit_txn.py:144 | `str(n)` has no leading zero: its first character is '0' exactly when n is 0. |
| `Numerals.IntToString` | acmebank/python/add_credit_txn.py:144 | `str(i)` is non-empty and starts with '-' exactly when i is negative, with a digit otherwise. Its value is stated by `Numerals.IntToStringRoundTrip` and its canonical form by `Numerals.IntToStringNoLeadingZero`. |
| `Numerals.IntToStringRoundTrip` | acmebank/python/add_credit_txn.py:141-144 | `int(str(i)) == i`: the rendering is a numeral (an optional '-' and at least one digit) and reads back as i (`NumeralValue`). |
| `Numerals.IntToStringNoLeadingZero` | acmebank/python/add_credit_txn.py:144 | `str(i)` starts with '0' exactly when i is 0, and after a '-' comes a non-zero digit, so "-0" and "-012" never occur. |
| `Numerals.DigitChar` | acmebank/python/add_credit_txn.py:144 | Each decimal digit renders as the character with that digit value. |
| `Numerals.NatToStringInjective` | acmebank/python/add_credit_txn.py:144 | Distinct naturals have distinct renderings, by the round trip through `int()`. |
| `Numerals.IntToStringInjective` | acmebank/python/add_credit_txn.py:90 | Distinct transaction numbers give distinct record partition keys. |
| `Numerals.NumeralsAreNotOthers` | acmebank/python/add_credit_txn.py:90 | A string that starts with neither a digit nor '-' is never a rendered number. |
| `AddCreditTxn.HandleError` | acmebank/python/add_credit_txn.py:115-119 | The lookup is defined only for codes in the table: any other code raises KeyError. When defined, the code is one of the eleven listed and the help text is non-empty. |
| `AddCreditTxn.ErrorHelpDomain` | acmebank/python/add_credit_txn.py:18-34 | The help table is defined for exactly the eleven listed codes. |
| `AddCreditTxn.HelpCoversBackendFailures` | acmebank/python/add_credit_txn.py:115-119 | Every failure code the modelled transaction and query can report has a help entry. So `handle_error` does not raise KeyError on them. |
| `AddCreditTxn.CreateAccountQueryInput` | acmebank/python/add_credit_txn.py:45-51 | Whatever its arguments, the query names the configured table and the key condition `PK = CUST#102 And SK = ACCT#510`. |
| `AddCreditTxn.AccountQueryIgnoresArguments` | acmebank/python/add_credit_txn.py:45-51 | For any customer and account asked for, the query reads the CUST#102 / ACCT#510 item. |
| `AddCreditTxn.CreateTransactWriteItemsInput` | acmebank/python/add_credit_txn.py:70-100 | The request has two actions. Item 1 targets `(cust_number, acct_number)`. Item 2 targets `(str(latest_txn_number), acct_number)`. |
| `AddCreditTxn.PrepareCredit` | acmebank/python/add_credit_txn.py:131-144 | `main` gets as far as building the request exactly when the table is the configured one and the account item exists with a numeric balance and last number. The request it builds uses the observed last number and that number plus one. |
| `AddCreditTxn.PreparedRecordNumber` | acmebank/python/add_credit_txn.py:141-144 | The record key `main` builds reads back through `int()` as the observed last number plus one, and the account guard compares against the observed number. |
| `Ledger.AccountUpdateEvaluates` | acmebank/python/add_credit_txn.py:80 | The account update's `SET` is valid. Its operands evaluate exactly when the stored balance exists and is a number. |
| `Ledger.LedgerRecordPutEvaluates` | acmebank/python/add_credit_txn.py:93-96 | The record's `SET` is valid and always evaluates. |
| `Ledger.AccountUpdateResult` | acmebank/python/add_credit_txn.py:73-84 | On an existing account, item 1 leaves the balance plus the amount and the new last number. No other attribute changes. |
| `Ledger.RecordSetsResult` | acmebank/python/add_credit_txn.py:93-96 | The record's five literal `SET`s, applied to an item that holds only its key, give exactly the ledger record. |
| `Ledger.LedgerRecordPutResult` | acmebank/python/add_credit_txn.py:86-97 | On a free key, item 2 creates the record with exactly these attributes: PK = str(latest), SK = acct, txn_amount, txn_date, txn_type, GSI1_PK = txn_date and GSI1_SK = acct. |
| `Ledger.CreditCommitsIff` | acmebank/python/add_credit_txn.py:70-100 | The request commits if and only if: the table is the configured one; the two actions name different items; the account exists with a numeric balance and still carries the last number passed in; and nothing is stored at the record's key. |
| `Ledger.CreditEffect` | acmebank/python/add_credit_txn.py:70-100 | A commit changes exactly two items. The account gets the new balance and last number. The ledger record appears at `(str(latest), acct)`. |
| `Ledger.CreditBalanceAndSequence` | acmebank/python/add_credit_txn.py:80-81 | After a commit, the balance is the old balance plus the amount, and the last number goes from the one passed in to `latest`. The record key was free before and holds the record after. |
| `Ledger.StaleSnapshotCancels` | acmebank/python/add_credit_txn.py:81 | If the account is missing or its number has moved on, the account guard fails. The transaction is cancelled and the table is unchanged. |
| `Ledger.ReplayNeverDuplicates` | acmebank/python/add_credit_txn.py:94 | Submitting a committed request again is cancelled by the record's create-only guard. It never writes a second record at that key. |
| `Ledger.SameSnapshotAtMostOneCommits` | acmebank/python/add_credit_txn.py:81-94 | Of two requests built from the same observed last number, the second is cancelled by the account guard once the first has committed, and the table is unchanged. |
| `Ledger.MainCustomerIsNotARecordKey` | acmebank/python/add_credit_txn.py:90 | A record key never coincides with the key of `main`'s account. |
| `Ledger.FreshSnapshotCommits` | acmebank/python/add_credit_txn.py:136-149 | The request `main` builds commits against the snapshot it read exactly when no record exists yet at the next number. |
| `Ledger.ConcurrentRunsAtMostOneCommits` | acmebank/python/add_credit_txn.py:136-149 | Two runs of `main` read the same snapshot. Once one commits, the other is cancelled by the account guard and changes nothing. |
| `Ledger.SuccessiveRunsCompose` | acmebank/python/add_credit_txn.py:136-149 | Two runs of `main` from successive snapshots both commit. The balance is then the initial balance plus both amounts, the last number is the initial one plus two, and both records are present. |
| `Ledger.CreditStep` | acmebank/python/add_credit_txn.py:70-100 | One credit either leaves the table unchanged or commits. A commit means: the credit had observed the current number; it adds its amount; it advances the number by one; it creates its record at a free key; and it leaves every other item as it was. |
| `Ledger.RunConservesBalance` | acmebank/python/add_credit_txn.py:127-149 | For any sequence of whole transactions, built from any snapshots: the final balance is the initial balance plus the sum of the committed amounts. The last number grows by the number of commits. |
| `Ledger.RunIsGaplessAndAppendOnly` | acmebank/python/add_credit_txn.py:127-149 | The committed credits observed last, last+1, last+2, … in turn, so the numbers are gapless and each is used once. Every item other than the account survives unchanged, so the ledger is append-only. |
| `Ledger.RunRecordsEveryCommit` | acmebank/python/add_credit_txn.py:127-149 | Every committed credit's record is in the final table under its own number, with its own payload. |
| `Ledger.ExampleCredit` | acmebank/python/add_credit_txn.py:14-16 | Start from an account holding balance 1000 and last number 7 (an assumed state; the script holds no balance), and apply the script's credit of 50 on 2023/01/01 by atm. The request uses numbers 7 and 8 and commits. It leaves balance 1050, last number 8, and record "8" with those fields. |

## Left out

- Client construction, endpoint and credentials (lines 37-42) are left out. They are calls into boto3.
- `execute_account_query` and `execute_transact_write_items` are left out (lines 54-63 and 103-112). Their network calls become the pure `Query` and `Apply`. Their prints and `BaseException` handlers are not modelled. A query `ClientError` appears only as `QueryFailed` in `PrepareCredit`, because `main` then fails on the missing response.
- The message formatting and printing in `handle_error` (lines 121-124) and the prints in `main` (lines 138 and 146) are left out. Only the table lookup and its domain are modelled.
- The DynamoDB wire encoding (`{"S": …}`, `{"N": …}`) and the string-to-number conversions are left out. Numbers are unbounded integers. DynamoDB's 38-digit limit on numbers is not modelled.
- Real concurrency is left out. Only sequential orders of whole transactions are modelled; isolation between concurrent writers is the service's job. A query that returns a stale snapshot is covered, because `Ledger.Credit` may carry any observed number.
- Retries, back-off and error classification are left out. The code has none of them.
- `int()` is modelled by `Numerals.NumeralValue`, which reads an optional '-' followed by one or more digits, leading zeros included. The '+' sign, surrounding whitespace and underscores, which `int()` also accepts, are not modelled, because stored numbers are held as integers rather than as their wire strings.
- The model never reports some codes that are in the help table: request-token errors (`TransactionInProgressException`, `IdempotentParameterMismatchException`), throttling, capacity, authentication and internal errors. No client request token is sent, and service faults are outside the table model.
- `TransactionConflictException` is not among the cancellation reasons. It belongs to concurrent execution, which is not modelled.
- `Dynamo.Apply` models the validation checks the request could trip: no actions or more than 100, two actions on one item, one attribute assigned twice, or a key attribute assigned. They give `ValidationException`, and a wrong table gives `ResourceNotFoundException`. No other service-side validation is modelled (item size, expression syntax).
- In `Dynamo.Apply`, a failed guard is reported before an operand error on the same action. The service documents no order between the two, and the choice does not change whether the transaction commits.
- Secondary-index queries and table provisioning are left out. `GSI1_PK` and `GSI1_SK` are only written.
- The constants at lines 6-16 are used as `main`'s inputs and in `Ledger.ExampleCredit`; nothing else about them is modelled.
