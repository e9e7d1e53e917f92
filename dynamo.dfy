/**
 * An abstract model of the DynamoDB table the ledger-append request is sent
 * to: items keyed by (PK, SK), the condition and SET expressions the request
 * uses, and the all-or-nothing semantics of TransactWriteItems. The client
 * never executes a transaction itself; this module is the meaning of the
 * request it builds.
 */
module Dynamo {
  import opened Wrappers

  /** An attribute value: DynamoDB's `{"S": ...}` or `{"N": ...}`. Numbers
      are modelled as integers. */
  datatype Value = S(s: string) | N(n: int)

  type Item = map<string, Value>

  /** The primary key of an item: partition key PK and sort key SK. */
  datatype Key = Key(pk: string, sk: string)

  datatype Table = Table(name: string, items: map<Key, Item>)

  const PartitionKeyAttr := "PK"
  const SortKeyAttr := "SK"

  /** At most 100 actions per TransactWriteItems call. */
  const MaxTransactItems := 100

  /** Every stored item carries its own key as the PK and SK attributes. */
  predicate HasKeyAttrs(item: Item, k: Key) {
    && PartitionKeyAttr in item && item[PartitionKeyAttr] == S(k.pk)
    && SortKeyAttr in item && item[SortKeyAttr] == S(k.sk)
  }

  predicate WellFormed(t: Table) {
    forall k | k in t.items :: HasKeyAttrs(t.items[k], k)
  }

  /** The item a condition or update sees: the stored one, or no attributes at all. */
  function Stored(t: Table, k: Key): Item {
    if k in t.items then t.items[k] else map[]
  }

  // ---------------------------------------------------------------------
  // Condition expressions

  datatype Cond =
    | AttributeExists(attr: string)
    | AttributeNotExists(attr: string)
    | Equals(attr: string, v: Value)
    | And(left: Cond, right: Cond)

  predicate Holds(c: Cond, item: Item) {
    match c
    case AttributeExists(a) => a in item
    case AttributeNotExists(a) => a !in item
    case Equals(a, v) => a in item && item[a] == v
    case And(l, r) => Holds(l, item) && Holds(r, item)
  }

  // ---------------------------------------------------------------------
  // SET update expressions

  /** The right-hand side of a SET action: a value, or `attr + value`. */
  datatype Operand = Literal(v: Value) | Plus(attr: string, v: Value)

  datatype SetAction = Set(attr: string, operand: Operand)

  /** An operand against the item as it was before the update; `+` fails
      on a missing or non-number attribute. */
  function Eval(before: Item, o: Operand): (r: Option<Value>)
    ensures o.Literal? ==> r == Some(o.v)
    ensures o.Plus? ==> (r.Some? <==> o.attr in before && before[o.attr].N? && o.v.N?)
    ensures o.Plus? && r.Some? ==> r.value == N(before[o.attr].n + o.v.n)
  {
    match o
    case Literal(v) => Some(v)
    case Plus(a, v) =>
      if a in before && before[a].N? && v.N? then Some(N(before[a].n + v.n)) else None
  }

  function Targets(sets: seq<SetAction>): set<string> {
    set i | 0 <= i < |sets| :: sets[i].attr
  }

  lemma TargetsCons(sets: seq<SetAction>)
    requires sets != []
    ensures Targets(sets) == {sets[0].attr} + Targets(sets[1..])
  {
    forall a ensures a in Targets(sets) <==> a == sets[0].attr || a in Targets(sets[1..]) {
      if a in Targets(sets) {
        var i :| 0 <= i < |sets| && sets[i].attr == a;
        if i > 0 { assert sets[1..][i - 1].attr == a; }
      }
      if a in Targets(sets[1..]) {
        var i :| 0 <= i < |sets[1..]| && sets[1..][i].attr == a;
        assert sets[i + 1].attr == a;
      }
    }
  }

  /** No attribute is assigned twice and no key attribute is assigned. */
  predicate ValidSets(sets: seq<SetAction>) {
    && (forall i | 0 <= i < |sets| :: sets[i].attr != PartitionKeyAttr && sets[i].attr != SortKeyAttr)
    && (forall i, j | 0 <= i < j < |sets| :: sets[i].attr != sets[j].attr)
  }

  predicate AllOperandsEvaluate(before: Item, sets: seq<SetAction>) {
    forall i | 0 <= i < |sets| :: Eval(before, sets[i].operand).Some?
  }

  /** Perform the SET actions on `acc`, each operand evaluated against `before`. */
  function ApplySets(before: Item, acc: Item, sets: seq<SetAction>): (r: Option<Item>)
    requires ValidSets(sets)
    ensures r.Some? <==> AllOperandsEvaluate(before, sets)
    ensures r.Some? ==> r.value.Keys == acc.Keys + Targets(sets)
    ensures r.Some? ==> forall a | a in acc && a !in Targets(sets) :: r.value[a] == acc[a]
    ensures r.Some? ==> forall i | 0 <= i < |sets| :: r.value[sets[i].attr] == Eval(before, sets[i].operand).value
    decreases |sets|
  {
    if sets == [] then Some(acc)
    else
      var v := Eval(before, sets[0].operand);
      if v.None? then None
      else
        TargetsCons(sets);
        ApplySets(before, acc[sets[0].attr := v.value], sets[1..])
  }

  /** The item `acc` after assigning each literal operand in order. */
  function AssignLiterals(acc: Item, sets: seq<SetAction>): Item
    requires forall i | 0 <= i < |sets| :: sets[i].operand.Literal?
    decreases |sets|
  {
    if sets == [] then acc
    else AssignLiterals(acc[sets[0].attr := sets[0].operand.v], sets[1..])
  }

  /** SET actions whose operands are all literals never fail, and do not
      consult the item they update. */
  lemma {:induction false} ApplyLiteralSets(before: Item, acc: Item, sets: seq<SetAction>)
    requires ValidSets(sets)
    requires forall i | 0 <= i < |sets| :: sets[i].operand.Literal?
    ensures ApplySets(before, acc, sets) == Some(AssignLiterals(acc, sets))
    decreases |sets|
  {
    if sets != [] {
      ApplyLiteralSets(before, acc[sets[0].attr := sets[0].operand.v], sets[1..]);
    }
  }

  // ---------------------------------------------------------------------
  // TransactWriteItems

  /** One `Update` action of a TransactItems list. */
  datatype Update = Update(table: string, key: Key, sets: seq<SetAction>, cond: Cond)

  datatype TransactWriteItemsInput = TransactWriteItemsInput(items: seq<Update>)

  /** DynamoDB's per-action CancellationReasons codes. */
  datatype CancellationReason = NoFailure | ConditionalCheckFailed | ValidationError

  datatype Outcome =
    | Committed
    | Canceled(reasons: seq<CancellationReason>)
    | Rejected(code: string)

  /** The error code a failed call reports. */
  function ErrorCode(o: Outcome): string
    requires !o.Committed?
  {
    if o.Canceled? then "TransactionCanceledException" else o.code
  }

  predicate TablesExist(t: Table, us: seq<Update>) {
    forall i | 0 <= i < |us| :: us[i].table == t.name
  }

  /** What DynamoDB checks before looking at any item. */
  predicate WellFormedRequest(us: seq<Update>) {
    && 0 < |us| <= MaxTransactItems
    && (forall i, j | 0 <= i < j < |us| :: us[i].key != us[j].key)
    && (forall i | 0 <= i < |us| :: ValidSets(us[i].sets))
  }

  function KeysOf(us: seq<Update>): set<Key> {
    set i | 0 <= i < |us| :: us[i].key
  }

  /** The item an update leaves at its key: an absent item is created with
      its key attributes, then the SET actions are performed. */
  function NewItem(t: Table, u: Update): (r: Option<Item>)
    requires ValidSets(u.sets)
    ensures r.Some? <==> AllOperandsEvaluate(Stored(t, u.key), u.sets)
    ensures r.Some? ==> HasKeyAttrs(r.value, u.key)
  {
    var before := Stored(t, u.key);
    ApplySets(before, before[PartitionKeyAttr := S(u.key.pk)][SortKeyAttr := S(u.key.sk)], u.sets)
  }

  function Reason(t: Table, u: Update): CancellationReason
    requires ValidSets(u.sets)
  {
    if !Holds(u.cond, Stored(t, u.key)) then ConditionalCheckFailed
    else if NewItem(t, u).None? then ValidationError
    else NoFailure
  }

  function Reasons(t: Table, us: seq<Update>): (rs: seq<CancellationReason>)
    requires forall i | 0 <= i < |us| :: ValidSets(us[i].sets)
    ensures |rs| == |us|
  {
    seq(|us|, i requires 0 <= i < |us| => Reason(t, us[i]))
  }

  predicate AllGo(rs: seq<CancellationReason>) {
    forall i | 0 <= i < |rs| :: rs[i] == NoFailure
  }

  /** Write every update's new item, each computed against the table as it
      was before the transaction. */
  function WriteAll(items: map<Key, Item>, t: Table, us: seq<Update>): map<Key, Item>
    requires forall i | 0 <= i < |us| :: ValidSets(us[i].sets) && NewItem(t, us[i]).Some?
    decreases |us|
  {
    if us == [] then items
    else WriteAll(items[us[0].key := NewItem(t, us[0]).value], t, us[1..])
  }

  lemma KeysOfCons(us: seq<Update>)
    requires us != []
    ensures KeysOf(us) == {us[0].key} + KeysOf(us[1..])
  {
    var rest := us[1..];
    forall k ensures k in KeysOf(us) <==> k == us[0].key || k in KeysOf(rest) {
      if k in KeysOf(us) {
        var i :| 0 <= i < |us| && us[i].key == k;
        if i > 0 { assert rest[i - 1].key == k; }
      }
      if k in KeysOf(rest) {
        var i :| 0 <= i < |rest| && rest[i].key == k;
        assert us[i + 1].key == k;
      }
    }
  }

  /** The keys after the writes are the old keys plus the actions' keys. */
  lemma {:induction false} WriteAllKeys(items: map<Key, Item>, t: Table, us: seq<Update>)
    requires forall i | 0 <= i < |us| :: ValidSets(us[i].sets) && NewItem(t, us[i]).Some?
    ensures WriteAll(items, t, us).Keys == items.Keys + KeysOf(us)
    decreases |us|
  {
    if us != [] {
      WriteAllKeys(items[us[0].key := NewItem(t, us[0]).value], t, us[1..]);
      KeysOfCons(us);
    }
  }

  /** Items at keys no action names are left alone. */
  lemma {:induction false} WriteAllFrame(items: map<Key, Item>, t: Table, us: seq<Update>, k: Key)
    requires forall i | 0 <= i < |us| :: ValidSets(us[i].sets) && NewItem(t, us[i]).Some?
    requires k in items && k !in KeysOf(us)
    ensures k in WriteAll(items, t, us) && WriteAll(items, t, us)[k] == items[k]
    decreases |us|
  {
    if us != [] {
      KeysOfCons(us);
      WriteAllFrame(items[us[0].key := NewItem(t, us[0]).value], t, us[1..], k);
    }
  }

  /** With distinct keys, each action's key ends up holding that action's item. */
  lemma {:induction false} WriteAllWrites(items: map<Key, Item>, t: Table, us: seq<Update>, i: nat)
    requires forall i | 0 <= i < |us| :: ValidSets(us[i].sets) && NewItem(t, us[i]).Some?
    requires forall i, j | 0 <= i < j < |us| :: us[i].key != us[j].key
    requires i < |us|
    ensures us[i].key in WriteAll(items, t, us)
    ensures WriteAll(items, t, us)[us[i].key] == NewItem(t, us[i]).value
    decreases |us|
  {
    var items' := items[us[0].key := NewItem(t, us[0]).value];
    var rest := us[1..];
    if i == 0 {
      KeysOfCons(us);
      forall j | 0 <= j < |rest| ensures rest[j].key != us[0].key {
        assert rest[j] == us[j + 1];
      }
      WriteAllFrame(items', t, rest, us[0].key);
    } else {
      assert rest[i - 1] == us[i];
      WriteAllWrites(items', t, rest, i - 1);
    }
  }

  lemma WriteAllEffect(items: map<Key, Item>, t: Table, us: seq<Update>)
    requires forall i | 0 <= i < |us| :: ValidSets(us[i].sets) && NewItem(t, us[i]).Some?
    requires forall i, j | 0 <= i < j < |us| :: us[i].key != us[j].key
    ensures WriteAll(items, t, us).Keys == items.Keys + KeysOf(us)
    ensures forall k | k in items && k !in KeysOf(us) :: WriteAll(items, t, us)[k] == items[k]
    ensures forall i | 0 <= i < |us| :: WriteAll(items, t, us)[us[i].key] == NewItem(t, us[i]).value
  {
    WriteAllKeys(items, t, us);
    forall k | k in items && k !in KeysOf(us) ensures WriteAll(items, t, us)[k] == items[k] {
      WriteAllFrame(items, t, us, k);
    }
    forall i | 0 <= i < |us| ensures WriteAll(items, t, us)[us[i].key] == NewItem(t, us[i]).value {
      WriteAllWrites(items, t, us, i);
    }
  }

  /**
   * TransactWriteItems: either every action applies or none does. A request
   * naming another table is rejected with ResourceNotFoundException, a
   * malformed one with ValidationException; otherwise every condition and
   * every operand is checked against the table as it stands, and any
   * failure cancels the whole transaction with one reason per action.
   */
  function Apply(t: Table, input: TransactWriteItemsInput): (r: (Table, Outcome))
    ensures r.0.name == t.name
    ensures !r.1.Committed? ==> r.0 == t
    ensures r.1.Committed? <==> Admissible(t, input.items)
    ensures r.1.Canceled? ==>
      |r.1.reasons| == |input.items| && exists i | 0 <= i < |input.items| :: r.1.reasons[i] != NoFailure
  {
    var us := input.items;
    if !TablesExist(t, us) then (t, Rejected("ResourceNotFoundException"))
    else if !WellFormedRequest(us) then (t, Rejected("ValidationException"))
    else
      var rs := Reasons(t, us);
      if !AllGo(rs) then
        (t, Canceled(rs))
      else
        assert forall i | 0 <= i < |us| :: rs[i] == Reason(t, us[i]);
        (Table(t.name, WriteAll(t.items, t, us)), Committed)
  }

  /** When a transaction commits: every table exists, the request is well
      formed, every condition held and every operand evaluated beforehand. */
  predicate Admissible(t: Table, us: seq<Update>) {
    && TablesExist(t, us) && WellFormedRequest(us)
    && (forall i | 0 <= i < |us| :: Holds(us[i].cond, Stored(t, us[i].key)))
    && (forall i | 0 <= i < |us| :: AllOperandsEvaluate(Stored(t, us[i].key), us[i].sets))
  }

  /** A committed transaction stores each action's new item at its key and
      leaves every other item alone. */
  lemma ApplyCommittedEffect(t: Table, input: TransactWriteItemsInput)
    requires Apply(t, input).1.Committed?
    ensures Apply(t, input).0.items.Keys == t.items.Keys + KeysOf(input.items)
    ensures forall k | k in t.items && k !in KeysOf(input.items) :: Apply(t, input).0.items[k] == t.items[k]
    ensures forall i | 0 <= i < |input.items| ::
      ValidSets(input.items[i].sets) && Apply(t, input).0.items[input.items[i].key] == NewItem(t, input.items[i]).value
  {
    WriteAllEffect(t.items, t, input.items);
  }

  lemma ApplyPairFacts(t: Table, u0: Update, u1: Update)
    requires Apply(t, TransactWriteItemsInput([u0, u1])).1.Committed?
    ensures ValidSets(u0.sets) && ValidSets(u1.sets)
    ensures NewItem(t, u0).Some? && NewItem(t, u1).Some?
    ensures u0.key != u1.key
    ensures Apply(t, TransactWriteItemsInput([u0, u1])).0.items.Keys == t.items.Keys + {u0.key, u1.key}
    ensures Apply(t, TransactWriteItemsInput([u0, u1])).0.items[u0.key] == NewItem(t, u0).value
    ensures Apply(t, TransactWriteItemsInput([u0, u1])).0.items[u1.key] == NewItem(t, u1).value
    ensures forall k | k in t.items && k != u0.key && k != u1.key ::
      Apply(t, TransactWriteItemsInput([u0, u1])).0.items[k] == t.items[k]
  {
    var us := [u0, u1];
    ApplyCommittedEffect(t, TransactWriteItemsInput(us));
    assert us[0] == u0 && us[1] == u1;
    assert Admissible(t, us);
    assert KeysOf(us) == {u0.key, u1.key};
  }

  /** A committed two-action transaction writes exactly its two new items. */
  lemma ApplyPairCommitted(t: Table, u0: Update, u1: Update)
    requires Apply(t, TransactWriteItemsInput([u0, u1])).1.Committed?
    ensures ValidSets(u0.sets) && ValidSets(u1.sets)
    ensures NewItem(t, u0).Some? && NewItem(t, u1).Some?
    ensures Apply(t, TransactWriteItemsInput([u0, u1])).0 ==
      Table(t.name, t.items[u0.key := NewItem(t, u0).value][u1.key := NewItem(t, u1).value])
  {
    ApplyPairFacts(t, u0, u1);
    var res := Apply(t, TransactWriteItemsInput([u0, u1])).0;
    TwoUpdates(t.items, res.items, u0.key, u1.key, NewItem(t, u0).value, NewItem(t, u1).value);
  }

  /** A map that agrees with `m` off two keys and holds `v0`, `v1` at them is `m` with those two updates. */
  lemma TwoUpdates(m: map<Key, Item>, r: map<Key, Item>, k0: Key, k1: Key, v0: Item, v1: Item)
    requires k0 != k1
    requires r.Keys == m.Keys + {k0, k1}
    requires k0 in r && r[k0] == v0 && k1 in r && r[k1] == v1
    requires forall k | k in m && k != k0 && k != k1 :: r[k] == m[k]
    ensures r == m[k0 := v0][k1 := v1]
  {
    var e := m[k0 := v0][k1 := v1];
    assert r.Keys == e.Keys;
    forall k | k in r ensures r[k] == e[k] {
    }
  }

  /** A transaction keeps every item carrying its own key attributes. */
  lemma ApplyPreservesWellFormed(t: Table, input: TransactWriteItemsInput)
    requires WellFormed(t)
    ensures WellFormed(Apply(t, input).0)
  {
    var r := Apply(t, input);
    if r.1.Committed? {
      ApplyCommittedEffect(t, input);
      var us := input.items;
      forall k | k in r.0.items ensures HasKeyAttrs(r.0.items[k], k) {
        if k in KeysOf(us) {
          var i :| 0 <= i < |us| && us[i].key == k;
        }
      }
    }
  }

  // ---------------------------------------------------------------------
  // Query by full primary key

  /** A Query whose key condition is `pkAttr = pkValue And skAttr = skValue`. */
  datatype QueryInput = QueryInput(table: string, pkAttr: string, pkValue: Value, skAttr: string, skValue: Value)

  function Query(t: Table, q: QueryInput): (r: Result<seq<Item>, string>)
    ensures r.Failure? <==>
      q.table != t.name || q.pkAttr != PartitionKeyAttr || q.skAttr != SortKeyAttr || !q.pkValue.S? || !q.skValue.S?
    ensures r.Success? ==> |r.value| <= 1
    ensures r.Success? ==> var k := Key(q.pkValue.s, q.skValue.s);
      (r.value != [] <==> k in t.items) && (r.value != [] ==> r.value[0] == t.items[k])
  {
    if q.table != t.name then Failure("ResourceNotFoundException")
    else if q.pkAttr != PartitionKeyAttr || q.skAttr != SortKeyAttr || !q.pkValue.S? || !q.skValue.S? then
      Failure("ValidationException")
    else
      var k := Key(q.pkValue.s, q.skValue.s);
      Success(if k in t.items then [t.items[k]] else [])
  }
  /** Read-after-write: once a transaction commits, a key query fails exactly
      as it did before; on an action's key it returns that action's new item,
      and on any other key it returns what it returned before. */
  lemma QueryAfterCommit(t: Table, input: TransactWriteItemsInput, q: QueryInput)
    requires Apply(t, input).1.Committed?
    ensures Query(Apply(t, input).0, q).Failure? ==> Query(Apply(t, input).0, q) == Query(t, q)
    ensures Query(t, q).Failure? <==> Query(Apply(t, input).0, q).Failure?
    ensures Query(t, q).Success? && Key(q.pkValue.s, q.skValue.s) !in KeysOf(input.items) ==>
      Query(Apply(t, input).0, q) == Query(t, q)
    ensures forall i | 0 <= i < |input.items| ::
      ValidSets(input.items[i].sets) && NewItem(t, input.items[i]).Some? &&
      (Query(t, q).Success? && input.items[i].key == Key(q.pkValue.s, q.skValue.s) ==>
        Query(Apply(t, input).0, q) == Success([NewItem(t, input.items[i]).value]))
  {
    ApplyCommittedEffect(t, input);
  }

}
