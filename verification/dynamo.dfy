/** The storage this service runs on: one table from (PK, SK) to rows of named attributes.

    Assumptions about DynamoDB: reads are strongly consistent; an unlimited query returns
    every matching row; one conditional write or one `TransactWrite` is a single atomic step;
    a failed condition is reported for the first failing item; and a request whose expression
    is not well formed, names a key twice, or has more than 100 items is refused unchanged.
    Any call may also fail outright with no effect, unless the client is `healthy`. */
module Dynamo {
  import opened Basics

  /** `SS` is a string-set literal as a request sends it; `StringSet` is a set as stored. */
  datatype Attr =
    | S(s: string)
    | N(n: int)
    | Bool(b: bool)
    | L(elements: seq<string>)
    | SS(list: seq<string>)
    | StringSet(members: set<string>)

  type Item = map<string, Attr>

  datatype Key = Key(pk: string, sk: string)

  type Table = map<Key, Item>

  /** One clause `name = value` (or `name value` in ADD and DELETE) of an update expression;
      both sides are placeholders. */
  datatype Assignment = Assignment(name: string, value: string)

  datatype Comparison = Equal | AtMost

  datatype Condition =
    | NotExists
    | Exists
    | ExistsAnd(lhs: string, op: Comparison, rhs: string)

  datatype Update = Update(
    sets: seq<Assignment>,
    add: Option<Assignment>,
    delete: Option<Assignment>,
    names: map<string, string>,
    values: map<string, Attr>)

  datatype TransactItem =
    | Put(putKey: Key, item: Item, putIf: Condition)
    | Delete(deleteKey: Key)
    | Modify(modifyKey: Key, update: Update, modifyIf: Condition)

  datatype WriteResult = Written | ConditionFailed(index: nat) | Rejected | Fault

  const MAX_TRANSACT_ITEMS := 100

  function Row(t: Table, k: Key): Option<Item> {
    if k in t then Some(t[k]) else None
  }

  function StrAttr(item: Item, name: string): string {
    if name in item && item[name].S? then item[name].s else ""
  }

  /** An attribute that is left out when empty. */
  function IfPresent(attr: string, v: Option<string>): Item {
    if OrEmpty(v) == "" then map[] else map[attr := S(v.value)]
  }

  function BoolAttr(item: Item, name: string): bool {
    name in item && item[name] == Bool(true)
  }

  function ListAttr(item: Item, name: string): seq<string> {
    if name in item && item[name].L? then item[name].elements else []
  }

  // ---------- update expressions ----------

  function Listed(a: Option<Assignment>): seq<Assignment> {
    if a.Some? then [a.value] else []
  }

  function Clauses(u: Update): seq<Assignment> {
    u.sets + Listed(u.add) + Listed(u.delete)
  }

  function NamesOf(clauses: seq<Assignment>): set<string> {
    set a | a in clauses :: a.name
  }

  function ValuesOf(clauses: seq<Assignment>): set<string> {
    set a | a in clauses :: a.value
  }

  function ConditionNames(c: Condition): set<string> {
    if c.ExistsAnd? then {c.lhs} else {}
  }

  function ConditionValues(c: Condition): set<string> {
    if c.ExistsAnd? then {c.rhs} else {}
  }

  predicate Defined(a: Assignment, names: map<string, string>, values: map<string, Attr>) {
    a.name in names && a.value in values
  }

  predicate IsSetLiteral(v: Attr) {
    v.SS? && v.list != [] && |SetOf(v.list)| == |v.list|
  }

  /** DynamoDB accepts the expression: it has a clause, every placeholder used is defined, every
      one defined is used, no attribute is the target of two clauses, and ADD and DELETE carry proper
      string sets. */
  predicate WellFormed(u: Update, c: Condition) {
    && Clauses(u) != []
    && u.names.Keys == NamesOf(Clauses(u)) + ConditionNames(c)
    && u.values.Keys == ValuesOf(Clauses(u)) + ConditionValues(c)
    && (forall i | 0 <= i < |u.sets| :: Defined(u.sets[i], u.names, u.values))
    && (u.add.Some? ==> Defined(u.add.value, u.names, u.values)
                        && IsSetLiteral(u.values[u.add.value.value]))
    && (u.delete.Some? ==> Defined(u.delete.value, u.names, u.values)
                           && IsSetLiteral(u.values[u.delete.value.value]))
    && NoOverlap(Clauses(u), u.names)
  }

  predicate NoOverlap(clauses: seq<Assignment>, names: map<string, string>) {
    forall i, j | 0 <= i < j < |clauses| ::
      clauses[i].name in names && clauses[j].name in names ==>
        names[clauses[i].name] != names[clauses[j].name]
  }

  function ApplySets(
    item: Item, sets: seq<Assignment>, names: map<string, string>, values: map<string, Attr>): Item
    requires forall i | 0 <= i < |sets| :: Defined(sets[i], names, values)
  {
    if sets == [] then item
    else
      var last := sets[|sets| - 1];
      assert Defined(last, names, values);
      ApplySets(item, sets[..|sets| - 1], names, values)[names[last.name] := values[last.value]]
  }

  function Members(item: Item, attr: string): set<string> {
    if attr in item && item[attr].StringSet? then item[attr].members else {}
  }

  /** A string set that becomes empty is removed from the row. */
  function WithMembers(item: Item, attr: string, members: set<string>): Item {
    if members == {} then item - {attr} else item[attr := StringSet(members)]
  }

  function ApplyTo(u: Update, c: Condition, item: Item): Item
    requires WellFormed(u, c)
  {
    var updated := ApplySets(item, u.sets, u.names, u.values);
    var grown :=
      if u.add.None? then updated
      else
        var attr := u.names[u.add.value.name];
        WithMembers(updated, attr, Members(updated, attr) + SetOf(u.values[u.add.value.value].list));
    if u.delete.None? then grown
    else
      var attr := u.names[u.delete.value.name];
      WithMembers(grown, attr, Members(grown, attr) - SetOf(u.values[u.delete.value.value].list))
  }

  predicate Holds(c: Condition, row: Option<Item>, names: map<string, string>, values: map<string, Attr>) {
    match c
    case NotExists => row.None?
    case Exists => row.Some?
    case ExistsAnd(lhs, op, rhs) =>
      && row.Some? && lhs in names && rhs in values && names[lhs] in row.value
      && var stored, given := row.value[names[lhs]], values[rhs];
      && stored.N? && given.N?
      && (if op == Equal then stored.n == given.n else stored.n <= given.n)
  }

  // ---------- single writes and transactions ----------

  function UpdateItem(t: Table, k: Key, u: Update, c: Condition): (WriteResult, Table) {
    if !WellFormed(u, c) then (Rejected, t)
    else if !Holds(c, Row(t, k), u.names, u.values) then (ConditionFailed(0), t)
    else (Written, t[k := ApplyTo(u, c, if k in t then t[k] else map[])])
  }

  function PutItem(t: Table, k: Key, item: Item, c: Condition): (WriteResult, Table) {
    if Holds(c, Row(t, k), map[], map[]) then (Written, t[k := item]) else (ConditionFailed(0), t)
  }

  function KeyOf(op: TransactItem): Key {
    match op
    case Put(k, _, _) => k
    case Delete(k) => k
    case Modify(k, _, _) => k
  }

  predicate Accepts(op: TransactItem, t: Table) {
    match op
    case Put(k, _, c) => Holds(c, Row(t, k), map[], map[])
    case Delete(_) => true
    case Modify(k, u, c) => Holds(c, Row(t, k), u.names, u.values)
  }

  predicate Sendable(items: seq<TransactItem>) {
    && 1 <= |items| <= MAX_TRANSACT_ITEMS
    && (forall i, j | 0 <= i < j < |items| :: KeyOf(items[i]) != KeyOf(items[j]))
    && (forall op | op in items :: op.Modify? ==> WellFormed(op.update, op.modifyIf))
  }

  /** The row an accepted item leaves under its key. */
  function Outcome(op: TransactItem, t: Table): Option<Item>
    requires op.Modify? ==> WellFormed(op.update, op.modifyIf)
  {
    match op
    case Put(_, item, _) => Some(item)
    case Delete(_) => None
    case Modify(k, u, c) => Some(ApplyTo(u, c, if k in t then t[k] else map[]))
  }

  function Store(t: Table, k: Key, row: Option<Item>): Table {
    if row.Some? then t[k := row.value] else t - {k}
  }

  function ApplyAll(t: Table, items: seq<TransactItem>): Table
    requires forall op | op in items :: op.Modify? ==> WellFormed(op.update, op.modifyIf)
  {
    if items == [] then t
    else
      var last := items[|items| - 1];
      var before := ApplyAll(t, items[..|items| - 1]);
      Store(before, KeyOf(last), Outcome(last, before))
  }

  function FirstRefused(t: Table, items: seq<TransactItem>, from: nat): (i: nat)
    requires from <= |items|
    ensures from <= i <= |items|
    ensures forall j :: from <= j < i ==> Accepts(items[j], t)
    ensures i < |items| ==> !Accepts(items[i], t)
    decreases |items| - from
  {
    if from == |items| || !Accepts(items[from], t) then from else FirstRefused(t, items, from + 1)
  }

  function Transact(t: Table, items: seq<TransactItem>): (WriteResult, Table) {
    if !Sendable(items) then (Rejected, t)
    else
      var i := FirstRefused(t, items, 0);
      if i < |items| then (ConditionFailed(i), t) else (Written, ApplyAll(t, items))
  }

  ghost predicate Expressible(items: seq<TransactItem>) {
    forall op | op in items :: op.Modify? ==> WellFormed(op.update, op.modifyIf)
  }

  /** A transaction leaves alone every key it does not name, ... */
  lemma {:induction false} ApplyAllElsewhere(t: Table, items: seq<TransactItem>, k: Key)
    requires Expressible(items)
    requires forall op | op in items :: KeyOf(op) != k
    ensures Row(ApplyAll(t, items), k) == Row(t, k)
  {
    if items != [] {
      assert items[|items| - 1] in items;
      ApplyAllElsewhere(t, items[..|items| - 1], k);
    }
  }

  /** ... and acts on each key it names as if it were the only one. */
  lemma {:induction false} ApplyAllAt(t: Table, items: seq<TransactItem>, i: nat)
    requires Expressible(items) && i < |items|
    requires forall a, b | 0 <= a < b < |items| :: KeyOf(items[a]) != KeyOf(items[b])
    ensures Row(ApplyAll(t, items), KeyOf(items[i])) == Outcome(items[i], t)
  {
    hide WellFormed, ApplyTo, Holds;
    var n := |items| - 1;
    var front, last := items[..n], items[n];
    if i < n {
      ApplyAllAt(t, front, i);
      assert KeyOf(items[i]) != KeyOf(last);
    } else {
      ApplyAllElsewhere(t, front, KeyOf(last));
      assert Row(ApplyAll(t, front), KeyOf(last)) == Row(t, KeyOf(last));
    }
  }

  /** Tables are equal when they have the same row, or none, under every key. */
  lemma SameRows(a: Table, b: Table)
    requires forall k :: Row(a, k) == Row(b, k)
    ensures a == b
  {
    forall k ensures k in a <==> k in b {
      assert Row(a, k) == Row(b, k);
    }
    forall k | k in a ensures a[k] == b[k] {
      assert Row(a, k) == Row(b, k);
    }
  }

  /** A transaction of distinct deletes removes exactly the keys it names. */
  lemma TransactDeletes(t: Table, keys: seq<Key>)
    requires 1 <= |keys| <= MAX_TRANSACT_ITEMS && Distinct(keys)
    ensures Transact(t, Deletes(keys)) == (Written, t - SetOf(keys))
  {
    var items := Deletes(keys);
    assert Sendable(items);
    assert FirstRefused(t, items, 0) == |items|;
    var after := ApplyAll(t, items);
    forall k ensures Row(after, k) == Row(t - SetOf(keys), k) {
      if k in SetOf(keys) {
        var i :| 0 <= i < |keys| && keys[i] == k;
        ApplyAllAt(t, items, i);
      } else {
        ApplyAllElsewhere(t, items, k);
      }
    }
    SameRows(after, t - SetOf(keys));
  }

  function Deletes(keys: seq<Key>): seq<TransactItem> {
    seq(|keys|, i requires 0 <= i < |keys| => Delete(keys[i]))
  }

  // ---------- building SET expressions clause by clause ----------

  /** Each clause writes the value `patch` gives its attribute, and the attributes written,
      all different, are exactly those of `patch`. */
  ghost predicate Means(
    sets: seq<Assignment>, names: map<string, string>, values: map<string, Attr>, patch: Item)
  {
    if sets == [] then patch == map[]
    else
      var last := sets[|sets| - 1];
      && Defined(last, names, values)
      && var attr := names[last.name];
      && attr in patch && patch[attr] == values[last.value]
      && Means(sets[..|sets| - 1], names, values, patch - {attr})
  }

  /** The clauses and placeholder tables a repository method fills step by step. */
  datatype Expression = Expression(
    sets: seq<Assignment>, names: map<string, string>, values: map<string, Attr>)
  {
    /** Appends `name = value` and defines both placeholders. */
    function Set(name: string, attr: string, value: string, v: Attr): Expression {
      Expression(sets + [Assignment(name, value)], names[name := attr], values[value := v])
    }

    /** Appends a clause over placeholders that are defined already. */
    function SetHeld(name: string, value: string): Expression {
      this.(sets := sets + [Assignment(name, value)])
    }

    function ToUpdate(): Update {
      Update(sets, None, None, names, values)
    }
  }

  const NO_CLAUSES := Expression([], map[], map[])

  /** The expression built so far stands for overwriting exactly `patch`; `heldNames` and
      `heldValues` are defined already but reserved for the condition or a later clause. */
  ghost predicate Builds(e: Expression, patch: Item, heldNames: set<string>, heldValues: set<string>) {
    && e.names.Keys == NamesOf(e.sets) + heldNames
    && e.values.Keys == ValuesOf(e.sets) + heldValues
    && Means(e.sets, e.names, e.values, patch)
  }

  lemma PlaceholdersOfAppend(sets: seq<Assignment>, a: Assignment)
    ensures NamesOf(sets + [a]) == NamesOf(sets) + {a.name}
    ensures ValuesOf(sets + [a]) == ValuesOf(sets) + {a.value}
  {
  }

  /** Defining further placeholders does not change what existing clauses mean. */
  lemma {:induction false} MeansExtends(
    sets: seq<Assignment>, names: map<string, string>, values: map<string, Attr>, patch: Item,
    names': map<string, string>, values': map<string, Attr>)
    requires Means(sets, names, values, patch)
    requires forall n | n in names :: n in names' && names'[n] == names[n]
    requires forall v | v in values :: v in values' && values'[v] == values[v]
    ensures Means(sets, names', values', patch)
  {
    if sets != [] {
      var last := sets[|sets| - 1];
      MeansExtends(sets[..|sets| - 1], names, values, patch - {names[last.name]}, names', values');
    }
  }

  lemma MeansAppend(
    sets: seq<Assignment>, names: map<string, string>, values: map<string, Attr>, patch: Item, a: Assignment)
    requires Means(sets, names, values, patch) && Defined(a, names, values)
    requires names[a.name] !in patch
    ensures Means(sets + [a], names, values, patch + map[names[a.name] := values[a.value]])
  {
    var attr := names[a.name];
    assert (sets + [a])[..|sets|] == sets;
    assert (patch + map[attr := values[a.value]]) - {attr} == patch;
  }

  lemma BuildsClause(
    e: Expression, patch: Item, heldNames: set<string>, heldValues: set<string>,
    name: string, attr: string, value: string, v: Attr)
    requires Builds(e, patch, heldNames, heldValues)
    requires name !in e.names && value !in e.values && attr !in patch
    ensures Builds(e.Set(name, attr, value, v), patch + map[attr := v], heldNames, heldValues)
  {
    var a, e' := Assignment(name, value), e.Set(name, attr, value, v);
    PlaceholdersOfAppend(e.sets, a);
    assert e'.names.Keys == NamesOf(e'.sets) + heldNames;
    assert e'.values.Keys == ValuesOf(e'.sets) + heldValues;
    assert Means(e'.sets, e'.names, e'.values, patch + map[attr := v]) by {
      MeansExtends(e.sets, e.names, e.values, patch, e'.names, e'.values);
      MeansAppend(e.sets, e'.names, e'.values, patch, a);
    }
  }

  /** The clause that uses a name and a value defined beforehand. */
  lemma BuildsHeldClause(
    e: Expression, patch: Item, heldNames: set<string>, heldValues: set<string>, name: string, value: string)
    requires Builds(e, patch, heldNames, heldValues)
    requires name in heldNames && e.names[name] !in patch
    requires value in heldValues
    ensures Builds(e.SetHeld(name, value), patch + map[e.names[name] := e.values[value]], heldNames, heldValues)
  {
    PlaceholdersOfAppend(e.sets, Assignment(name, value));
    MeansAppend(e.sets, e.names, e.values, patch, Assignment(name, value));
  }

  lemma {:induction false} MeansWellFormed(
    sets: seq<Assignment>, names: map<string, string>, values: map<string, Attr>, patch: Item)
    requires Means(sets, names, values, patch)
    ensures forall i | 0 <= i < |sets| :: Defined(sets[i], names, values) && names[sets[i].name] in patch
    ensures NoOverlap(sets, names)
    ensures forall item :: ApplySets(item, sets, names, values) == item + patch
  {
    if sets != [] {
      var n := |sets| - 1;
      var front, attr := sets[..n], names[sets[n].name];
      MeansWellFormed(front, names, values, patch - {attr});
      assert forall i | 0 <= i < n :: front[i] == sets[i];
      forall item ensures ApplySets(item, sets, names, values) == item + patch {
        assert ApplySets(item, front, names, values) == item + (patch - {attr});
      }
    }
  }

  /** A finished expression is accepted by DynamoDB and overwrites exactly `patch`. */
  lemma BuiltUpdateMeansPatch(
    e: Expression, c: Condition, patch: Item, heldNames: set<string>, heldValues: set<string>)
    requires Builds(e, patch, heldNames, heldValues) && patch != map[]
    requires heldNames <= NamesOf(e.sets) + ConditionNames(c) && ConditionNames(c) <= e.names.Keys
    requires heldValues <= ValuesOf(e.sets) + ConditionValues(c) && ConditionValues(c) <= e.values.Keys
    ensures WellFormed(e.ToUpdate(), c)
    ensures forall item :: ApplyTo(e.ToUpdate(), c, item) == item + patch
  {
    assert Clauses(e.ToUpdate()) == e.sets;
    MeansWellFormed(e.sets, e.names, e.values, patch);
  }

  /** A fixed expression of two clauses. */
  lemma TwoClausesMean(
    name1: string, attr1: string, value1: string, v1: Attr, name2: string, attr2: string, value2: string, v2: Attr,
    c: Condition)
    requires name1 != name2 && attr1 != attr2 && value1 != value2 && !c.ExistsAnd?
    ensures var u := NO_CLAUSES.Set(name1, attr1, value1, v1).Set(name2, attr2, value2, v2).ToUpdate();
      WellFormed(u, c) && forall row :: ApplyTo(u, c, row) == row + map[attr1 := v1, attr2 := v2]
  {
    hide Builds, Means, NamesOf, ValuesOf, ApplyTo, WellFormed;
    var e := NO_CLAUSES.Set(name1, attr1, value1, v1);
    var e2 := e.Set(name2, attr2, value2, v2);
    NothingBuilt(NO_CLAUSES);
    assert NO_CLAUSES.names.Keys == {} && NO_CLAUSES.values.Keys == {};
    BuildsClause(NO_CLAUSES, map[], {}, {}, name1, attr1, value1, v1);
    BuildsClause(e, map[] + map[attr1 := v1], {}, {}, name2, attr2, value2, v2);
    assert map[] + map[attr1 := v1] + map[attr2 := v2] == map[attr1 := v1, attr2 := v2];
    BuiltUpdateMeansPatch(e2, c, map[attr1 := v1, attr2 := v2], {}, {});
  }

  /** An optional field of a request: the two placeholders and the attribute it is sent to. */
  datatype Column = Column(name: string, attr: string, value: string)

  ghost predicate DistinctColumns(cols: seq<Column>) {
    forall i, j | 0 <= i < j < |cols| ::
      cols[i].name != cols[j].name && cols[i].attr != cols[j].attr && cols[i].value != cols[j].value
  }

  function AddColumn(e: Expression, col: Column, v: Option<Attr>): Expression {
    if v.Some? then e.Set(col.name, col.attr, col.value, v.value) else e
  }

  function ExpressionOf(base: Expression, cols: seq<Column>, vals: seq<Option<Attr>>): Expression
    requires |cols| == |vals|
  {
    if cols == [] then base
    else
      var n := |cols| - 1;
      AddColumn(ExpressionOf(base, cols[..n], vals[..n]), cols[n], vals[n])
  }

  lemma ExpressionStep(base: Expression, cols: seq<Column>, vals: seq<Option<Attr>>, i: nat)
    requires i < |cols| == |vals|
    ensures ExpressionOf(base, cols[..i + 1], vals[..i + 1])
         == AddColumn(ExpressionOf(base, cols[..i], vals[..i]), cols[i], vals[i])
  {
    assert cols[..i + 1][..i] == cols[..i] && vals[..i + 1][..i] == vals[..i];
  }

  /** Exactly the supplied fields, under their attribute names. */
  function PatchOf(cols: seq<Column>, vals: seq<Option<Attr>>): Item
    requires |cols| == |vals|
  {
    if cols == [] then map[]
    else
      var n := |cols| - 1;
      AddAttr(PatchOf(cols[..n], vals[..n]), cols[n].attr, vals[n])
  }

  function AttrsOf(cols: seq<Column>): set<string> {
    set c | c in cols :: c.attr
  }

  lemma {:induction false} PatchOfKeys(cols: seq<Column>, vals: seq<Option<Attr>>)
    requires |cols| == |vals|
    ensures PatchOf(cols, vals).Keys <= AttrsOf(cols)
  {
    if cols != [] {
      var n := |cols| - 1;
      PatchOfKeys(cols[..n], vals[..n]);
      forall k | k in PatchOf(cols, vals) ensures k in AttrsOf(cols) {
        if k in AttrsOf(cols[..n]) {
          var c :| c in cols[..n] && c.attr == k;
          assert c in cols;
        } else {
          assert cols[n] in cols;
        }
      }
    }
  }

  lemma FreshColumn(cols: seq<Column>, n: nat, vals: seq<Option<Attr>>)
    requires n < |cols| && |vals| == n && DistinctColumns(cols)
    ensures cols[n].attr !in PatchOf(cols[..n], vals)
  {
    PatchOfKeys(cols[..n], vals);
    assert forall c | c in cols[..n] :: c.attr != cols[n].attr;
  }

  /** A patch holds an attribute exactly when its field is supplied, with the supplied value. */
  lemma {:induction false} PatchOfAt(cols: seq<Column>, vals: seq<Option<Attr>>, i: nat)
    requires |cols| == |vals| && DistinctColumns(cols) && i < |cols|
    ensures Attribute(PatchOf(cols, vals), cols[i].attr) == vals[i]
  {
    var n := |cols| - 1;
    FreshColumn(cols, n, vals[..n]);
    if i < n {
      PatchOfAt(cols[..n], vals[..n], i);
      assert cols[i].attr != cols[n].attr;
    }
  }

  /** The attributes whose fields are supplied. */
  function Supplied(cols: seq<Column>, vals: seq<Option<Attr>>): set<string>
    requires |cols| == |vals|
  {
    set i | 0 <= i < |cols| && vals[i].Some? :: cols[i].attr
  }

  lemma {:induction false} PatchOfHolds(cols: seq<Column>, vals: seq<Option<Attr>>)
    requires |cols| == |vals|
    ensures PatchOf(cols, vals).Keys == Supplied(cols, vals)
  {
    if cols != [] {
      var n := |cols| - 1;
      PatchOfHolds(cols[..n], vals[..n]);
      SuppliedStep(cols, vals);
    }
  }

  lemma SuppliedStep(cols: seq<Column>, vals: seq<Option<Attr>>)
    requires |cols| == |vals| && cols != []
    ensures var n := |cols| - 1;
      Supplied(cols, vals) == Supplied(cols[..n], vals[..n]) + if vals[n].Some? then {cols[n].attr} else {}
  {
  }

  function Attribute(item: Item, attr: string): Option<Attr> {
    if attr in item then Some(item[attr]) else None
  }

  lemma SameAttributes(a: Item, b: Item)
    requires forall attr :: Attribute(a, attr) == Attribute(b, attr)
    ensures a == b
  {
    forall attr ensures attr in a <==> attr in b {
      assert Attribute(a, attr) == Attribute(b, attr);
    }
    forall attr | attr in a ensures a[attr] == b[attr] {
      assert Attribute(a, attr) == Attribute(b, attr);
    }
  }

  /** What a text, a flag or a list overwrites if it is supplied, and leaves alone if not. */
  function TextOr(v: Option<string>, before: Option<Attr>): Option<Attr> {
    if v.Some? then Some(S(v.value)) else before
  }

  function FlagOr(v: Option<bool>, before: Option<Attr>): Option<Attr> {
    if v.Some? then Some(Bool(v.value)) else before
  }

  function ListOr(v: Option<seq<string>>, before: Option<Attr>): Option<Attr> {
    if v.Some? then Some(L(v.value)) else before
  }

  function TextIfAny(v: Option<string>): Option<Attr> {
    if v.Some? && v.value != "" then Some(S(v.value)) else None
  }

  lemma IfPresentHas(attr: string, v: Option<string>)
    ensures Attribute(IfPresent(attr, v), attr) == TextIfAny(v)
    ensures forall other | other != attr :: Attribute(IfPresent(attr, v), other) == None
  {
  }

  /** A row overwritten by a patch, attribute by attribute. */
  lemma OverwrittenAt(row: Item, cols: seq<Column>, vals: seq<Option<Attr>>)
    requires |cols| == |vals| && DistinctColumns(cols)
    ensures forall i | 0 <= i < |cols| ::
              Attribute(row + PatchOf(cols, vals), cols[i].attr) == Later(Attribute(row, cols[i].attr), vals[i])
    ensures forall attr | attr !in AttrsOf(cols) ::
              Attribute(row + PatchOf(cols, vals), attr) == Attribute(row, attr)
  {
    PatchOfKeys(cols, vals);
    forall i | 0 <= i < |cols|
      ensures Attribute(row + PatchOf(cols, vals), cols[i].attr) == Later(Attribute(row, cols[i].attr), vals[i])
    {
      PatchOfAt(cols, vals, i);
      hide PatchOf, DistinctColumns;
    }
    hide PatchOf, DistinctColumns;
  }

  function DefinedAs(names: map<string, string>, name: string): Option<string> {
    if name in names then Some(names[name]) else None
  }

  function Later<T>(first: Option<T>, second: Option<T>): Option<T> {
    if second.Some? then second else first
  }

  /** Two partial updates in a row are one update by the right-biased merge of the requests. */
  lemma {:induction false} PatchesMerge(
    cols: seq<Column>, a: seq<Option<Attr>>, b: seq<Option<Attr>>, merged: seq<Option<Attr>>)
    requires |cols| == |a| == |b| == |merged| && DistinctColumns(cols)
    requires forall i | 0 <= i < |cols| :: merged[i] == Later(a[i], b[i])
    ensures PatchOf(cols, a) + PatchOf(cols, b) == PatchOf(cols, merged)
  {
    if cols != [] {
      var n := |cols| - 1;
      PatchesMerge(cols[..n], a[..n], b[..n], merged[..n]);
      FreshColumn(cols, n, b[..n]);
      assert merged[n] == Later(a[n], b[n]);
      BuiltByLast(NO_CLAUSES, cols, a);
      BuiltByLast(NO_CLAUSES, cols, b);
      BuiltByLast(NO_CLAUSES, cols, merged);
      hide PatchOf, ExpressionOf, AddColumn, DistinctColumns;
      AttrsMerge(PatchOf(cols[..n], a[..n]), PatchOf(cols[..n], b[..n]), cols[n].attr, a[n], b[n]);
    }
  }

  lemma AttrsMerge(p: Item, q: Item, attr: string, a: Option<Attr>, b: Option<Attr>)
    requires attr !in q
    ensures AddAttr(p, attr, a) + AddAttr(q, attr, b) == AddAttr(p + q, attr, Later(a, b))
  {
  }

  function ColumnNames(cols: seq<Column>): set<string> {
    set c | c in cols :: c.name
  }

  function ColumnValues(cols: seq<Column>): set<string> {
    set c | c in cols :: c.value
  }

  lemma {:induction false} ExpressionPlaceholders(base: Expression, cols: seq<Column>, vals: seq<Option<Attr>>)
    requires |cols| == |vals|
    ensures ExpressionOf(base, cols, vals).names.Keys <= base.names.Keys + ColumnNames(cols)
    ensures ExpressionOf(base, cols, vals).values.Keys <= base.values.Keys + ColumnValues(cols)
  {
    if cols != [] {
      var n := |cols| - 1;
      ExpressionPlaceholders(base, cols[..n], vals[..n]);
      assert forall c | c in cols[..n] :: c in cols;
      assert cols[n] in cols;
    }
  }

  lemma FreshPlaceholders(base: Expression, cols: seq<Column>, n: nat, vals: seq<Option<Attr>>)
    requires n < |cols| && |vals| == n && DistinctColumns(cols)
    requires cols[n].name !in base.names && cols[n].value !in base.values
    ensures var e := ExpressionOf(base, cols[..n], vals); cols[n].name !in e.names && cols[n].value !in e.values
  {
    ExpressionPlaceholders(base, cols[..n], vals);
    assert forall c | c in cols[..n] :: c.name != cols[n].name && c.value != cols[n].value;
  }

  /** The clauses built field by field stand for the patch made of the supplied fields. */
  lemma {:induction false} ColumnsBuild(base: Expression, cols: seq<Column>, vals: seq<Option<Attr>>)
    requires |cols| == |vals| && DistinctColumns(cols) && base.sets == []
    requires forall c | c in cols :: c.name !in base.names && c.value !in base.values
    ensures Builds(ExpressionOf(base, cols, vals), PatchOf(cols, vals), base.names.Keys, base.values.Keys)
  {
    if cols != [] {
      var n := |cols| - 1;
      var e, patch := ExpressionOf(base, cols[..n], vals[..n]), PatchOf(cols[..n], vals[..n]);
      assert Builds(e, patch, base.names.Keys, base.values.Keys) by {
        ColumnsBuild(base, cols[..n], vals[..n]);
      }
      assert cols[n] in cols;
      FreshColumn(cols, n, vals[..n]);
      FreshPlaceholders(base, cols, n, vals[..n]);
      BuiltByLast(base, cols, vals);
      hide *;
      ColumnBuilds(e, patch, base.names.Keys, base.values.Keys, cols[n], vals[n]);
    } else {
      assert PatchOf(cols, vals) == map[];
      NothingBuilt(base);
    }
  }

  lemma NothingBuilt(base: Expression)
    requires base.sets == []
    ensures Builds(base, map[], base.names.Keys, base.values.Keys)
  {
  }

  /** The last field is added to what the fields before it have built. */
  lemma BuiltByLast(base: Expression, cols: seq<Column>, vals: seq<Option<Attr>>)
    requires |cols| == |vals| && cols != []
    ensures var n := |cols| - 1;
      && ExpressionOf(base, cols, vals) == AddColumn(ExpressionOf(base, cols[..n], vals[..n]), cols[n], vals[n])
      && PatchOf(cols, vals) == AddAttr(PatchOf(cols[..n], vals[..n]), cols[n].attr, vals[n])
  {
  }

  function AddAttr(patch: Item, attr: string, v: Option<Attr>): Item {
    if v.Some? then patch + map[attr := v.value] else patch
  }

  lemma ColumnBuilds(
    e: Expression, patch: Item, heldNames: set<string>, heldValues: set<string>, col: Column, v: Option<Attr>)
    requires Builds(e, patch, heldNames, heldValues)
    requires col.name !in e.names && col.value !in e.values && col.attr !in patch
    ensures Builds(AddColumn(e, col, v), AddAttr(patch, col.attr, v), heldNames, heldValues)
  {
    if v.Some? {
      BuildsClause(e, patch, heldNames, heldValues, col.name, col.attr, col.value, v.value);
    }
  }

  /** A supplied field's placeholders stand for its attribute and its value. */
  lemma {:induction false} ColumnDefined(base: Expression, cols: seq<Column>, vals: seq<Option<Attr>>, i: nat)
    requires |cols| == |vals| && DistinctColumns(cols) && i < |cols| && vals[i].Some?
    ensures var e := ExpressionOf(base, cols, vals);
      && cols[i].name in e.names && e.names[cols[i].name] == cols[i].attr
      && cols[i].value in e.values && e.values[cols[i].value] == vals[i].value
  {
    var n := |cols| - 1;
    if i < n {
      ColumnDefined(base, cols[..n], vals[..n], i);
      assert cols[i].name != cols[n].name && cols[i].value != cols[n].value;
    }
  }

  /** Placeholders defined beforehand keep their definitions. */
  lemma {:induction false} ColumnsKeep(base: Expression, cols: seq<Column>, vals: seq<Option<Attr>>)
    requires |cols| == |vals|
    requires forall c | c in cols :: c.name !in base.names && c.value !in base.values
    ensures Keeps(base, ExpressionOf(base, cols, vals))
  {
    if cols != [] {
      var n := |cols| - 1;
      ColumnsKeep(base, cols[..n], vals[..n]);
      assert cols[n] in cols;
    }
  }

  ghost predicate Keeps(base: Expression, e: Expression) {
    && (forall k | k in base.names :: k in e.names && e.names[k] == base.names[k])
    && (forall k | k in base.values :: k in e.values && e.values[k] == base.values[k])
  }

  function Str(v: Option<string>): Option<Attr> {
    if v.Some? then Some(S(v.value)) else None
  }

  // ---------- the client ----------

  /** A row as a query returns it: its attributes with its key attributes. */
  function Returned(k: Key, item: Item): Item {
    item["PK" := S(k.pk)]["SK" := S(k.sk)]
  }

  /** The key attributes say which row it was and the others are those stored. */
  lemma ReturnedShowsRow(k: Key, item: Item, attr: string)
    requires attr != "PK" && attr != "SK"
    ensures Attribute(Returned(k, item), "PK") == Some(S(k.pk))
    ensures Attribute(Returned(k, item), "SK") == Some(S(k.sk))
    ensures Attribute(Returned(k, item), attr) == Attribute(item, attr)
    ensures StrAttr(Returned(k, item), attr) == StrAttr(item, attr)
  {
  }

  ghost predicate Matches(k: Key, pk: string, prefix: string) {
    k.pk == pk && prefix <= k.sk
  }

  /** `keys` lists each row of the partition under the prefix once, in any order. */
  ghost predicate Enumerates(keys: seq<Key>, t: Table, pk: string, prefix: string) {
    && Distinct(keys)
    && (forall k :: k in keys <==> k in t && Matches(k, pk, prefix))
  }

  /** The email index: rows carrying the two index attributes. */
  function Indexed(t: Table, gsi1pk: string, gsi1sk: string): set<Key> {
    set k | k in t && "GSI1PK" in t[k] && t[k]["GSI1PK"] == S(gsi1pk)
                   && "GSI1SK" in t[k] && t[k]["GSI1SK"] == S(gsi1sk)
  }

  function ReturnedAll(t: Table, keys: seq<Key>): (items: seq<Item>)
    requires forall k | k in keys :: k in t
    ensures |items| == |keys|
    ensures forall i | 0 <= i < |keys| :: items[i] == Returned(keys[i], t[keys[i]])
  {
    seq(|keys|, i requires 0 <= i < |keys| => Returned(keys[i], t[keys[i]]))
  }

  lemma ReturnedAllStep(t: Table, keys: seq<Key>)
    requires keys != [] && forall k | k in keys :: k in t
    ensures var n := |keys| - 1;
      && ReturnedAll(t, keys)[..n] == ReturnedAll(t, keys[..n])
      && ReturnedAll(t, keys)[n] == Returned(keys[n], t[keys[n]])
  {
  }

  class Client {
    var table: Table
    var healthy: bool
    ghost var journal: seq<seq<TransactItem>>

    constructor ()
      ensures table == map[] && healthy && journal == []
    {
      table := map[];
      healthy := true;
      journal := [];
    }

    method TransactWrite(items: seq<TransactItem>) returns (r: WriteResult)
      modifies this`table, this`journal
      ensures journal == old(journal) + [items]
      ensures healthy ==> !r.Fault?
      ensures r.Fault? ==> table == old(table)
      ensures !r.Fault? ==> (r, table) == Transact(old(table), items)
    {
      journal := journal + [items];
      var up: bool := *;
      if !healthy && !up {
        return Fault;
      }
      var outcome := Transact(table, items);
      r, table := outcome.0, outcome.1;
    }

    method UpdateRow(k: Key, u: Update, c: Condition) returns (r: WriteResult)
      modifies this`table
      ensures healthy ==> !r.Fault?
      ensures r.Fault? ==> table == old(table)
      ensures !r.Fault? ==> (r, table) == UpdateItem(old(table), k, u, c)
    {
      var up: bool := *;
      if !healthy && !up {
        return Fault;
      }
      var outcome := UpdateItem(table, k, u, c);
      r, table := outcome.0, outcome.1;
    }

    method WriteRowIf(k: Key, item: Item, c: Condition) returns (r: WriteResult)
      modifies this`table
      ensures healthy ==> !r.Fault?
      ensures r.Fault? ==> table == old(table)
      ensures !r.Fault? ==> (r, table) == PutItem(old(table), k, item, c)
    {
      var up: bool := *;
      if !healthy && !up {
        return Fault;
      }
      var outcome := PutItem(table, k, item, c);
      r, table := outcome.0, outcome.1;
    }

    /** Unconditional write of a whole row. */
    method WriteRow(k: Key, item: Item) returns (ok: bool)
      modifies this`table
      ensures healthy ==> ok
      ensures table == if ok then old(table)[k := item] else old(table)
    {
      ok := *;
      ok := ok || healthy;
      if ok {
        table := table[k := item];
      }
    }

    method DeleteRow(k: Key) returns (ok: bool)
      modifies this`table
      ensures healthy ==> ok
      ensures table == if ok then old(table) - {k} else old(table)
    {
      ok := *;
      ok := ok || healthy;
      if ok {
        table := table - {k};
      }
    }

    method GetRow(k: Key) returns (ok: bool, row: Option<Item>)
      ensures healthy ==> ok
      ensures ok ==> row == Row(table, k)
    {
      ok := *;
      ok := ok || healthy;
      row := Row(table, k);
    }

    /** Reads the rows under `wanted`, in an arbitrary order. */
    method Collect(wanted: set<Key>) returns (items: seq<Item>, ghost keys: seq<Key>)
      requires wanted <= table.Keys
      ensures Distinct(keys) && forall k :: k in keys <==> k in wanted
      ensures items == ReturnedAll(table, keys)
    {
      items, keys := [], [];
      var todo := wanted;
      while todo != {}
        invariant todo <= wanted
        invariant forall k :: k in keys <==> k in wanted && k !in todo
        invariant Distinct(keys)
        invariant items == ReturnedAll(table, keys)
      {
        var k :| k in todo;
        items := items + [Returned(k, table[k])];
        keys := keys + [k];
        todo := todo - {k};
      }
    }

    /** Every row of a partition whose sort key starts with `prefix`, in an arbitrary order. */
    method Query(pk: string, prefix: string) returns (ok: bool, items: seq<Item>, ghost keys: seq<Key>)
      ensures healthy ==> ok
      ensures ok ==> Enumerates(keys, table, pk, prefix) && items == ReturnedAll(table, keys)
    {
      ok := *;
      ok := ok || healthy;
      items, keys := Collect(set k | k in table && k.pk == pk && prefix <= k.sk);
    }

    /** The last row, in byte order of sort keys, of a partition under `prefix`. */
    method QueryLast(pk: string, prefix: string) returns (ok: bool, item: Option<Item>, ghost hit: Key)
      ensures healthy ==> ok
      ensures ok && item.None? ==> forall k :: k in table ==> !Matches(k, pk, prefix)
      ensures ok && item.Some? ==>
                && hit in table && Matches(hit, pk, prefix) && item.value == Returned(hit, table[hit])
                && forall k :: k in table && Matches(k, pk, prefix) ==> !LexLess(hit.sk, k.sk)
    {
      hide LexLess, Returned;
      ok := *;
      ok := ok || healthy;
      var matching := set k | k in table && k.pk == pk && prefix <= k.sk;
      assert forall k :: k in matching <==> k in table && Matches(k, pk, prefix);
      var todo := matching;
      var last: Option<Key> := None;
      while todo != {}
        invariant todo <= matching
        invariant last.None? ==> todo == matching
        invariant last.Some? ==>
                    last.value in matching && forall k | k in matching && k !in todo :: !LexLess(last.value.sk, k.sk)
      {
        var k :| k in todo;
        LexIrreflexive(k.sk);
        if last.None? || LexLess(last.value.sk, k.sk) {
          forall other | other in matching && other !in todo ensures !LexLess(k.sk, other.sk) {
            if last.Some? && LexLess(k.sk, other.sk) {
              LexTransitive(last.value.sk, k.sk, other.sk);
            }
          }
          last := Some(k);
        }
        todo := todo - {k};
      }
      if last.Some? {
        hit := last.value;
        item := Some(Returned(last.value, table[last.value]));
      } else {
        hit := Key(pk, prefix);
        item := None;
      }
    }

    /** Every row whose email-index attributes are as given, in an arbitrary order. */
    method QueryIndex(gsi1pk: string, gsi1sk: string)
      returns (ok: bool, items: seq<Item>, ghost keys: seq<Key>)
      ensures healthy ==> ok
      ensures ok ==> Distinct(keys) && forall k :: k in keys <==> k in Indexed(table, gsi1pk, gsi1sk)
      ensures ok ==> items == ReturnedAll(table, keys)
    {
      ok := *;
      ok := ok || healthy;
      items, keys := Collect(Indexed(table, gsi1pk, gsi1sk));
    }

    /** The rows that exist among `keys`, in an arbitrary order. */
    method BatchGet(wanted: seq<Key>) returns (ok: bool, items: seq<Item>, ghost keys: seq<Key>)
      ensures healthy ==> ok
      ensures ok ==> Distinct(keys) && forall k :: k in keys <==> k in wanted && k in table
      ensures ok ==> items == ReturnedAll(table, keys)
    {
      ok := *;
      ok := ok || healthy;
      items, keys := Collect(set k | k in wanted && k in table);
    }
  }
}
