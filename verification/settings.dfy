/** The settings row and its version guard (internal/db/settings.go). */
module Settings {
  import opened Basics
  import opened Dynamo
  import opened Accounts

  datatype UpdateSettingsRequest = UpdateSettingsRequest(
    emailVerified: Option<bool>, emailVerifiedAt: Option<string>,
    phoneVerified: Option<bool>, phoneVerifiedAt: Option<string>,
    status: Option<string>, statusReason: Option<string>, statusChangedAt: Option<string>,
    tags: Option<seq<string>>, version: Option<int>)

  datatype AccountSettings = AccountSettings(
    emailVerified: Option<bool>, emailVerifiedAt: Option<string>,
    phoneVerified: Option<bool>, phoneVerifiedAt: Option<string>,
    status: string, statusReason: Option<string>, statusChangedAt: Option<string>,
    tags: Option<seq<string>>, version: int)

  // ---------- the row ----------

  predicate HasVersion(row: Item) {
    "version" in row && row["version"].N?
  }

  function VersionOf(row: Item): int {
    if HasVersion(row) then row["version"].n else 0
  }

  function TagsOf(row: Item): set<string> {
    Members(row, "tags")
  }

  // ---------- partial updates ----------

  const SETTINGS_COLUMNS: seq<Column> := [
    Column("#ev", "email_verified", ":ev"),
    Column("#evat", "email_verified_at", ":evat"),
    Column("#pv", "phone_verified", ":pv"),
    Column("#pvat", "phone_verified_at", ":pvat"),
    Column("#st", "status", ":st"),
    Column("#scat", "status_changed_at", ":scat"),
    Column("#sr", "status_reason", ":sr"),
    Column("#ua", "updated_at", ":ua")
  ]

  function BoolValue(v: Option<bool>): Option<Attr> {
    if v.Some? then Some(Bool(v.value)) else None
  }

  /** A supplied status also stamps its change time; a supplied change time, and supplied
      tags, are not used. */
  function SettingsValues(req: UpdateSettingsRequest, changedAt: string, updatedAt: string): (vals: seq<Option<Attr>>)
    ensures |vals| == |SETTINGS_COLUMNS|
  {
    [BoolValue(req.emailVerified), Str(req.emailVerifiedAt), BoolValue(req.phoneVerified),
     Str(req.phoneVerifiedAt), Str(req.status), if req.status.Some? then Some(S(changedAt)) else None,
     Str(req.statusReason), Some(S(updatedAt))]
  }

  function SettingsPatch(req: UpdateSettingsRequest, changedAt: string, updatedAt: string): Item {
    PatchOf(SETTINGS_COLUMNS, SettingsValues(req, changedAt, updatedAt))
  }

  lemma SettingsColumnsDistinct()
    ensures DistinctColumns(SETTINGS_COLUMNS)
  {
  }

  lemma SettingsPatchKeys(req: UpdateSettingsRequest, changedAt: string, updatedAt: string)
    ensures "version" !in SettingsPatch(req, changedAt, updatedAt)
    ensures "tags" !in SettingsPatch(req, changedAt, updatedAt)
  {
    PatchOfKeys(SETTINGS_COLUMNS, SettingsValues(req, changedAt, updatedAt));
  }

  /** The placeholders of the version guard, defined before any clause. */
  function Guarded(version: int): Expression {
    Expression([], map["#v" := "version"], map[":expected" := N(version), ":newV" := N(version + 1)])
  }

  const VERSION_UNCHANGED := ExistsAnd("#v", Equal, ":expected")

  function PartialExpression(req: UpdateSettingsRequest, version: int, changedAt: string, updatedAt: string)
    : Expression
  {
    ExpressionOf(Guarded(version), SETTINGS_COLUMNS, SettingsValues(req, changedAt, updatedAt)).SetHeld("#v", ":newV")
  }

  method BuildPartialUpdate(req: UpdateSettingsRequest, version: int, changedAt: string, updatedAt: string)
    returns (e: Expression)
    ensures e == PartialExpression(req, version, changedAt, updatedAt)
  {
    ghost var cols, vals := SETTINGS_COLUMNS, SettingsValues(req, changedAt, updatedAt);
    hide Guarded;
    e := BuildVerifiedClauses(req, Guarded(version), changedAt, updatedAt);
    e := BuildStatusClauses(req, e, Guarded(version), changedAt, updatedAt);
    assert cols[..8] == cols && vals[..8] == vals;
    e := e.SetHeld("#v", ":newV");
  }

  method BuildVerifiedClauses(
    req: UpdateSettingsRequest, base: Expression, ghost changedAt: string, ghost updatedAt: string)
    returns (e: Expression)
    ensures e == ExpressionOf(base, SETTINGS_COLUMNS[..4], SettingsValues(req, changedAt, updatedAt)[..4])
  {
    ghost var cols, vals := SETTINGS_COLUMNS, SettingsValues(req, changedAt, updatedAt);
    e := base;
    assert ExpressionOf(base, cols[..0], vals[..0]) == e;
    hide ExpressionOf;
    if req.emailVerified.Some? {
      e := e.Set("#ev", "email_verified", ":ev", Bool(req.emailVerified.value));
    }
    ExpressionStep(base, cols, vals, 0);
    if req.emailVerifiedAt.Some? {
      e := e.Set("#evat", "email_verified_at", ":evat", S(req.emailVerifiedAt.value));
    }
    ExpressionStep(base, cols, vals, 1);
    if req.phoneVerified.Some? {
      e := e.Set("#pv", "phone_verified", ":pv", Bool(req.phoneVerified.value));
    }
    ExpressionStep(base, cols, vals, 2);
    if req.phoneVerifiedAt.Some? {
      e := e.Set("#pvat", "phone_verified_at", ":pvat", S(req.phoneVerifiedAt.value));
    }
    ExpressionStep(base, cols, vals, 3);
  }

  method BuildStatusClauses(
    req: UpdateSettingsRequest, e0: Expression, ghost base: Expression, changedAt: string, updatedAt: string)
    returns (e: Expression)
    requires e0 == ExpressionOf(base, SETTINGS_COLUMNS[..4], SettingsValues(req, changedAt, updatedAt)[..4])
    ensures e == ExpressionOf(base, SETTINGS_COLUMNS[..8], SettingsValues(req, changedAt, updatedAt)[..8])
  {
    ghost var cols, vals := SETTINGS_COLUMNS, SettingsValues(req, changedAt, updatedAt);
    e := e0;
    hide ExpressionOf;
    if req.status.Some? {
      e := e.Set("#st", "status", ":st", S(req.status.value));
      e := e.Set("#scat", "status_changed_at", ":scat", S(changedAt));
    }
    ExpressionStep(base, cols, vals, 4);
    ExpressionStep(base, cols, vals, 5);
    if req.statusReason.Some? {
      e := e.Set("#sr", "status_reason", ":sr", S(req.statusReason.value));
    }
    ExpressionStep(base, cols, vals, 6);
    e := e.Set("#ua", "updated_at", ":ua", S(updatedAt));
    ExpressionStep(base, cols, vals, 7);
  }

  lemma GuardFresh(version: int)
    ensures forall c | c in SETTINGS_COLUMNS :: c.name !in Guarded(version).names && c.value !in Guarded(version).values
  {
  }

  lemma PartialBuilds(req: UpdateSettingsRequest, version: int, changedAt: string, updatedAt: string)
    ensures Builds(PartialExpression(req, version, changedAt, updatedAt),
                   SettingsPatch(req, changedAt, updatedAt) + map["version" := N(version + 1)],
                   Guarded(version).names.Keys, Guarded(version).values.Keys)
    ensures Keeps(Guarded(version), PartialExpression(req, version, changedAt, updatedAt))
    ensures var sets := PartialExpression(req, version, changedAt, updatedAt).sets;
      "#v" in NamesOf(sets) && ":newV" in ValuesOf(sets)
  {
    var base, vals := Guarded(version), SettingsValues(req, changedAt, updatedAt);
    SettingsColumnsDistinct();
    SettingsPatchKeys(req, changedAt, updatedAt);
    GuardFresh(version);
    hide SettingsValues, SETTINGS_COLUMNS;
    ColumnsBuild(base, SETTINGS_COLUMNS, vals);
    ColumnsKeep(base, SETTINGS_COLUMNS, vals);
    var e := ExpressionOf(base, SETTINGS_COLUMNS, vals);
    hide ExpressionOf, PatchOf, Means;
    assert "#v" in base.names && ":newV" in base.values;
    BuildsHeldClause(e, PatchOf(SETTINGS_COLUMNS, vals), base.names.Keys, base.values.Keys, "#v", ":newV");
    PlaceholdersOfAppend(e.sets, Assignment("#v", ":newV"));
  }

  /** The built expression is accepted, overwrites exactly the supplied fields and the stamps,
      and sets the next version. */
  lemma PartialUpdateMeansPatch(req: UpdateSettingsRequest, version: int, changedAt: string, updatedAt: string)
    ensures var u := PartialExpression(req, version, changedAt, updatedAt).ToUpdate();
      && WellFormed(u, VERSION_UNCHANGED)
      && DefinedAs(u.names, "#v") == Some("version") && Attribute(u.values, ":expected") == Some(N(version))
      && forall row :: ApplyTo(u, VERSION_UNCHANGED, row)
                    == row + (SettingsPatch(req, changedAt, updatedAt) + map["version" := N(version + 1)])
  {
    PartialBuilds(req, version, changedAt, updatedAt);
    var e := PartialExpression(req, version, changedAt, updatedAt);
    hide PartialExpression, SettingsPatch, Means, WellFormed, ApplyTo, NamesOf, ValuesOf;
    assert "#v" in Guarded(version).names && ":expected" in Guarded(version).values;
    assert "version" in SettingsPatch(req, changedAt, updatedAt) + map["version" := N(version + 1)];
    BuiltUpdateMeansPatch(e, VERSION_UNCHANGED,
                          SettingsPatch(req, changedAt, updatedAt) + map["version" := N(version + 1)],
                          Guarded(version).names.Keys, Guarded(version).values.Keys);
  }

  // ---------- tag mutations ----------

  predicate NoRepeats(tags: seq<string>) {
    |SetOf(tags)| == |tags|
  }

  function TagsUpdate(add: seq<string>, remove: seq<string>, version: int): Update {
    var values := map[":expected" := N(version), ":newV" := N(version + 1)];
    var withAdd := if add != [] then values[":addSet" := SS(add)] else values;
    Update(
      [Assignment("#v", ":newV")],
      if add != [] then Some(Assignment("#tags", ":addSet")) else None,
      if remove != [] then Some(Assignment("#tags", ":removeSet")) else None,
      map["#tags" := "tags", "#v" := "version"],
      if remove != [] then withAdd[":removeSet" := SS(remove)] else withAdd)
  }

  /** What DynamoDB accepts of a non-empty tag mutation: not both an ADD and a DELETE on the
      one attribute, and no tag listed twice. */
  predicate AcceptableTags(add: seq<string>, remove: seq<string>) {
    (add != [] || remove != []) && (add == [] || remove == []) && NoRepeats(add) && NoRepeats(remove)
  }

  /** The row with the given tags; an empty tag set is no attribute at all. */
  function Retagged(row: Item, tags: set<string>): Item {
    WithMembers(row, "tags", tags)
  }

  lemma TagsUpdateMeans(add: seq<string>, remove: seq<string>, version: int)
    requires add != [] || remove != []
    ensures WellFormed(TagsUpdate(add, remove, version), VERSION_UNCHANGED) <==> AcceptableTags(add, remove)
    ensures AcceptableTags(add, remove) ==>
              forall row :: ApplyTo(TagsUpdate(add, remove, version), VERSION_UNCHANGED, row)
                         == Retagged(row["version" := N(version + 1)], TagsOf(row) + SetOf(add) - SetOf(remove))
  {
    var u := TagsUpdate(add, remove, version);
    if add != [] && remove != [] {
      assert Clauses(u)[1] == Assignment("#tags", ":addSet") && Clauses(u)[2] == Assignment("#tags", ":removeSet");
      assert !NoOverlap(Clauses(u), u.names);
    } else if AcceptableTags(add, remove) {
      TagsWellFormed(add, remove, version);
      forall row ensures ApplyTo(u, VERSION_UNCHANGED, row)
                      == Retagged(row["version" := N(version + 1)], TagsOf(row) + SetOf(add) - SetOf(remove))
      {
        TagsApplied(row, add, remove, version);
      }
    }
  }

  lemma PairPlaceholders(a: Assignment, b: Assignment)
    ensures NamesOf([a, b]) == {a.name, b.name} && ValuesOf([a, b]) == {a.value, b.value}
  {
  }

  lemma TagsPlaceholders(add: seq<string>, remove: seq<string>, version: int)
    requires (add != []) != (remove != [])
    ensures var u := TagsUpdate(add, remove, version);
      && |Clauses(u)| == 2 && Clauses(u)[0].name == "#v" && Clauses(u)[1].name == "#tags"
      && u.names.Keys == NamesOf(Clauses(u)) + ConditionNames(VERSION_UNCHANGED)
      && u.values.Keys == ValuesOf(Clauses(u)) + ConditionValues(VERSION_UNCHANGED)
  {
    hide NamesOf, ValuesOf;
    var u := TagsUpdate(add, remove, version);
    var tag := if add != [] then ":addSet" else ":removeSet";
    var v, t := Assignment("#v", ":newV"), Assignment("#tags", tag);
    assert Clauses(u) == [v, t];
    PairPlaceholders(v, t);
    assert u.values.Keys == {":expected", ":newV", tag};
    assert ConditionValues(VERSION_UNCHANGED) == {":expected"};
    assert u.names.Keys == {"#v", "#tags"};
  }

  lemma TagsWellFormed(add: seq<string>, remove: seq<string>, version: int)
    requires AcceptableTags(add, remove)
    ensures WellFormed(TagsUpdate(add, remove, version), VERSION_UNCHANGED)
  {
    var u := TagsUpdate(add, remove, version);
    TagsPlaceholders(add, remove, version);
    TagsApart(add, remove, version);
    hide NamesOf, ValuesOf, Clauses, NoOverlap, SetOf, ConditionNames, ConditionValues;
  }

  lemma TagsApart(add: seq<string>, remove: seq<string>, version: int)
    requires (add != []) != (remove != [])
    ensures NoOverlap(Clauses(TagsUpdate(add, remove, version)), TagsUpdate(add, remove, version).names)
  {
    TagsPlaceholders(add, remove, version);
    hide NamesOf, ValuesOf, Clauses;
  }

  lemma OneSet(row: Item, u: Update)
    requires |u.sets| == 1 && Defined(u.sets[0], u.names, u.values)
    ensures ApplySets(row, u.sets, u.names, u.values)
         == row[u.names[u.sets[0].name] := u.values[u.sets[0].value]]
  {
  }

  /** One SET and one ADD, or one SET and one DELETE. */
  lemma SetAndTagClause(u: Update, c: Condition, row: Item, attr: string, v: Attr, tags: string, list: seq<string>)
    requires WellFormed(u, c) && |u.sets| == 1 && (u.add.Some? != u.delete.Some?)
    requires u.names[u.sets[0].name] == attr && u.values[u.sets[0].value] == v
    requires u.add.Some? ==> u.names[u.add.value.name] == tags && u.values[u.add.value.value] == SS(list)
    requires u.delete.Some? ==> u.names[u.delete.value.name] == tags && u.values[u.delete.value.value] == SS(list)
    ensures var row' := row[attr := v];
      ApplyTo(u, c, row) == WithMembers(row', tags,
        if u.add.Some? then Members(row', tags) + SetOf(list) else Members(row', tags) - SetOf(list))
  {
    OneSet(row, u);
    hide WellFormed, ApplySets, WithMembers, Members;
  }

  lemma TagsTables(add: seq<string>, remove: seq<string>, version: int)
    ensures var u := TagsUpdate(add, remove, version);
      && DefinedAs(u.names, "#v") == Some("version") && DefinedAs(u.names, "#tags") == Some("tags")
      && Attribute(u.values, ":newV") == Some(N(version + 1))
      && Attribute(u.values, ":expected") == Some(N(version))
      && (add != [] ==> Attribute(u.values, ":addSet") == Some(SS(add)))
      && (remove != [] ==> Attribute(u.values, ":removeSet") == Some(SS(remove)))
  {
  }

  lemma TagsApplied(row: Item, add: seq<string>, remove: seq<string>, version: int)
    requires AcceptableTags(add, remove)
    requires WellFormed(TagsUpdate(add, remove, version), VERSION_UNCHANGED)
    ensures ApplyTo(TagsUpdate(add, remove, version), VERSION_UNCHANGED, row)
         == Retagged(row["version" := N(version + 1)], TagsOf(row) + SetOf(add) - SetOf(remove))
  {
    hide WellFormed, ApplyTo, WithMembers, NoRepeats;
    var u, tags := TagsUpdate(add, remove, version), if add != [] then add else remove;
    TagsTables(add, remove, version);
    SetAndTagClause(u, VERSION_UNCHANGED, row, "version", N(version + 1), "tags", tags);
    assert Members(row["version" := N(version + 1)], "tags") == TagsOf(row);
    assert SetOf<string>([]) == {};
    assert TagsOf(row) + SetOf(add) - SetOf(remove)
        == if add != [] then TagsOf(row) + SetOf(add) else TagsOf(row) - SetOf(remove);
  }

  // ---------- guarded writes on a row ----------

  datatype Write =
    | Partial(req: UpdateSettingsRequest, changedAt: string, updatedAt: string)
    | Tags(add: seq<string>, remove: seq<string>)

  predicate Acceptable(w: Write) {
    w.Tags? ==> AcceptableTags(w.add, w.remove)
  }

  /** What an accepted write does to the row, whatever version its caller expected. */
  function Effect(row: Item, w: Write): Item {
    var next := N(VersionOf(row) + 1);
    match w
    case Partial(req, changedAt, updatedAt) =>
      row + (SettingsPatch(req, changedAt, updatedAt) + map["version" := next])
    case Tags(add, remove) =>
      Retagged(row["version" := next], TagsOf(row) + SetOf(add) - SetOf(remove))
  }

  /** What a partial update asks for, attribute by attribute. */
  ghost predicate SettingsOverwritten(
    row: Item, row': Item, req: UpdateSettingsRequest, changedAt: string, updatedAt: string)
  {
    && Attribute(row', "email_verified") == FlagOr(req.emailVerified, Attribute(row, "email_verified"))
    && Attribute(row', "email_verified_at") == TextOr(req.emailVerifiedAt, Attribute(row, "email_verified_at"))
    && Attribute(row', "phone_verified") == FlagOr(req.phoneVerified, Attribute(row, "phone_verified"))
    && Attribute(row', "phone_verified_at") == TextOr(req.phoneVerifiedAt, Attribute(row, "phone_verified_at"))
    && Attribute(row', "status") == TextOr(req.status, Attribute(row, "status"))
    && Attribute(row', "status_reason") == TextOr(req.statusReason, Attribute(row, "status_reason"))
    && Attribute(row', "status_changed_at")
         == (if req.status.Some? then Some(S(changedAt)) else Attribute(row, "status_changed_at"))
    && Attribute(row', "updated_at") == Some(S(updatedAt))
    && Attribute(row', "version") == Some(N(VersionOf(row) + 1))
    && forall attr | attr !in {"email_verified", "email_verified_at", "phone_verified", "phone_verified_at", "status",
                               "status_reason", "status_changed_at", "updated_at", "version"} ::
         Attribute(row', attr) == Attribute(row, attr)
  }

  lemma SettingsColumnAttrs()
    ensures var cols := SETTINGS_COLUMNS;
      && |cols| == 8
      && cols[0].attr == "email_verified" && cols[1].attr == "email_verified_at"
      && cols[2].attr == "phone_verified" && cols[3].attr == "phone_verified_at"
      && cols[4].attr == "status" && cols[5].attr == "status_changed_at"
      && cols[6].attr == "status_reason" && cols[7].attr == "updated_at"
      && AttrsOf(cols) == {"email_verified", "email_verified_at", "phone_verified", "phone_verified_at", "status",
                           "status_reason", "status_changed_at", "updated_at"}
  {
    var cols := SETTINGS_COLUMNS;
    assert cols == [cols[0], cols[1], cols[2], cols[3], cols[4], cols[5], cols[6], cols[7]];
    assert AttrsOf(cols) == {cols[0].attr, cols[1].attr, cols[2].attr, cols[3].attr, cols[4].attr, cols[5].attr,
                             cols[6].attr, cols[7].attr};
  }

  lemma SettingsAreOverwritten(row: Item, req: UpdateSettingsRequest, changedAt: string, updatedAt: string)
    ensures SettingsOverwritten(row, Effect(row, Partial(req, changedAt, updatedAt)), req, changedAt, updatedAt)
  {
    hide SettingsPatch, VersionOf, TextOr, FlagOr, Attribute, AttrsOf, SETTINGS_COLUMNS;
    var patched := row + SettingsPatch(req, changedAt, updatedAt);
    var row' := Effect(row, Partial(req, changedAt, updatedAt));
    PatchedSettings(row, patched, req, changedAt, updatedAt);
    assert row' == patched["version" := N(VersionOf(row) + 1)];
    OtherAttributes(patched, "version", N(VersionOf(row) + 1));
    VersionApart();
    hide Effect;
  }

  lemma VersionApart()
    ensures && "email_verified" != "version" && "email_verified_at" != "version" && "phone_verified" != "version"
      && "phone_verified_at" != "version" && "status" != "version" && "status_reason" != "version"
      && "status_changed_at" != "version" && "updated_at" != "version"
  {
  }

  lemma OtherAttributes(row: Item, attr: string, v: Attr)
    ensures Attribute(row[attr := v], attr) == Some(v)
    ensures forall other | other != attr :: Attribute(row[attr := v], other) == Attribute(row, other)
  {
  }

  lemma PatchedSettings(row: Item, row': Item, req: UpdateSettingsRequest, changedAt: string, updatedAt: string)
    requires row' == row + SettingsPatch(req, changedAt, updatedAt)
    ensures
      && Attribute(row', "email_verified") == FlagOr(req.emailVerified, Attribute(row, "email_verified"))
      && Attribute(row', "email_verified_at") == TextOr(req.emailVerifiedAt, Attribute(row, "email_verified_at"))
      && Attribute(row', "phone_verified") == FlagOr(req.phoneVerified, Attribute(row, "phone_verified"))
      && Attribute(row', "phone_verified_at") == TextOr(req.phoneVerifiedAt, Attribute(row, "phone_verified_at"))
      && Attribute(row', "status") == TextOr(req.status, Attribute(row, "status"))
      && Attribute(row', "status_reason") == TextOr(req.statusReason, Attribute(row, "status_reason"))
      && Attribute(row', "status_changed_at")
           == (if req.status.Some? then Some(S(changedAt)) else Attribute(row, "status_changed_at"))
      && Attribute(row', "updated_at") == Some(S(updatedAt))
    ensures forall attr | attr !in AttrsOf(SETTINGS_COLUMNS) :: Attribute(row', attr) == Attribute(row, attr)
    ensures AttrsOf(SETTINGS_COLUMNS) ==
      {"email_verified", "email_verified_at", "phone_verified", "phone_verified_at", "status",
       "status_reason", "status_changed_at", "updated_at"}
  {
    hide PatchOf, DistinctColumns, SETTINGS_COLUMNS, AttrsOf, Attribute;
    SettingsColumnsDistinct();
    SettingsColumnAttrs();
    OverwrittenAt(row, SETTINGS_COLUMNS, SettingsValues(req, changedAt, updatedAt));
  }

  /** An accepted partial update does to each attribute what its request asks for, and nothing else. */
  lemma SettingsOverwrites(row: Item, row': Item, req: UpdateSettingsRequest, changedAt: string, updatedAt: string)
    ensures SettingsOverwritten(row, row', req, changedAt, updatedAt)
       <==> row' == Effect(row, Partial(req, changedAt, updatedAt))
  {
    hide Effect, TextOr, FlagOr, VersionOf;
    SettingsAreOverwritten(row, req, changedAt, updatedAt);
    if SettingsOverwritten(row, row', req, changedAt, updatedAt) {
      SameAttributes(row', Effect(row, Partial(req, changedAt, updatedAt)));
    }
  }

  lemma EffectOnVersionAndTags(row: Item, w: Write)
    ensures HasVersion(Effect(row, w)) && VersionOf(Effect(row, w)) == VersionOf(row) + 1
    ensures TagsOf(Effect(row, w)) ==
              if w.Tags? then TagsOf(row) + SetOf(w.add) - SetOf(w.remove) else TagsOf(row)
    ensures w.Tags? ==>
              forall attr | attr !in {"version", "tags"} :: Attribute(Effect(row, w), attr) == Attribute(row, attr)
  {
    if w.Partial? {
      SettingsPatchKeys(w.req, w.changedAt, w.updatedAt);
    }
  }

  predicate Takes(row: Item, w: Write, expected: int) {
    Acceptable(w) && HasVersion(row) && VersionOf(row) == expected
  }

  function Attempt(row: Item, w: Write, expected: int): Item {
    if Takes(row, w, expected) then Effect(row, w) else row
  }

  method BuildTagsUpdate(add: seq<string>, remove: seq<string>, version: int) returns (u: Update)
    ensures u == TagsUpdate(add, remove, version)
  {
    var values := map[":expected" := N(version), ":newV" := N(version + 1)];
    var names := map["#tags" := "tags", "#v" := "version"];
    var addClause: Option<Assignment>, removeClause: Option<Assignment> := None, None;
    if |add| > 0 {
      addClause := Some(Assignment("#tags", ":addSet"));
      values := values[":addSet" := SS(add)];
    }
    if |remove| > 0 {
      removeClause := Some(Assignment("#tags", ":removeSet"));
      values := values[":removeSet" := SS(remove)];
    }
    u := Update([Assignment("#v", ":newV")], addClause, removeClause, names, values);
  }

  /** The storage outcome of both writes: accepted on the expected version of an existing
      row, and otherwise without effect. */
  lemma GuardedWriteOutcome(t: Table, k: Key, w: Write, version: int, u: Update)
    requires w.Partial? ==> u == PartialExpression(w.req, version, w.changedAt, w.updatedAt).ToUpdate()
    requires w.Tags? ==> u == TagsUpdate(w.add, w.remove, version) && (w.add != [] || w.remove != [])
    ensures UpdateItem(t, k, u, VERSION_UNCHANGED) ==
              if !Acceptable(w) then (Rejected, t)
              else if k in t && Takes(t[k], w, version) then (Written, t[k := Effect(t[k], w)])
              else (ConditionFailed(0), t)
  {
    hide TagsUpdate, WellFormed, ApplyTo, Retagged, AcceptableTags, SettingsPatch, PartialExpression;
    match w
    case Partial(req, changedAt, updatedAt) => PartialUpdateMeansPatch(req, version, changedAt, updatedAt);
    case Tags(add, remove) =>
      TagsUpdateMeans(add, remove, version);
      TagsTables(add, remove, version);
  }

  // ---------- the repository ----------

  class SettingsRepo {
    const client: Client

    constructor (client: Client)
      ensures this.client == client
    {
      this.client := client;
    }

    /** The row itself; the model conversion is left to the caller. */
    method GetSettings(id: string) returns (r: Result<Item>)
      ensures client.healthy ==> r != Err(Internal)
      ensures r != Err(Internal) ==>
                r == if SettingsKey(id) in client.table then Ok(client.table[SettingsKey(id)]) else Err(NotFound)
    {
      var ok, row := client.GetRow(SettingsKey(id));
      if !ok {
        return Err(Internal);
      }
      if row.None? {
        return Err(NotFound);
      }
      return Ok(row.value);
    }

    method ConditionFailure(id: string) returns (e: Error)
      ensures e in {NotFound, VersionConflict, Internal}
      ensures e == NotFound ==> SettingsKey(id) !in client.table
      ensures e == VersionConflict ==> SettingsKey(id) in client.table
      ensures client.healthy ==> e != Internal
    {
      var existing := GetSettings(id);
      if existing.Err? {
        return existing.error;
      }
      return VersionConflict;
    }

    method UpdateSettingsPartial(
      id: string, req: UpdateSettingsRequest, version: int, changedAt: string, updatedAt: string)
      returns (s: Status)
      modifies client`table
      ensures var k, w := SettingsKey(id), Partial(req, changedAt, updatedAt);
        s.Done? ==>
          && k in old(client.table) && Takes(old(client.table)[k], w, version)
          && client.table == old(client.table)[k := Effect(old(client.table)[k], w)]
          && SettingsOverwritten(old(client.table)[k], client.table[k], req, changedAt, updatedAt)
      ensures s.Failed? ==> client.table == old(client.table) && s.error in {NotFound, VersionConflict, Internal}
      ensures s == Failed(NotFound) ==> SettingsKey(id) !in client.table
      ensures s == Failed(VersionConflict) ==>
                && SettingsKey(id) in client.table
                && !Takes(client.table[SettingsKey(id)], Partial(req, changedAt, updatedAt), version)
      ensures client.healthy ==> s != Failed(Internal)
    {
      hide Effect, Takes, PartialExpression, UpdateItem, SettingsOverwritten;
      if SettingsKey(id) in client.table {
        SettingsAreOverwritten(client.table[SettingsKey(id)], req, changedAt, updatedAt);
      }
      var e := BuildPartialUpdate(req, version, changedAt, updatedAt);
      GuardedWriteOutcome(client.table, SettingsKey(id), Partial(req, changedAt, updatedAt), version, e.ToUpdate());
      var w := client.UpdateRow(SettingsKey(id), e.ToUpdate(), VERSION_UNCHANGED);
      match w
      case Written => return Done;
      case ConditionFailed(_) =>
        var error := ConditionFailure(id);
        return Failed(error);
      case _ => return Failed(Internal);
    }

    /** Unconditional overwrite of the whole row; a tag listed twice is refused. */
    method UpdateSettings(id: string, s: AccountSettings) returns (ok: bool)
      modifies client`table
      ensures client.table == if ok then old(client.table)[SettingsKey(id) := SettingsRecord(s)] else old(client.table)
      ensures ok ==> NoRepeats(ListedTags(s))
      ensures client.healthy && NoRepeats(ListedTags(s)) ==> ok
    {
      hide SettingsRecord;
      if !NoRepeats(ListedTags(s)) {
        return false;
      }
      ok := client.WriteRow(SettingsKey(id), SettingsRecord(s));
    }

    method MutateSettingsTags(id: string, add: seq<string>, remove: seq<string>, version: int) returns (s: Status)
      modifies client`table
      ensures add == [] && remove == [] ==> s.Done? && client.table == old(client.table)
      ensures var k, w := SettingsKey(id), Tags(add, remove);
        s.Done? && (add != [] || remove != []) ==>
          && k in old(client.table) && Takes(old(client.table)[k], w, version)
          && client.table == old(client.table)[k := Effect(old(client.table)[k], w)]
      ensures s.Failed? ==> client.table == old(client.table) && s.error in {NotFound, VersionConflict, Internal}
      ensures s == Failed(NotFound) ==> SettingsKey(id) !in client.table
      ensures s == Failed(VersionConflict) ==>
                && SettingsKey(id) in client.table
                && !Takes(client.table[SettingsKey(id)], Tags(add, remove), version)
      ensures s == Failed(VersionConflict) ==> AcceptableTags(add, remove)
      ensures client.healthy && (add != [] || remove != []) ==>
                (s == Failed(Internal) <==> !AcceptableTags(add, remove))
    {
      if |add| == 0 && |remove| == 0 {
        return Done;
      }
      hide Effect, UpdateItem, TagsUpdate, AcceptableTags;
      var u := BuildTagsUpdate(add, remove, version);
      GuardedWriteOutcome(client.table, SettingsKey(id), Tags(add, remove), version, u);
      var w := client.UpdateRow(SettingsKey(id), u, VERSION_UNCHANGED);
      match w
      case Written => return Done;
      case ConditionFailed(_) =>
        var error := ConditionFailure(id);
        return Failed(error);
      case _ => return Failed(Internal);
    }
  }

  function OptionalSettings(s: AccountSettings): Item {
    IfPresent("email_verified_at", s.emailVerifiedAt) + IfPresent("phone_verified_at", s.phoneVerifiedAt)
    + IfPresent("status_reason", s.statusReason) + IfPresent("status_changed_at", s.statusChangedAt)
  }

  function RequiredSettings(s: AccountSettings): Item {
    map[
      "email_verified" := Bool(s.emailVerified == Some(true)), "phone_verified" := Bool(s.phoneVerified == Some(true)),
      "status" := S(s.status), "version" := N(s.version)
    ]
  }

  /** A whole settings row, which leaves out absent times, reason and tags. */
  function SettingsRecord(s: AccountSettings): Item {
    OptionalSettings(s) + RequiredSettings(s)
    + if ListedTags(s) == [] then map[] else map["tags" := StringSet(SetOf(ListedTags(s)))]
  }

  function ListedTags(s: AccountSettings): seq<string> {
    if s.tags.Some? then s.tags.value else []
  }

  lemma NoTagsAmongOthers(s: AccountSettings)
    ensures "tags" !in OptionalSettings(s) && "tags" !in RequiredSettings(s)
    ensures Attribute(RequiredSettings(s), "version") == Some(N(s.version))
    ensures Attribute(RequiredSettings(s), "status") == Some(S(s.status))
    ensures Attribute(RequiredSettings(s), "email_verified") == Some(Bool(s.emailVerified == Some(true)))
    ensures Attribute(RequiredSettings(s), "phone_verified") == Some(Bool(s.phoneVerified == Some(true)))
  {
  }

  /** The row shows the version, the status, the verifications and the tags it was written with. */
  lemma SettingsRecordShows(s: AccountSettings)
    ensures HasVersion(SettingsRecord(s)) && VersionOf(SettingsRecord(s)) == s.version
    ensures StrAttr(SettingsRecord(s), "status") == s.status && TagsOf(SettingsRecord(s)) == SetOf(ListedTags(s))
    ensures BoolAttr(SettingsRecord(s), "email_verified") <==> s.emailVerified == Some(true)
    ensures BoolAttr(SettingsRecord(s), "phone_verified") <==> s.phoneVerified == Some(true)
  {
    NoTagsAmongOthers(s);
    hide OptionalSettings, RequiredSettings;
  }

  /** It carries a time or a reason exactly when the settings do and it is not empty. */
  lemma SettingsRecordDates(s: AccountSettings)
    ensures var row := SettingsRecord(s);
      && Attribute(row, "email_verified_at") == TextIfAny(s.emailVerifiedAt)
      && Attribute(row, "phone_verified_at") == TextIfAny(s.phoneVerifiedAt)
      && Attribute(row, "status_reason") == TextIfAny(s.statusReason)
      && Attribute(row, "status_changed_at") == TextIfAny(s.statusChangedAt)
  {
    OptionalSettingsShow(s);
    RequiredSettingsApart(s);
    hide OptionalSettings, RequiredSettings;
  }

  lemma OptionalSettingsShow(s: AccountSettings)
    ensures var row := OptionalSettings(s);
      && Attribute(row, "email_verified_at") == TextIfAny(s.emailVerifiedAt)
      && Attribute(row, "phone_verified_at") == TextIfAny(s.phoneVerifiedAt)
      && Attribute(row, "status_reason") == TextIfAny(s.statusReason)
      && Attribute(row, "status_changed_at") == TextIfAny(s.statusChangedAt)
  {
  }

  lemma RequiredSettingsApart(s: AccountSettings)
    ensures RequiredSettings(s).Keys !! {"email_verified_at", "phone_verified_at", "status_reason", "status_changed_at"}
  {
  }

  const DEFAULTS := AccountSettings(None, None, None, None, "active", None, None, None, 0)

  function DefaultSettings(): Item {
    SettingsRecord(DEFAULTS)
  }

  lemma DefaultsAreFresh()
    ensures HasVersion(DefaultSettings()) && VersionOf(DefaultSettings()) == 0 && TagsOf(DefaultSettings()) == {}
    ensures StrAttr(DefaultSettings(), "status") == "active" && NoRepeats(ListedTags(DEFAULTS))
    ensures !BoolAttr(DefaultSettings(), "email_verified") && !BoolAttr(DefaultSettings(), "phone_verified")
  {
    SettingsRecordShows(DEFAULTS);
  }

  // ---------- many writers ----------

  /** One write attempt by any caller, with the version that caller expected. */
  datatype Attempted = Attempted(w: Write, expected: int)

  /** The row after the attempts, in the order in which DynamoDB took them. */
  function RowAfter(row: Item, attempts: seq<Attempted>): Item {
    if attempts == [] then row
    else
      var last := attempts[|attempts| - 1];
      Attempt(RowAfter(row, attempts[..|attempts| - 1]), last.w, last.expected)
  }

  function AcceptedOf(row: Item, attempts: seq<Attempted>): seq<Attempted> {
    if attempts == [] then []
    else
      var front, last := attempts[..|attempts| - 1], attempts[|attempts| - 1];
      if Takes(RowAfter(row, front), last.w, last.expected)
      then AcceptedOf(row, front) + [last] else AcceptedOf(row, front)
  }

  /** The writes one after the other, ignoring versions. */
  function Folded(row: Item, writes: seq<Attempted>): Item {
    if writes == [] then row
    else Effect(Folded(row, writes[..|writes| - 1]), writes[|writes| - 1].w)
  }

  /** No settings update is lost: whatever attempts race, the version counts the accepted
      ones, each expected version is used exactly once and in order, and the row is what the
      accepted writes produce one after the other. */
  lemma {:induction false} NoLostUpdate(row: Item, attempts: seq<Attempted>)
    requires HasVersion(row) && VersionOf(row) == 0
    ensures var accepted := AcceptedOf(row, attempts);
      && HasVersion(RowAfter(row, attempts)) && VersionOf(RowAfter(row, attempts)) == |accepted|
      && (forall i | 0 <= i < |accepted| :: accepted[i].expected == i && Acceptable(accepted[i].w))
      && RowAfter(row, attempts) == Folded(row, accepted)
  {
    if attempts != [] {
      hide Effect, Acceptable;
      var front, last := attempts[..|attempts| - 1], attempts[|attempts| - 1];
      NoLostUpdate(row, front);
      var before := RowAfter(row, front);
      if Takes(before, last.w, last.expected) {
        EffectOnVersionAndTags(before, last.w);
        assert AcceptedOf(row, attempts)[..|AcceptedOf(row, front)|] == AcceptedOf(row, front);
      }
    }
  }

  /** Registration writes such a row. */
  lemma FreshSettingsRow(now: string)
    ensures HasVersion(SettingsRow(now)) && VersionOf(SettingsRow(now)) == 0 && TagsOf(SettingsRow(now)) == {}
  {
  }

  function MergedSettings(a: UpdateSettingsRequest, b: UpdateSettingsRequest): UpdateSettingsRequest {
    UpdateSettingsRequest(
      Later(a.emailVerified, b.emailVerified), Later(a.emailVerifiedAt, b.emailVerifiedAt),
      Later(a.phoneVerified, b.phoneVerified), Later(a.phoneVerifiedAt, b.phoneVerifiedAt),
      Later(a.status, b.status), Later(a.statusReason, b.statusReason), None, None, None)
  }

  /** Two partial updates in a row are one by the right-biased merge, two versions later. */
  lemma PartialUpdatesMerge(
    row: Item, a: UpdateSettingsRequest, b: UpdateSettingsRequest,
    c1: string, u1: string, c2: string, u2: string)
    requires HasVersion(row)
    ensures Effect(Effect(row, Partial(a, c1, u1)), Partial(b, c2, u2))
         == row + (SettingsPatch(MergedSettings(a, b), if b.status.Some? then c2 else c1, u2)
                   + map["version" := N(VersionOf(row) + 2)])
  {
    SettingsPatchesMerge(a, b, c1, u1, c2, u2);
    EffectOnVersionAndTags(row, Partial(a, c1, u1));
    SettingsPatchKeys(a, c1, u1);
    SettingsPatchKeys(b, c2, u2);
    hide SettingsPatch;
    var n := VersionOf(row);
    var first := Effect(row, Partial(a, c1, u1));
    assert Effect(first, Partial(b, c2, u2)) == first + (SettingsPatch(b, c2, u2) + map["version" := N(n + 2)]);
  }

  lemma SettingsPatchesMerge(
    a: UpdateSettingsRequest, b: UpdateSettingsRequest, c1: string, u1: string, c2: string, u2: string)
    ensures SettingsPatch(a, c1, u1) + SettingsPatch(b, c2, u2)
         == SettingsPatch(MergedSettings(a, b), if b.status.Some? then c2 else c1, u2)
  {
    SettingsColumnsDistinct();
    hide SETTINGS_COLUMNS, DistinctColumns;
    PatchesMerge(SETTINGS_COLUMNS, SettingsValues(a, c1, u1), SettingsValues(b, c2, u2),
                 SettingsValues(MergedSettings(a, b), if b.status.Some? then c2 else c1, u2));
  }
}
