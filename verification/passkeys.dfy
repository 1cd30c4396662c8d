/** Passkey credentials and the sign-count guard (internal/db/passkeys.go). */
module Passkeys {
  import opened Basics
  import opened Dynamo
  import opened Accounts

  datatype Passkey = Passkey(
    credentialId: string, publicKey: string, signCount: int, transports: seq<string>, aaguid: Option<string>,
    backupEligible: bool, backupState: bool, createdAt: string, lastUsedAt: Option<string>)

  function PasskeyKey(id: string, credentialId: string): Key {
    Key(AccountPK(id), "PASSKEY#" + credentialId)
  }

  function PasskeyBase(c: Passkey): Item {
    map[
      "credential_id" := S(c.credentialId), "public_key" := S(c.publicKey), "sign_count" := N(c.signCount),
      "backup_eligible" := Bool(c.backupEligible), "backup_state" := Bool(c.backupState),
      "created_at" := S(c.createdAt)
    ]
  }

  function PasskeyOptional(c: Passkey): Item {
    IfPresent("aaguid", c.aaguid)
    + (if c.transports == [] then map[] else map["transports" := L(c.transports)])
    + if c.lastUsedAt.None? then map[] else map["last_used_at" := S(c.lastUsedAt.value)]
  }

  function PasskeyRow(c: Passkey): Item {
    PasskeyBase(c) + PasskeyOptional(c)
  }

  function Count(row: Item): int {
    if HasCount(row) then row["sign_count"].n else 0
  }

  predicate HasCount(row: Item) {
    "sign_count" in row && row["sign_count"].N?
  }

  function ToPasskey(row: Item): Passkey {
    Passkey(
      StrAttr(row, "credential_id"), StrAttr(row, "public_key"), Count(row), ListAttr(row, "transports"),
      OptStr(StrAttr(row, "aaguid")), BoolAttr(row, "backup_eligible"), BoolAttr(row, "backup_state"),
      StrAttr(row, "created_at"),
      if "last_used_at" in row && row["last_used_at"].S? then Some(row["last_used_at"].s) else None)
  }

  /** A use of the passkey as the login flow reports it. */
  datatype Use = Use(signCount: int, backupState: bool, lastUsedAt: Option<string>)

  const PASSKEY_COLUMNS: seq<Column> := [
    Column("#sc", "sign_count", ":new"),
    Column("#bs", "backup_state", ":bs"),
    Column("#lua", "last_used_at", ":lua")
  ]

  const COUNT_NOT_BEHIND := ExistsAnd("#sc", AtMost, ":new")

  function UseValues(use: Use): (vals: seq<Option<Attr>>)
    ensures |vals| == |PASSKEY_COLUMNS|
  {
    [Some(N(use.signCount)), Some(Bool(use.backupState)), Str(use.lastUsedAt)]
  }

  function UsePatch(use: Use): Item {
    PatchOf(PASSKEY_COLUMNS, UseValues(use))
  }

  lemma PasskeyColumnsDistinct()
    ensures DistinctColumns(PASSKEY_COLUMNS)
  {
  }

  method BuildUse(use: Use) returns (e: Expression)
    ensures e == ExpressionOf(NO_CLAUSES, PASSKEY_COLUMNS, UseValues(use))
  {
    ghost var cols, vals := PASSKEY_COLUMNS, UseValues(use);
    e := NO_CLAUSES;
    assert ExpressionOf(NO_CLAUSES, cols[..0], vals[..0]) == e;
    hide ExpressionOf;
    e := e.Set("#sc", "sign_count", ":new", N(use.signCount));
    ExpressionStep(NO_CLAUSES, cols, vals, 0);
    e := e.Set("#bs", "backup_state", ":bs", Bool(use.backupState));
    ExpressionStep(NO_CLAUSES, cols, vals, 1);
    if use.lastUsedAt.Some? {
      e := e.Set("#lua", "last_used_at", ":lua", S(use.lastUsedAt.value));
    }
    ExpressionStep(NO_CLAUSES, cols, vals, 2);
    assert cols[..3] == cols && vals[..3] == vals;
  }

  lemma UseBuilds(use: Use)
    ensures var e := ExpressionOf(NO_CLAUSES, PASSKEY_COLUMNS, UseValues(use));
      && Builds(e, UsePatch(use), {}, {}) && "sign_count" in UsePatch(use)
      && DefinedAs(e.names, "#sc") == Some("sign_count") && Attribute(e.values, ":new") == Some(N(use.signCount))
  {
    PasskeyColumnsDistinct();
    hide ExpressionOf, PatchOf, Builds, DistinctColumns;
    assert NO_CLAUSES.names.Keys == {} && NO_CLAUSES.values.Keys == {};
    ColumnsBuild(NO_CLAUSES, PASSKEY_COLUMNS, UseValues(use));
    ColumnDefined(NO_CLAUSES, PASSKEY_COLUMNS, UseValues(use), 0);
    PatchOfAt(PASSKEY_COLUMNS, UseValues(use), 0);
  }

  /** The built expression is accepted, overwrites exactly what the use reports, and is guarded
      by the count it writes. */
  lemma UseMeansPatch(use: Use)
    ensures var u := ExpressionOf(NO_CLAUSES, PASSKEY_COLUMNS, UseValues(use)).ToUpdate();
      && WellFormed(u, COUNT_NOT_BEHIND)
      && (forall row :: ApplyTo(u, COUNT_NOT_BEHIND, row) == row + UsePatch(use))
      && (forall row :: Holds(COUNT_NOT_BEHIND, row, u.names, u.values)
                   <==> row.Some? && HasCount(row.value) && Count(row.value) <= use.signCount)
  {
    hide ExpressionOf, PASSKEY_COLUMNS, UseValues, PatchOf, WellFormed, ApplyTo, Means, NamesOf, ValuesOf;
    var e := ExpressionOf(NO_CLAUSES, PASSKEY_COLUMNS, UseValues(use));
    UseBuilds(use);
    BuiltUpdateMeansPatch(e, COUNT_NOT_BEHIND, UsePatch(use), {}, {});
  }

  /** What a use overwrites: the count and the backup state always, never the key. */
  lemma UsePatchShows(row: Item, use: Use)
    ensures HasCount(row + UsePatch(use)) && Count(row + UsePatch(use)) == use.signCount
    ensures forall attr | attr !in {"sign_count", "backup_state", "last_used_at"} ::
              Attribute(row + UsePatch(use), attr) == Attribute(row, attr)
  {
    hide UsePatch;
    UseIsOverwritten(row, use);
  }

  /** What a use overwrites, attribute by attribute. */
  ghost predicate UseOverwritten(row: Item, row': Item, use: Use) {
    && Attribute(row', "sign_count") == Some(N(use.signCount))
    && Attribute(row', "backup_state") == Some(Bool(use.backupState))
    && Attribute(row', "last_used_at") == TextOr(use.lastUsedAt, Attribute(row, "last_used_at"))
    && forall attr | attr !in {"sign_count", "backup_state", "last_used_at"} ::
         Attribute(row', attr) == Attribute(row, attr)
  }

  lemma PasskeyColumnAttrs()
    ensures var cols := PASSKEY_COLUMNS;
      && |cols| == 3
      && cols[0].attr == "sign_count" && cols[1].attr == "backup_state" && cols[2].attr == "last_used_at"
      && AttrsOf(cols) == {"sign_count", "backup_state", "last_used_at"}
  {
    var cols := PASSKEY_COLUMNS;
    assert cols == [cols[0], cols[1], cols[2]];
    assert AttrsOf(cols) == {cols[0].attr, cols[1].attr, cols[2].attr};
  }

  lemma UseIsOverwritten(row: Item, use: Use)
    ensures UseOverwritten(row, row + UsePatch(use), use)
  {
    hide PatchOf, DistinctColumns, PASSKEY_COLUMNS, AttrsOf, Attribute;
    PasskeyColumnsDistinct();
    PasskeyColumnAttrs();
    OverwrittenAt(row, PASSKEY_COLUMNS, UseValues(use));
  }

  /** A use does to each attribute what it reports, and nothing else. */
  lemma UseOverwrites(row: Item, row': Item, use: Use)
    ensures UseOverwritten(row, row', use) <==> row' == row + UsePatch(use)
  {
    hide UsePatch, TextOr;
    UseIsOverwritten(row, use);
    if UseOverwritten(row, row', use) {
      SameAttributes(row', row + UsePatch(use));
    }
  }

  // ---------- the count over any sequence of attempts ----------

  /** The row after an attempt: rejected if it reports a smaller count than stored. */
  function AfterUse(row: Item, use: Use): Item {
    if HasCount(row) && Count(row) <= use.signCount then row + UsePatch(use) else row
  }

  function AfterUses(row: Item, uses: seq<Use>): Item {
    if uses == [] then row else AfterUse(AfterUses(row, uses[..|uses| - 1]), uses[|uses| - 1])
  }

  /** `m` is the greatest of the initial count and all attempted ones. */
  ghost predicate IsMaximum(m: int, initial: int, uses: seq<Use>) {
    && (m == initial || exists i :: 0 <= i < |uses| && uses[i].signCount == m)
    && initial <= m && forall i | 0 <= i < |uses| :: uses[i].signCount <= m
  }

  /** Whatever was accepted or rejected on the way, the stored count is the maximum, and an
      attempt is accepted exactly when no earlier count exceeds it; nothing but the count, the
      backup state and the time of use has changed. */
  lemma {:induction false} StoredCountIsMaximum(row: Item, uses: seq<Use>)
    requires HasCount(row)
    ensures HasCount(AfterUses(row, uses)) && IsMaximum(Count(AfterUses(row, uses)), Count(row), uses)
    ensures forall attr | attr !in {"sign_count", "backup_state", "last_used_at"} ::
              Attribute(AfterUses(row, uses), attr) == Attribute(row, attr)
  {
    if uses != [] {
      hide UsePatch, HasCount, Count;
      var front, last := uses[..|uses| - 1], uses[|uses| - 1];
      StoredCountIsMaximum(row, front);
      UsePatchShows(AfterUses(row, front), last);
      var m := Count(AfterUses(row, front));
      if m != Count(row) {
        var i :| 0 <= i < |front| && front[i].signCount == m;
        assert uses[i].signCount == m;
      }
      forall i | 0 <= i < |uses| ensures uses[i].signCount <= Count(AfterUses(row, uses)) {
        assert i < |front| ==> uses[i] == front[i];
      }
      assert uses[|uses| - 1].signCount == last.signCount;
    }
  }

  /** The order of the attempts does not matter to the final count. */
  lemma OrderDoesNotMatter(row: Item, uses: seq<Use>, reordered: seq<Use>)
    requires HasCount(row) && multiset(uses) == multiset(reordered)
    ensures Count(AfterUses(row, uses)) == Count(AfterUses(row, reordered))
  {
    StoredCountIsMaximum(row, uses);
    StoredCountIsMaximum(row, reordered);
    forall use ensures use in uses <==> use in reordered {
      assert use in multiset(uses) <==> use in multiset(reordered);
    }
    hide AfterUses, Count, HasCount;
    MaximumOfSame(Count(AfterUses(row, uses)), Count(AfterUses(row, reordered)), Count(row), uses, reordered);
    MaximumOfSame(Count(AfterUses(row, reordered)), Count(AfterUses(row, uses)), Count(row), reordered, uses);
  }

  lemma MaximumOfSame(m: int, n: int, initial: int, uses: seq<Use>, others: seq<Use>)
    requires IsMaximum(m, initial, uses) && IsMaximum(n, initial, others)
    requires forall use | use in uses :: use in others
    ensures m <= n
  {
    if m != initial {
      var i :| 0 <= i < |uses| && uses[i].signCount == m;
      assert uses[i] in others;
    }
  }

  /** The next attempt is accepted exactly when it reports at least every count seen so far. */
  lemma AcceptedIfNotBehind(row: Item, uses: seq<Use>, next: Use)
    requires HasCount(row)
    ensures Count(AfterUses(row, uses)) <= next.signCount
       <==> Count(row) <= next.signCount && forall i | 0 <= i < |uses| :: uses[i].signCount <= next.signCount
  {
    StoredCountIsMaximum(row, uses);
    hide AfterUses, Count, HasCount;
  }

  // ---------- the repository ----------

  class PasskeyRepo {
    const client: Client

    constructor (client: Client)
      ensures this.client == client
    {
      this.client := client;
    }

    /** A new passkey has no time of use yet; an existing one is never replaced. */
    method CreatePasskey(id: string, cred: Passkey, now: string) returns (s: Status)
      modifies client`table
      ensures var k, t := PasskeyKey(id, cred.credentialId), old(client.table);
        && (cred.credentialId == "" ==> s == Failed(Internal))
        && (s.Done? ==>
              k !in t && client.table == t[k := PasskeyRow(cred.(createdAt := now, lastUsedAt := None))])
        && (s.Failed? ==> client.table == t && s.error in {AlreadyExists, Internal})
        && (s == Failed(AlreadyExists) ==> k in t)
        && (client.healthy && cred.credentialId != "" ==> s == if k in t then Failed(AlreadyExists) else Done)
    {
      hide PasskeyRow, AccountPK;
      if cred.credentialId == "" {
        return Failed(Internal);
      }
      var stored := cred.(createdAt := now, lastUsedAt := None);
      var w := client.WriteRowIf(PasskeyKey(id, stored.credentialId), PasskeyRow(stored), NotExists);
      match w
      case Written => return Done;
      case ConditionFailed(_) => return Failed(AlreadyExists);
      case _ => return Failed(Internal);
    }

    /** Records a use unless it reports a smaller count than stored. After a refusal any failure
        to read the row back is reported as a missing passkey. */
    method UpdatePasskey(id: string, credentialId: string, use: Use) returns (r: Result<Passkey>)
      modifies client`table
      ensures var k, t := PasskeyKey(id, credentialId), old(client.table);
        && (r.Ok? ==> k in t && HasCount(t[k]) && Count(t[k]) <= use.signCount)
        && (r.Ok? ==> client.table == t[k := AfterUse(t[k], use)] && r.value == ToPasskey(client.table[k]))
        && (r.Ok? ==> UseOverwritten(t[k], client.table[k], use))
        && (r.Err? ==> client.table == t && r.error in {NotFound, SignCountRegression, Internal})
        && (r == Err(SignCountRegression) ==> k in t && !(HasCount(t[k]) && Count(t[k]) <= use.signCount))
        && (r == Err(NotFound) ==> !(k in t && HasCount(t[k]) && Count(t[k]) <= use.signCount))
        && (client.healthy ==> (k !in t <==> r == Err(NotFound)) && r != Err(Internal))
    {
      hide ExpressionOf, WellFormed, ApplyTo, Holds, UsePatch, UseValues, ToPasskey, HasCount,
           AccountPK, PASSKEY_COLUMNS, UseOverwritten;
      if PasskeyKey(id, credentialId) in client.table {
        UseIsOverwritten(client.table[PasskeyKey(id, credentialId)], use);
      }
      var e := BuildUse(use);
      UseMeansPatch(use);
      var k := PasskeyKey(id, credentialId);
      var w := client.UpdateRow(k, e.ToUpdate(), COUNT_NOT_BEHIND);
      match w
      case Written => return Ok(ToPasskey(client.table[k]));
      case ConditionFailed(_) =>
        var ok, row := client.GetRow(k);
        if !ok || row.None? {
          return Err(NotFound);
        }
        return Err(SignCountRegression);
      case _ => return Err(Internal);
    }

    method DeletePasskey(id: string, credentialId: string) returns (s: Status)
      modifies client`table
      ensures client.table == if s.Done? then old(client.table) - {PasskeyKey(id, credentialId)} else old(client.table)
      ensures client.healthy ==> s.Done?
    {
      var ok := client.DeleteRow(PasskeyKey(id, credentialId));
      return if ok then Done else Failed(Internal);
    }
  }

  /** A stored passkey reads back as it was stored; an empty model id is none. */
  lemma PasskeyRoundTrip(c: Passkey)
    ensures ToPasskey(PasskeyRow(c)) == c.(aaguid := if c.aaguid == Some("") then None else c.aaguid)
  {
    PasskeyBaseShows(c);
    PasskeyOptionalShows(c);
    hide PasskeyBase, PasskeyOptional;
  }

  /** It carries its fields under their names. */
  lemma PasskeyRowShows(c: Passkey)
    ensures var row := PasskeyRow(c);
      && Attribute(row, "credential_id") == Some(S(c.credentialId))
      && Attribute(row, "public_key") == Some(S(c.publicKey))
      && Attribute(row, "sign_count") == Some(N(c.signCount))
      && Attribute(row, "backup_eligible") == Some(Bool(c.backupEligible))
      && Attribute(row, "backup_state") == Some(Bool(c.backupState))
      && Attribute(row, "created_at") == Some(S(c.createdAt))
      && Attribute(row, "last_used_at") == TextOr(c.lastUsedAt, None)
  {
    PasskeyBaseAttrs(c);
    PasskeyBaseShows(c);
    PasskeyOptionalShows(c);
    hide PasskeyBase, PasskeyOptional;
  }

  lemma PasskeyBaseAttrs(c: Passkey)
    ensures var row := PasskeyBase(c);
      && Attribute(row, "credential_id") == Some(S(c.credentialId))
      && Attribute(row, "public_key") == Some(S(c.publicKey))
      && Attribute(row, "sign_count") == Some(N(c.signCount))
      && Attribute(row, "backup_eligible") == Some(Bool(c.backupEligible))
      && Attribute(row, "backup_state") == Some(Bool(c.backupState))
      && Attribute(row, "created_at") == Some(S(c.createdAt))
  {
  }

  lemma PasskeyBaseShows(c: Passkey)
    ensures var row := PasskeyBase(c);
      && StrAttr(row, "credential_id") == c.credentialId && StrAttr(row, "public_key") == c.publicKey
      && HasCount(row) && Count(row) == c.signCount
      && BoolAttr(row, "backup_eligible") == c.backupEligible && BoolAttr(row, "backup_state") == c.backupState
      && StrAttr(row, "created_at") == c.createdAt
      && row.Keys !! {"aaguid", "transports", "last_used_at"}
  {
  }

  lemma PasskeyOptionalShows(c: Passkey)
    ensures var row := PasskeyOptional(c);
      && OptStr(StrAttr(row, "aaguid")) == OptStr(OrEmpty(c.aaguid)) && ListAttr(row, "transports") == c.transports
      && Attribute(row, "last_used_at") == TextOr(c.lastUsedAt, None)
      && row.Keys <= {"aaguid", "transports", "last_used_at"}
      && row.Keys !! {"credential_id", "public_key", "sign_count", "backup_eligible", "backup_state", "created_at"}
  {
  }

  lemma NewPasskeyHasCount(c: Passkey)
    ensures HasCount(PasskeyRow(c)) && Count(PasskeyRow(c)) == c.signCount
    ensures StrAttr(PasskeyRow(c), "public_key") == c.publicKey
  {
    PasskeyBaseShows(c);
    PasskeyOptionalShows(c);
    hide PasskeyBase, PasskeyOptional;
  }
}
