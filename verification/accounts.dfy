/** Account rows, the email lookup, and erasure (internal/db/account.go). */
module Accounts {
  import opened Basics
  import opened Dynamo

  datatype CreateRequest = CreateRequest(
    email: string, username: string, phone: Option<string>,
    firstName: string, lastName: string, avatarUrl: Option<string>)

  datatype UpdateRequest = UpdateRequest(
    phone: Option<string>, firstName: Option<string>, lastName: Option<string>, avatarUrl: Option<string>)

  datatype CredentialsRequest = CredentialsRequest(
    passwordHash: Option<string>, authMethods: Option<seq<string>>)

  datatype Account = Account(
    accountId: string, username: string, email: string, phone: Option<string>,
    firstName: string, lastName: string, avatarUrl: Option<string>)

  datatype Credentials = Credentials(
    accountId: string, passwordHash: Option<string>, emailVerified: bool,
    authMethods: seq<string>, status: string)

  // ---------- keys ----------

  function AccountPK(id: string): string {
    "ACCOUNT#" + id
  }

  function EmailPK(email: string): string {
    "EMAIL#" + Lower(email)
  }

  function ProfileKey(id: string): Key {
    Key(AccountPK(id), "PROFILE")
  }

  function SettingsKey(id: string): Key {
    Key(AccountPK(id), "SETTINGS")
  }

  function ReservationKey(email: string): Key {
    Key(EmailPK(email), "EMAIL")
  }

  lemma KeysApart()
    ensures forall a, b {:trigger AccountPK(a), AccountPK(b)} :: AccountPK(a) == AccountPK(b) ==> a == b
    ensures forall a, e {:trigger AccountPK(a), EmailPK(e)} :: AccountPK(a) != EmailPK(e)
    ensures forall e, f {:trigger EmailPK(e), EmailPK(f)} :: EmailPK(e) == EmailPK(f) ==> Lower(e) == Lower(f)
  {
    forall a, b | AccountPK(a) == AccountPK(b) ensures a == b {
      PrefixCancels("ACCOUNT#", a, b);
    }
    forall a, e ensures AccountPK(a) != EmailPK(e) {
      assert AccountPK(a)[0] == 'A' && EmailPK(e)[0] == 'E';
    }
    forall e, f | EmailPK(e) == EmailPK(f) ensures Lower(e) == Lower(f) {
      PrefixCancels("EMAIL#", Lower(e), Lower(f));
    }
  }

  // ---------- rows ----------

  function ProfileRow(id: string, req: CreateRequest, now: string): Item {
    map[
      "account_id" := S(id),
      "username" := S(req.username),
      "email" := S(Lower(req.email)),
      "phone" := S(OrEmpty(req.phone)),
      "first_name" := S(req.firstName),
      "last_name" := S(req.lastName),
      "avatar_url" := S(OrEmpty(req.avatarUrl)),
      "password_hash" := S(""),
      "auth_methods" := L([]),
      "GSI1PK" := S("EMAIL#" + Lower(req.email)),
      "GSI1SK" := S("PROFILE"),
      "created_at" := S(now),
      "updated_at" := S(now)
    ]
  }

  function SettingsRow(now: string): Item {
    map[
      "status" := S("active"),
      "email_verified" := Bool(false),
      "phone_verified" := Bool(false),
      "version" := N(0),
      "created_at" := S(now),
      "updated_at" := S(now)
    ]
  }

  function ReservationRow(id: string, email: string): Item {
    map["account_id" := S(id), "email" := S(Lower(email))]
  }

  function CreateItems(id: string, req: CreateRequest, now: string): seq<TransactItem> {
    [
      Put(ProfileKey(id), ProfileRow(id, req, now), NotExists),
      Put(SettingsKey(id), SettingsRow(now), NotExists),
      Put(ReservationKey(req.email), ReservationRow(id, req.email), NotExists)
    ]
  }

  const EMAIL_RESERVATION_INDEX := 2

  function WithAccount(t: Table, id: string, req: CreateRequest, now: string): Table {
    t[ProfileKey(id) := ProfileRow(id, req, now)]
     [SettingsKey(id) := SettingsRow(now)]
     [ReservationKey(req.email) := ReservationRow(id, req.email)]
  }

  /** The create transaction commits exactly when none of its three rows exists, and its
      failure index 2 means that only the email is taken. */
  lemma CreateTransaction(t: Table, id: string, req: CreateRequest, now: string)
    ensures
      var profile, settings, reserved :=
        ProfileKey(id) in t, SettingsKey(id) in t, ReservationKey(req.email) in t;
      Transact(t, CreateItems(id, req, now)) ==
        if profile then (ConditionFailed(0), t)
        else if settings then (ConditionFailed(1), t)
        else if reserved then (ConditionFailed(EMAIL_RESERVATION_INDEX), t)
        else (Written, WithAccount(t, id, req, now))
  {
    KeysApart();
    hide ProfileRow, SettingsRow, ReservationRow, AccountPK, EmailPK;
    var items := CreateItems(id, req, now);
    assert Sendable(items);
    if ProfileKey(id) !in t && SettingsKey(id) !in t && ReservationKey(req.email) !in t {
      assert FirstRefused(t, items, 0) == 3;
      assert items[..2] == [items[0], items[1]] && items[..2][..1] == [items[0]] && items[..1][..0] == [];
      assert ApplyAll(t, items[..1]) == t[ProfileKey(id) := ProfileRow(id, req, now)];
      assert ApplyAll(t, items[..2])
          == t[ProfileKey(id) := ProfileRow(id, req, now)][SettingsKey(id) := SettingsRow(now)];
    }
  }

  function ToModel(row: Item): Account {
    Account(
      StrAttr(row, "account_id"), StrAttr(row, "username"), StrAttr(row, "email"),
      OptStr(StrAttr(row, "phone")), StrAttr(row, "first_name"), StrAttr(row, "last_name"),
      OptStr(StrAttr(row, "avatar_url")))
  }

  /** What registration returns: empty optional texts count as absent. */
  ghost function AsRegistered(id: string, req: CreateRequest): Account {
    Account(id, req.username, Lower(req.email), if req.phone == Some("") then None else req.phone,
            req.firstName, req.lastName, if req.avatarUrl == Some("") then None else req.avatarUrl)
  }

  /** A profile just registered reads back as registered, its email in lower case, and its
      settings are unverified and active at version zero, without tags. */
  lemma RegistrationReadsBack(t: Table, id: string, req: CreateRequest, now: string)
    ensures var t' := WithAccount(t, id, req, now);
      && ProfileKey(id) in t' && SettingsKey(id) in t' && ReservationKey(req.email) in t'
      && ToModel(t'[ProfileKey(id)]) == AsRegistered(id, req)
      && var s := t'[SettingsKey(id)];
      && Attribute(s, "email_verified") == Some(Bool(false)) && Attribute(s, "phone_verified") == Some(Bool(false))
      && Attribute(s, "status") == Some(S("active")) && Attribute(s, "version") == Some(N(0)) && "tags" !in s
  {
    KeysApart();
    hide AccountPK, EmailPK;
    RegisteredProfile(id, req, now);
    RegisteredSettings(now);
    hide ProfileRow, SettingsRow, ToModel, Attribute;
    var t' := WithAccount(t, id, req, now);
    assert t'[ProfileKey(id)] == ProfileRow(id, req, now) && t'[SettingsKey(id)] == SettingsRow(now);
  }

  lemma RegisteredProfile(id: string, req: CreateRequest, now: string)
    ensures ToModel(ProfileRow(id, req, now)) == AsRegistered(id, req)
  {
  }

  lemma RegisteredSettings(now: string)
    ensures var s := SettingsRow(now);
      && Attribute(s, "email_verified") == Some(Bool(false)) && Attribute(s, "phone_verified") == Some(Bool(false))
      && Attribute(s, "status") == Some(S("active")) && Attribute(s, "version") == Some(N(0)) && "tags" !in s
  {
  }

  /** After one registration another account can be registered exactly if its email is another. */
  lemma SecondRegistration(t: Table, id: string, req: CreateRequest, now: string,
                           id2: string, req2: CreateRequest, now2: string)
    requires id != id2 && ProfileKey(id2) !in t && SettingsKey(id2) !in t && ReservationKey(req2.email) !in t
    ensures Transact(WithAccount(t, id, req, now), CreateItems(id2, req2, now2)).0 ==
              if SameButCase(req.email, req2.email) then ConditionFailed(EMAIL_RESERVATION_INDEX) else Written
  {
    KeysApart();
    CreateTransaction(WithAccount(t, id, req, now), id2, req2, now2);
    LowerAgrees(req.email, req2.email);
    hide Transact, CreateItems, ProfileRow, SettingsRow, ReservationRow, AccountPK, Lower;
  }

  // ---------- what the partial updates mean ----------

  const ACCOUNT_COLUMNS: seq<Column> := [
    Column("#ph", "phone", ":ph"),
    Column("#fn", "first_name", ":fn"),
    Column("#ln", "last_name", ":ln"),
    Column("#av", "avatar_url", ":av"),
    Column("#ua", "updated_at", ":ua")
  ]

  function AccountValues(req: UpdateRequest, now: string): (vals: seq<Option<Attr>>)
    ensures |vals| == |ACCOUNT_COLUMNS|
  {
    [Str(req.phone), Str(req.firstName), Str(req.lastName), Str(req.avatarUrl), Some(S(now))]
  }

  function AccountPatch(req: UpdateRequest, now: string): Item {
    PatchOf(ACCOUNT_COLUMNS, AccountValues(req, now))
  }

  const CREDENTIALS_COLUMNS: seq<Column> := [
    Column("#ph", "password_hash", ":ph"),
    Column("#am", "auth_methods", ":am"),
    Column("#ua", "updated_at", ":ua")
  ]

  function CredentialsValues(req: CredentialsRequest, now: string): (vals: seq<Option<Attr>>)
    ensures |vals| == |CREDENTIALS_COLUMNS|
  {
    [Str(req.passwordHash), if req.authMethods.Some? then Some(L(req.authMethods.value)) else None, Some(S(now))]
  }

  function CredentialsPatch(req: CredentialsRequest, now: string): Item {
    PatchOf(CREDENTIALS_COLUMNS, CredentialsValues(req, now))
  }

  lemma AccountColumnsDistinct()
    ensures DistinctColumns(ACCOUNT_COLUMNS) && DistinctColumns(CREDENTIALS_COLUMNS)
  {
  }

  method BuildAccountUpdate(req: UpdateRequest, now: string) returns (e: Expression)
    ensures e == ExpressionOf(NO_CLAUSES, ACCOUNT_COLUMNS, AccountValues(req, now))
  {
    ghost var cols, vals := ACCOUNT_COLUMNS, AccountValues(req, now);
    e := NO_CLAUSES;
    assert ExpressionOf(NO_CLAUSES, cols[..0], vals[..0]) == e;
    hide ExpressionOf;
    if req.phone.Some? {
      e := e.Set("#ph", "phone", ":ph", S(req.phone.value));
    }
    ExpressionStep(NO_CLAUSES, cols, vals, 0);
    if req.firstName.Some? {
      e := e.Set("#fn", "first_name", ":fn", S(req.firstName.value));
    }
    ExpressionStep(NO_CLAUSES, cols, vals, 1);
    if req.lastName.Some? {
      e := e.Set("#ln", "last_name", ":ln", S(req.lastName.value));
    }
    ExpressionStep(NO_CLAUSES, cols, vals, 2);
    if req.avatarUrl.Some? {
      e := e.Set("#av", "avatar_url", ":av", S(req.avatarUrl.value));
    }
    ExpressionStep(NO_CLAUSES, cols, vals, 3);
    e := e.Set("#ua", "updated_at", ":ua", S(now));
    ExpressionStep(NO_CLAUSES, cols, vals, 4);
    assert cols[..5] == cols && vals[..5] == vals;
  }

  method BuildCredentialsUpdate(req: CredentialsRequest, now: string) returns (e: Expression)
    ensures e == ExpressionOf(NO_CLAUSES, CREDENTIALS_COLUMNS, CredentialsValues(req, now))
  {
    ghost var cols, vals := CREDENTIALS_COLUMNS, CredentialsValues(req, now);
    e := NO_CLAUSES;
    assert ExpressionOf(NO_CLAUSES, cols[..0], vals[..0]) == e;
    hide ExpressionOf;
    if req.passwordHash.Some? {
      e := e.Set("#ph", "password_hash", ":ph", S(req.passwordHash.value));
    }
    ExpressionStep(NO_CLAUSES, cols, vals, 0);
    if req.authMethods.Some? {
      e := e.Set("#am", "auth_methods", ":am", L(req.authMethods.value));
    }
    ExpressionStep(NO_CLAUSES, cols, vals, 1);
    e := e.Set("#ua", "updated_at", ":ua", S(now));
    ExpressionStep(NO_CLAUSES, cols, vals, 2);
    assert cols[..3] == cols && vals[..3] == vals;
  }

  lemma PatchesStamp(req: UpdateRequest, creds: CredentialsRequest, now: string)
    ensures "updated_at" in AccountPatch(req, now) && "updated_at" in CredentialsPatch(creds, now)
  {
    AccountColumnsDistinct();
    PatchOfAt(ACCOUNT_COLUMNS, AccountValues(req, now), 4);
    PatchOfAt(CREDENTIALS_COLUMNS, CredentialsValues(creds, now), 2);
  }

  /** The built expressions are accepted and overwrite exactly the supplied fields and the stamp. */
  lemma AccountUpdateMeansPatch(req: UpdateRequest, creds: CredentialsRequest, now: string)
    ensures
      var u := ExpressionOf(NO_CLAUSES, ACCOUNT_COLUMNS, AccountValues(req, now)).ToUpdate();
      WellFormed(u, Exists) && forall row :: ApplyTo(u, Exists, row) == row + AccountPatch(req, now)
    ensures
      var u := ExpressionOf(NO_CLAUSES, CREDENTIALS_COLUMNS, CredentialsValues(creds, now)).ToUpdate();
      WellFormed(u, Exists) && forall row :: ApplyTo(u, Exists, row) == row + CredentialsPatch(creds, now)
  {
    AccountColumnsDistinct();
    PatchesStamp(req, creds, now);
    hide ACCOUNT_COLUMNS, CREDENTIALS_COLUMNS, ExpressionOf, PatchOf, Means;
    ColumnsBuild(NO_CLAUSES, ACCOUNT_COLUMNS, AccountValues(req, now));
    BuiltUpdateMeansPatch(
      ExpressionOf(NO_CLAUSES, ACCOUNT_COLUMNS, AccountValues(req, now)), Exists, AccountPatch(req, now), {}, {});
    ColumnsBuild(NO_CLAUSES, CREDENTIALS_COLUMNS, CredentialsValues(creds, now));
    BuiltUpdateMeansPatch(
      ExpressionOf(NO_CLAUSES, CREDENTIALS_COLUMNS, CredentialsValues(creds, now)), Exists,
      CredentialsPatch(creds, now), {}, {});
  }

  /** Two profile updates in a row are one update by the right-biased merge. */
  lemma AccountPatchesMerge(row: Item, a: UpdateRequest, b: UpdateRequest, t1: string, t2: string)
    ensures
      row + AccountPatch(a, t1) + AccountPatch(b, t2) ==
      row + AccountPatch(
        UpdateRequest(Later(a.phone, b.phone), Later(a.firstName, b.firstName),
                      Later(a.lastName, b.lastName), Later(a.avatarUrl, b.avatarUrl)), t2)
  {
    var merged := UpdateRequest(Later(a.phone, b.phone), Later(a.firstName, b.firstName),
                                Later(a.lastName, b.lastName), Later(a.avatarUrl, b.avatarUrl));
    AccountColumnsDistinct();
    hide ACCOUNT_COLUMNS, PatchOf, DistinctColumns;
    PatchesMerge(ACCOUNT_COLUMNS, AccountValues(a, t1), AccountValues(b, t2), AccountValues(merged, t2));
    assert row + AccountPatch(a, t1) + AccountPatch(b, t2) == row + (AccountPatch(a, t1) + AccountPatch(b, t2));
  }

  /** No partial update can touch what identifies the account or serves the email lookup. */
  lemma PatchesKeepIdentity(req: UpdateRequest, creds: CredentialsRequest, now: string)
    ensures AccountPatch(req, now).Keys <= {"phone", "first_name", "last_name", "avatar_url", "updated_at"}
    ensures CredentialsPatch(creds, now).Keys <= {"password_hash", "auth_methods", "updated_at"}
  {
    PatchOfKeys(ACCOUNT_COLUMNS, AccountValues(req, now));
    PatchOfKeys(CREDENTIALS_COLUMNS, CredentialsValues(creds, now));
  }

  /** What a profile update asks for, attribute by attribute. */
  ghost predicate ProfileOverwritten(row: Item, row': Item, req: UpdateRequest, now: string) {
    && Attribute(row', "phone") == TextOr(req.phone, Attribute(row, "phone"))
    && Attribute(row', "first_name") == TextOr(req.firstName, Attribute(row, "first_name"))
    && Attribute(row', "last_name") == TextOr(req.lastName, Attribute(row, "last_name"))
    && Attribute(row', "avatar_url") == TextOr(req.avatarUrl, Attribute(row, "avatar_url"))
    && Attribute(row', "updated_at") == Some(S(now))
    && forall attr | attr !in {"phone", "first_name", "last_name", "avatar_url", "updated_at"} ::
         Attribute(row', attr) == Attribute(row, attr)
  }

  ghost predicate SecretsOverwritten(row: Item, row': Item, req: CredentialsRequest, now: string) {
    && Attribute(row', "password_hash") == TextOr(req.passwordHash, Attribute(row, "password_hash"))
    && Attribute(row', "auth_methods") == ListOr(req.authMethods, Attribute(row, "auth_methods"))
    && Attribute(row', "updated_at") == Some(S(now))
    && forall attr | attr !in {"password_hash", "auth_methods", "updated_at"} ::
         Attribute(row', attr) == Attribute(row, attr)
  }

  lemma AccountColumnAttrs(req: UpdateRequest, now: string)
    ensures var cols, vals := ACCOUNT_COLUMNS, AccountValues(req, now);
      && |cols| == |vals| == 5
      && cols[0].attr == "phone" && cols[1].attr == "first_name" && cols[2].attr == "last_name"
      && cols[3].attr == "avatar_url" && cols[4].attr == "updated_at"
      && AttrsOf(cols) == {"phone", "first_name", "last_name", "avatar_url", "updated_at"}
      && vals == [Str(req.phone), Str(req.firstName), Str(req.lastName), Str(req.avatarUrl), Some(S(now))]
  {
    var cols := ACCOUNT_COLUMNS;
    assert cols == [cols[0], cols[1], cols[2], cols[3], cols[4]];
    assert AttrsOf(cols) == {cols[0].attr, cols[1].attr, cols[2].attr, cols[3].attr, cols[4].attr};
  }

  lemma ProfileIsOverwritten(row: Item, req: UpdateRequest, now: string)
    ensures ProfileOverwritten(row, row + AccountPatch(req, now), req, now)
  {
    hide PatchOf, DistinctColumns, ACCOUNT_COLUMNS, AccountValues, AttrsOf;
    AccountColumnsDistinct();
    AccountColumnAttrs(req, now);
    OverwrittenAt(row, ACCOUNT_COLUMNS, AccountValues(req, now));
  }

  /** A profile update does to each attribute what its request asks for, and nothing else. */
  lemma ProfileOverwrites(row: Item, row': Item, req: UpdateRequest, now: string)
    ensures ProfileOverwritten(row, row', req, now) <==> row' == row + AccountPatch(req, now)
  {
    hide AccountPatch, TextOr;
    ProfileIsOverwritten(row, req, now);
    if ProfileOverwritten(row, row', req, now) {
      SameAttributes(row', row + AccountPatch(req, now));
    }
  }

  /** The profile then reads back with the supplied names, and with its old ones where none is. */
  lemma UpdatedProfileReadsBack(row: Item, row': Item, req: UpdateRequest, now: string)
    requires ProfileOverwritten(row, row', req, now)
    ensures var before := ToModel(row);
      ToModel(row') == before.(
        phone := if req.phone.None? then before.phone else if req.phone == Some("") then None else req.phone,
        firstName := if req.firstName.Some? then req.firstName.value else before.firstName,
        lastName := if req.lastName.Some? then req.lastName.value else before.lastName,
        avatarUrl := if req.avatarUrl.None? then before.avatarUrl
                     else if req.avatarUrl == Some("") then None else req.avatarUrl)
  {
    UntouchedProfile(row, row', req, now);
    SameText(row, row', "account_id");
    SameText(row, row', "username");
    SameText(row, row', "email");
    TextShows(row, row', "phone", req.phone);
    TextShows(row, row', "first_name", req.firstName);
    TextShows(row, row', "last_name", req.lastName);
    TextShows(row, row', "avatar_url", req.avatarUrl);
    hide StrAttr, Attribute, TextOr, ProfileOverwritten;
  }

  lemma UntouchedProfile(row: Item, row': Item, req: UpdateRequest, now: string)
    requires ProfileOverwritten(row, row', req, now)
    ensures Attribute(row', "account_id") == Attribute(row, "account_id")
    ensures Attribute(row', "username") == Attribute(row, "username")
    ensures Attribute(row', "email") == Attribute(row, "email")
  {
  }

  lemma SameText(row: Item, row': Item, attr: string)
    requires Attribute(row', attr) == Attribute(row, attr)
    ensures StrAttr(row', attr) == StrAttr(row, attr)
  {
  }

  lemma TextShows(row: Item, row': Item, attr: string, v: Option<string>)
    requires Attribute(row', attr) == TextOr(v, Attribute(row, attr))
    ensures StrAttr(row', attr) == if v.Some? then v.value else StrAttr(row, attr)
  {
  }

  lemma SecretsColumnAttrs(req: CredentialsRequest, now: string)
    ensures var cols, vals := CREDENTIALS_COLUMNS, CredentialsValues(req, now);
      && |cols| == |vals| == 3
      && cols[0].attr == "password_hash" && cols[1].attr == "auth_methods" && cols[2].attr == "updated_at"
      && AttrsOf(cols) == {"password_hash", "auth_methods", "updated_at"}
      && vals[0] == Str(req.passwordHash) && vals[2] == Some(S(now))
      && vals[1] == if req.authMethods.Some? then Some(L(req.authMethods.value)) else None
  {
    var cols := CREDENTIALS_COLUMNS;
    assert cols == [cols[0], cols[1], cols[2]];
    assert AttrsOf(cols) == {cols[0].attr, cols[1].attr, cols[2].attr};
  }

  lemma SecretsAreOverwritten(row: Item, req: CredentialsRequest, now: string)
    ensures SecretsOverwritten(row, row + CredentialsPatch(req, now), req, now)
  {
    hide PatchOf, DistinctColumns, CREDENTIALS_COLUMNS, CredentialsValues, AttrsOf;
    AccountColumnsDistinct();
    SecretsColumnAttrs(req, now);
    OverwrittenAt(row, CREDENTIALS_COLUMNS, CredentialsValues(req, now));
  }

  lemma SecretsOverwrites(row: Item, row': Item, req: CredentialsRequest, now: string)
    ensures SecretsOverwritten(row, row', req, now) <==> row' == row + CredentialsPatch(req, now)
  {
    hide CredentialsPatch, TextOr, ListOr;
    SecretsAreOverwritten(row, req, now);
    if SecretsOverwritten(row, row', req, now) {
      SameAttributes(row', row + CredentialsPatch(req, now));
    }
  }

  // ---------- lookup by email ----------

  function TheKey(keys: set<Key>): (k: Key)
    requires |keys| == 1
    ensures keys == {k}
  {
    SingletonHasOne(keys);
    var k :| k in keys;
    k
  }

  lemma SingletonHasOne(keys: set<Key>)
    requires |keys| == 1
    ensures forall a, b :: a in keys && b in keys ==> a == b
    ensures exists k :: k in keys
    ensures forall k :: k in keys ==> keys == {k}
  {
    var k :| k in keys;
    assert |keys - {k}| == 0;
    assert keys == {k};
  }

  function Resolve(t: Table, email: string): Result<string> {
    var hits := Indexed(t, EmailPK(email), "PROFILE");
    if |hits| == 0 then Err(NotFound)
    else if |hits| > 1 then Err(EmailAlreadyExists)
    else
      assert TheKey(hits) in hits;
      Ok(StrAttr(t[TheKey(hits)], "account_id"))
  }

  function CredentialsOf(profile: Item, settings: Option<Item>): Credentials {
    var s := if settings.Some? then settings.value else map[];
    Credentials(
      StrAttr(profile, "account_id"), OptStr(StrAttr(profile, "password_hash")),
      BoolAttr(s, "email_verified"), ListAttr(profile, "auth_methods"),
      if StrAttr(s, "status") == "" then "active" else StrAttr(s, "status"))
  }

  function ReturnedIf(present: bool, t: Table, k: Key): Option<Item> {
    if present && k in t then Some(Returned(k, t[k])) else None
  }

  /** The key attributes a read adds do not show in the credentials. */
  lemma ReturnedCredentials(t: Table, id: string)
    requires ProfileKey(id) in t
    ensures CredentialsOf(Returned(ProfileKey(id), t[ProfileKey(id)]),
                          ReturnedIf(SettingsKey(id) in t, t, SettingsKey(id)))
         == CredentialsOf(t[ProfileKey(id)], Row(t, SettingsKey(id)))
  {
  }

  function Lookup(t: Table, email: string): Result<Credentials> {
    match Resolve(t, email)
    case Err(e) => Err(e)
    case Ok(id) =>
      if ProfileKey(id) in t
      then Ok(CredentialsOf(t[ProfileKey(id)], Row(t, SettingsKey(id))))
      else Err(NotFound)
  }

  // ---------- erasure plans ----------

  const ERASURE_CHUNK_SIZE := 100

  function HasKeys(item: Item): bool {
    "PK" in item && "SK" in item && item["PK"].S? && item["SK"].S?
  }

  function KeyOfItem(item: Item): Key
    requires HasKeys(item)
  {
    Key(item["PK"].s, item["SK"].s)
  }

  predicate IsProfileItem(item: Item) {
    HasKeys(item) && item["SK"].s == "PROFILE"
  }

  function ChildKeys(items: seq<Item>): seq<Key> {
    if items == [] then []
    else
      var front, last := ChildKeys(items[..|items| - 1]), items[|items| - 1];
      if HasKeys(last) && !IsProfileItem(last) then front + [KeyOfItem(last)] else front
  }

  function IdentityKeys(items: seq<Item>): seq<Key> {
    if items == [] then []
    else
      var front, last := IdentityKeys(items[..|items| - 1]), items[|items| - 1];
      if IsProfileItem(last) then front + [KeyOfItem(last), ReservationKey(StrAttr(last, "email"))] else front
  }

  predicate Unreadable(item: Item) {
    IsProfileItem(item) && StrAttr(item, "email") == ""
  }

  datatype ErasurePlan = ErasurePlan(children: seq<TransactItem>, identity: seq<TransactItem>)

  /** Splits queried rows into the rows to delete first and the identity rows to delete last. */
  method BuildErasurePlan(items: seq<Item>) returns (r: Result<ErasurePlan>)
    ensures (exists i :: 0 <= i < |items| && Unreadable(items[i])) ==> r == Err(Internal)
    ensures (forall i :: 0 <= i < |items| ==> !Unreadable(items[i])) ==>
              r == if IdentityKeys(items) == [] then Err(NotFound)
                   else Ok(ErasurePlan(Deletes(ChildKeys(items)), Deletes(IdentityKeys(items))))
  {
    var children: seq<TransactItem>, identity: seq<TransactItem> := [], [];
    for i := 0 to |items|
      invariant children == Deletes(ChildKeys(items[..i]))
      invariant identity == Deletes(IdentityKeys(items[..i]))
      invariant forall j :: 0 <= j < i ==> !Unreadable(items[j])
    {
      var item := items[i];
      assert items[..i + 1][..i] == items[..i];
      if !HasKeys(item) {
        continue;
      }
      var del := Delete(KeyOfItem(item));
      if item["SK"].s != "PROFILE" {
        children := children + [del];
        continue;
      }
      if "email" !in item || !item["email"].S? || item["email"].s == "" {
        return Err(Internal);
      }
      identity := identity + [del, Delete(ReservationKey(item["email"].s))];
    }
    assert items[..|items|] == items;
    if |identity| == 0 {
      return Err(NotFound);
    }
    return Ok(ErasurePlan(children, identity));
  }

  /** The children of a partition in the order in which `keys` lists it. */
  function WithoutProfile(keys: seq<Key>): seq<Key> {
    if keys == [] then []
    else
      var front, last := WithoutProfile(keys[..|keys| - 1]), keys[|keys| - 1];
      if last.sk != "PROFILE" then front + [last] else front
  }

  lemma {:induction false} WithoutProfileIsRest(keys: seq<Key>)
    requires Distinct(keys)
    ensures Distinct(WithoutProfile(keys))
    ensures forall k :: k in WithoutProfile(keys) <==> k in keys && k.sk != "PROFILE"
    ensures |WithoutProfile(keys)| <= |keys|
  {
    if keys != [] {
      var front, last := keys[..|keys| - 1], keys[|keys| - 1];
      WithoutProfileIsRest(front);
      assert keys == front + [last];
      assert last !in front;
    }
  }

  lemma ReturnedItemKinds(k: Key, row: Item)
    ensures var item := Returned(k, row);
      && HasKeys(item) && KeyOfItem(item) == k
      && (IsProfileItem(item) <==> k.sk == "PROFILE")
      && StrAttr(item, "email") == StrAttr(row, "email")
  {
  }

  /** For rows queried from one partition, the plan's children are the non-profile rows in
      query order ... */
  lemma {:induction false} ChildrenOfRows(t: Table, keys: seq<Key>)
    requires forall k | k in keys :: k in t
    ensures ChildKeys(ReturnedAll(t, keys)) == WithoutProfile(keys)
  {
    if keys != [] {
      hide Returned, ReturnedAll, HasKeys, IsProfileItem, KeyOfItem, StrAttr;
      var n := |keys| - 1;
      ChildrenOfRows(t, keys[..n]);
      ReturnedAllStep(t, keys);
      ReturnedItemKinds(keys[n], t[keys[n]]);
    }
  }

  /** ... and its identity keys are the profile and its reservation. */
  lemma {:induction false} IdentityOfRows(t: Table, id: string, keys: seq<Key>)
    requires Distinct(keys) && forall k | k in keys :: k in t && k.pk == AccountPK(id)
    ensures IdentityKeys(ReturnedAll(t, keys)) == if ProfileKey(id) in keys then IdentityOf(t, id) else []
  {
    if keys != [] {
      hide Returned, ReturnedAll, HasKeys, IsProfileItem, KeyOfItem, StrAttr, EmailPK, AccountPK;
      var n := |keys| - 1;
      IdentityOfRows(t, id, keys[..n]);
      assert keys[n] !in keys[..n];
      if keys[n] != ProfileKey(id) {
        assert ProfileKey(id) in keys <==> ProfileKey(id) in keys[..n];
      }
      ReturnedAllStep(t, keys);
      ReturnedItemKinds(keys[n], t[keys[n]]);
    }
  }

  lemma UnreadableRows(t: Table, id: string, keys: seq<Key>)
    requires forall k | k in keys :: k in t && k.pk == AccountPK(id)
    ensures (exists i :: 0 <= i < |keys| && Unreadable(ReturnedAll(t, keys)[i]))
       <==> ProfileKey(id) in keys && !Erasable(t, id)
  {
    hide Returned, HasKeys, IsProfileItem, KeyOfItem, StrAttr, AccountPK;
    var items := ReturnedAll(t, keys);
    forall i | 0 <= i < |keys|
      ensures Unreadable(items[i]) <==> keys[i] == ProfileKey(id) && !Erasable(t, id)
    {
      ReturnedItemKinds(keys[i], t[keys[i]]);
    }
    if ProfileKey(id) in keys && !Erasable(t, id) {
      var i :| 0 <= i < |keys| && keys[i] == ProfileKey(id);
      assert Unreadable(items[i]);
    }
  }

  // ---------- chunks ----------

  /** The consecutive slices the erasure loop submits. */
  function Chunks<T>(s: seq<T>): seq<seq<T>> {
    if s == [] then []
    else if |s| <= ERASURE_CHUNK_SIZE then [s]
    else [s[..ERASURE_CHUNK_SIZE]] + Chunks(s[ERASURE_CHUNK_SIZE..])
  }

  function Flatten<T>(ss: seq<seq<T>>): seq<T> {
    if ss == [] then [] else ss[0] + Flatten(ss[1..])
  }

  /** Chunking loses, repeats and reorders nothing, every chunk is a legal transaction size,
      and only the last one may be short. */
  lemma {:induction false} ChunksPartition<T>(s: seq<T>)
    ensures Flatten(Chunks(s)) == s
    ensures |Chunks(s)| == (|s| + ERASURE_CHUNK_SIZE - 1) / ERASURE_CHUNK_SIZE
    ensures forall i :: 0 <= i < |Chunks(s)| ==> 1 <= |Chunks(s)[i]| <= ERASURE_CHUNK_SIZE
    ensures forall i :: 0 <= i < |Chunks(s)| - 1 ==> |Chunks(s)[i]| == ERASURE_CHUNK_SIZE
  {
    if s != [] && |s| <= ERASURE_CHUNK_SIZE {
      assert Flatten([s]) == s + Flatten([[]][1..]) == s;
    } else if s != [] {
      var rest := s[ERASURE_CHUNK_SIZE..];
      ChunksPartition(rest);
      assert Chunks(s)[1..] == Chunks(rest);
      forall i | 0 <= i < |Chunks(s)| - 1 ensures |Chunks(s)[i]| == ERASURE_CHUNK_SIZE {
        if i > 0 {
          assert Chunks(s)[i] == Chunks(rest)[i - 1];
        }
      }
    }
  }

  lemma ChunksUnfold<T>(s: seq<T>, start: nat)
    requires start < |s|
    ensures var end := Min(start + ERASURE_CHUNK_SIZE, |s|);
      Chunks(s[start..]) == [s[start..end]] + Chunks(s[end..])
  {
    var rest := s[start..];
    if |rest| > ERASURE_CHUNK_SIZE {
      assert rest[..ERASURE_CHUNK_SIZE] == s[start..start + ERASURE_CHUNK_SIZE];
      assert rest[ERASURE_CHUNK_SIZE..] == s[start + ERASURE_CHUNK_SIZE..];
    } else {
      assert rest == s[start..|s|];
    }
  }

  lemma DeletesSlice(keys: seq<Key>, start: nat, end: nat)
    requires start <= end <= |keys|
    ensures |Deletes(keys)| == |keys| && Deletes(keys)[start..end] == Deletes(keys[start..end])
  {
  }

  /** What may have happened to the table when an erasure of `id` did not finish: some rows
      of the partition other than the profile are gone, and nothing else has changed. */
  ghost predicate PartlyErased(before: Table, after: Table, id: string) {
    forall k :: Row(after, k) == Row(before, k)
             || (Row(after, k) == None && k.pk == AccountPK(id) && k.sk != "PROFILE")
  }

  /** The table after a completed erasure. */
  function Erased(t: Table, id: string): Table {
    map k | k in t && k.pk != AccountPK(id)
                   && k != ReservationKey(StrAttr(if ProfileKey(id) in t then t[ProfileKey(id)] else map[], "email"))
          :: t[k]
  }

  ghost predicate Erasable(t: Table, id: string) {
    ProfileKey(id) in t && StrAttr(t[ProfileKey(id)], "email") != ""
  }

  function IdentityOf(t: Table, id: string): seq<Key>
    requires ProfileKey(id) in t
  {
    [ProfileKey(id), ReservationKey(StrAttr(t[ProfileKey(id)], "email"))]
  }

  lemma IdentityDistinct(t: Table, id: string)
    requires ProfileKey(id) in t
    ensures Distinct(IdentityOf(t, id))
  {
  }

  lemma QueriedPartition(t: Table, id: string, keys: seq<Key>)
    requires Enumerates(keys, t, AccountPK(id), "")
    ensures forall k :: k in keys <==> k in t && k.pk == AccountPK(id)
  {
  }

  /** Deleting the children and then the identity rows leaves exactly `Erased`. */
  lemma ErasedInTwoSteps(t: Table, id: string, keys: seq<Key>)
    requires Enumerates(keys, t, AccountPK(id), "") && ProfileKey(id) in t
    ensures t - SetOf(WithoutProfile(keys)) - SetOf(IdentityOf(t, id)) == Erased(t, id)
  {
    QueriedPartition(t, id, keys);
    WithoutProfileIsRest(keys);
  }

  /** For any partition that holds its profile, the plan splits the queried rows into children
      and profile, submits the children in order in legal transactions, and needs one more
      transaction of two rows. */
  lemma PlanPartitionsWork(t: Table, id: string, keys: seq<Key>)
    requires Enumerates(keys, t, AccountPK(id), "") && ProfileKey(id) in t
    ensures var children := WithoutProfile(keys);
      && SetOf(children) + {ProfileKey(id)} == SetOf(keys) && |children| == |keys| - 1
      && Flatten(Chunks(Deletes(children))) == Deletes(children)
      && (forall chunk | chunk in Chunks(Deletes(children)) :: Sendable(chunk))
    ensures Sendable(Deletes(IdentityOf(t, id))) && |IdentityOf(t, id)| == 2
  {
    var children := WithoutProfile(keys);
    assert Sendable(Deletes(IdentityOf(t, id))) by {
      IdentityDistinct(t, id);
    }
    hide AccountPK, EmailPK, Chunks, Flatten;
    QueriedPartition(t, id, keys);
    WithoutProfileIsRest(keys);
    assert SetOf(children) + {ProfileKey(id)} == SetOf(keys);
    DistinctSize(children);
    DistinctSize(keys);
    ChunksPartition(Deletes(children));
    ChunksSendable(children);
  }

  lemma {:induction false} ChunksSendable(keys: seq<Key>)
    requires Distinct(keys)
    ensures forall chunk | chunk in Chunks(Deletes(keys)) :: Sendable(chunk)
    decreases |keys|
  {
    if |keys| > ERASURE_CHUNK_SIZE {
      var first, rest := keys[..ERASURE_CHUNK_SIZE], keys[ERASURE_CHUNK_SIZE..];
      DeletesSlice(keys, 0, ERASURE_CHUNK_SIZE);
      DeletesSlice(keys, ERASURE_CHUNK_SIZE, |keys|);
      assert Deletes(keys)[..ERASURE_CHUNK_SIZE] == Deletes(first);
      assert Deletes(keys)[ERASURE_CHUNK_SIZE..] == Deletes(rest);
      ChunksSendable(rest);
    }
  }

  // ---------- the repository ----------

  class AccountRepo {
    const client: Client

    constructor (client: Client)
      ensures this.client == client
    {
      this.client := client;
    }

    method GetAccount(id: string) returns (r: Result<Account>)
      ensures client.healthy ==> r != Err(Internal)
      ensures r != Err(Internal) ==>
                r == if ProfileKey(id) in client.table then Ok(ToModel(client.table[ProfileKey(id)])) else Err(NotFound)
    {
      var ok, row := client.GetRow(ProfileKey(id));
      if !ok {
        return Err(Internal);
      }
      if row.None? {
        return Err(NotFound);
      }
      return Ok(ToModel(row.value));
    }

    method CreateAccount(id: string, req: CreateRequest, now: string) returns (r: Result<Account>)
      modifies client`table, client`journal
      ensures r.Ok? ==> r.value == AsRegistered(id, req)
      ensures r.Ok? ==>
                && ProfileKey(id) !in old(client.table) && SettingsKey(id) !in old(client.table)
                && ReservationKey(req.email) !in old(client.table)
                && client.table == WithAccount(old(client.table), id, req, now)
      ensures r.Err? ==> client.table == old(client.table)
      ensures r == Err(AlreadyExists) ==> ProfileKey(id) in client.table || SettingsKey(id) in client.table
      ensures r == Err(EmailAlreadyExists) ==>
                && ReservationKey(req.email) in client.table
                && ProfileKey(id) !in client.table && SettingsKey(id) !in client.table
      ensures r.Ok? || r.error in {AlreadyExists, EmailAlreadyExists, Internal}
      ensures client.healthy ==> r != Err(Internal)
    {
      CreateTransaction(client.table, id, req, now);
      RegisteredProfile(id, req, now);
      hide AsRegistered, ToModel, ProfileRow, SettingsRow, AccountPK, EmailPK;
      var w := client.TransactWrite(CreateItems(id, req, now));
      match w
      case Written => return Ok(ToModel(ProfileRow(id, req, now)));
      case ConditionFailed(index) =>
        if index == EMAIL_RESERVATION_INDEX {
          return Err(EmailAlreadyExists);
        }
        return Err(AlreadyExists);
      case _ => return Err(Internal);
    }

    method UpdateAccount(id: string, req: UpdateRequest, now: string) returns (r: Result<Account>)
      modifies client`table
      ensures r.Ok? ==>
                && ProfileKey(id) in old(client.table)
                && var row := old(client.table)[ProfileKey(id)] + AccountPatch(req, now);
                && client.table == old(client.table)[ProfileKey(id) := row]
                && ProfileOverwritten(old(client.table)[ProfileKey(id)], row, req, now)
                && r.value == ToModel(row)
      ensures r.Err? ==> client.table == old(client.table) && r.error in {NotFound, Internal}
      ensures r == Err(NotFound) ==> ProfileKey(id) !in client.table
      ensures client.healthy ==> r != Err(Internal)
    {
      hide AccountPatch, AccountValues, ACCOUNT_COLUMNS, ExpressionOf, WellFormed, ApplyTo, ToModel,
           ProfileOverwritten, AccountPK;
      var e := BuildAccountUpdate(req, now);
      if ProfileKey(id) in client.table {
        ProfileIsOverwritten(client.table[ProfileKey(id)], req, now);
      }
      AccountUpdateMeansPatch(req, CredentialsRequest(None, None), now);
      var w := client.UpdateRow(ProfileKey(id), e.ToUpdate(), Exists);
      match w
      case Written => return Ok(ToModel(client.table[ProfileKey(id)]));
      case ConditionFailed(_) => return Err(NotFound);
      case _ => return Err(Internal);
    }

    method UpdateAccountCredentials(id: string, req: CredentialsRequest, now: string) returns (s: Status)
      modifies client`table
      ensures s.Done? ==>
                && ProfileKey(id) in old(client.table)
                && var row := old(client.table)[ProfileKey(id)] + CredentialsPatch(req, now);
                && client.table == old(client.table)[ProfileKey(id) := row]
                && SecretsOverwritten(old(client.table)[ProfileKey(id)], row, req, now)
      ensures s.Failed? ==> client.table == old(client.table) && s.error in {NotFound, Internal}
      ensures s == Failed(NotFound) ==> ProfileKey(id) !in client.table
      ensures client.healthy ==> s != Failed(Internal)
    {
      hide CredentialsPatch, CredentialsValues, CREDENTIALS_COLUMNS, ExpressionOf, WellFormed, ApplyTo,
           SecretsOverwritten, AccountPK;
      var e := BuildCredentialsUpdate(req, now);
      if ProfileKey(id) in client.table {
        SecretsAreOverwritten(client.table[ProfileKey(id)], req, now);
      }
      AccountUpdateMeansPatch(UpdateRequest(None, None, None, None), req, now);
      var w := client.UpdateRow(ProfileKey(id), e.ToUpdate(), Exists);
      match w
      case Written => return Done;
      case ConditionFailed(_) => return Failed(NotFound);
      case _ => return Failed(Internal);
    }

    method ResolveAccountIdByEmail(email: string) returns (r: Result<string>)
      ensures client.healthy ==> r != Err(Internal)
      ensures r != Err(Internal) ==> r == Resolve(client.table, email)
    {
      var ok, items, keys := client.QueryIndex(EmailPK(email), "PROFILE");
      if !ok {
        return Err(Internal);
      }
      ghost var hits := Indexed(client.table, EmailPK(email), "PROFILE");
      DistinctSize(keys);
      assert SetOf(keys) == hits;
      if |items| == 0 {
        return Err(NotFound);
      }
      if |items| > 1 {
        return Err(EmailAlreadyExists);
      }
      assert keys[0] in hits;
      return Ok(StrAttr(items[0], "account_id"));
    }

    method GetAccountCredentialsByEmail(email: string) returns (r: Result<Credentials>)
      ensures client.healthy ==> r != Err(Internal)
      ensures r != Err(Internal) ==> r == Lookup(client.table, email)
    {
      var resolved := ResolveAccountIdByEmail(email);
      if resolved.Err? {
        return Err(resolved.error);
      }
      var id := resolved.value;
      var ok, items, keys := client.BatchGet([ProfileKey(id), SettingsKey(id)]);
      if !ok {
        return Err(Internal);
      }
      var profile, settings := PickRows(id, items, keys);
      if profile.None? {
        return Err(NotFound);
      }
      assert CredentialsOf(profile.value, settings)
          == CredentialsOf(client.table[ProfileKey(id)], Row(client.table, SettingsKey(id))) by {
        ReturnedCredentials(client.table, id);
      }
      return Ok(CredentialsOf(profile.value, settings));
    }

    /** Sorts the rows of a batch read into the profile and the settings row. */
    method PickRows(id: string, items: seq<Item>, ghost keys: seq<Key>)
      returns (profile: Option<Item>, settings: Option<Item>)
      requires forall k | k in keys :: k in client.table && k in {ProfileKey(id), SettingsKey(id)}
      requires items == ReturnedAll(client.table, keys)
      ensures profile == ReturnedIf(ProfileKey(id) in keys, client.table, ProfileKey(id))
      ensures settings == ReturnedIf(SettingsKey(id) in keys, client.table, SettingsKey(id))
    {
      hide Returned, AccountPK;
      profile, settings := None, None;
      for i := 0 to |items|
        invariant profile == ReturnedIf(ProfileKey(id) in keys[..i], client.table, ProfileKey(id))
        invariant settings == ReturnedIf(SettingsKey(id) in keys[..i], client.table, SettingsKey(id))
      {
        assert keys[..i + 1] == keys[..i] + [keys[i]];
        ReturnedShowsRow(keys[i], client.table[keys[i]], "email");
        if StrAttr(items[i], "SK") == "PROFILE" {
          profile := Some(items[i]);
        } else if StrAttr(items[i], "SK") == "SETTINGS" {
          settings := Some(items[i]);
        }
      }
      assert keys[..|items|] == keys;
    }

    /** Submits the deletes of the children in chunks of at most 100, in order. */
    method DeleteChildren(children: seq<TransactItem>, ghost childKeys: seq<Key>) returns (ok: bool)
      requires children == Deletes(childKeys) && Distinct(childKeys)
      modifies client`table, client`journal
      ensures ok ==> client.table == old(client.table) - SetOf(childKeys)
      ensures ok ==> client.journal == old(client.journal) + Chunks(children)
      ensures exists n :: 0 <= n <= |childKeys| && client.table == old(client.table) - SetOf(childKeys[..n])
      ensures client.healthy ==> ok
    {
      hide Deletes, Transact;
      var start := 0;
      ghost var done := 0;
      DeletesSlice(childKeys, 0, 0);
      assert childKeys[..0] == [] && children[0..] == children;
      while start < |children|
        invariant 0 <= done <= |children| && done == Min(start, |children|)
        invariant client.table == old(client.table) - SetOf(childKeys[..done])
        invariant client.journal + Chunks(children[done..]) == old(client.journal) + Chunks(children)
      {
        var end := Min(start + ERASURE_CHUNK_SIZE, |children|);
        ghost var chunk := childKeys[start..end];
        DeletesSlice(childKeys, start, end);
        TransactDeletes(client.table, chunk);
        ChunksUnfold(children, start);
        assert childKeys[..end] == childKeys[..start] + chunk;
        assert SetOf(childKeys[..end]) == SetOf(childKeys[..start]) + SetOf(chunk);
        var w := client.TransactWrite(children[start..end]);
        if !w.Written? {
          return false;
        }
        start := start + ERASURE_CHUNK_SIZE;
        done := end;
      }
      DeletesSlice(childKeys, 0, 0);
      assert childKeys[..done] == childKeys && children[done..] == [];
      return true;
    }

    /** Erases the account: children first, in chunks, then profile and reservation together. */
    method DeleteAccount(id: string) returns (s: Status, ghost keys: seq<Key>)
      modifies client`table, client`journal
      ensures s.Done? ==> Erasable(old(client.table), id) && client.table == Erased(old(client.table), id)
      ensures s.Done? ==>
                && Enumerates(keys, old(client.table), AccountPK(id), "")
                && client.journal == old(client.journal) + Chunks(Deletes(WithoutProfile(keys)))
                                     + [Deletes(IdentityOf(old(client.table), id))]
      ensures s.Failed? ==> PartlyErased(old(client.table), client.table, id) && s.error in {NotFound, Internal}
      ensures s == Failed(NotFound) ==> ProfileKey(id) !in client.table
      ensures !Erasable(old(client.table), id) ==> client.table == old(client.table)
      ensures client.healthy && Erasable(old(client.table), id) ==> s.Done?
      ensures client.healthy && ProfileKey(id) !in old(client.table) ==> s == Failed(NotFound)
    {
      hide Returned, StrAttr, AccountPK, EmailPK, IsProfileItem, HasKeys, ChildKeys, IdentityKeys, WithoutProfile;
      var ok, items;
      ok, items, keys := client.Query(AccountPK(id), "");
      if !ok {
        return Failed(Internal), keys;
      }
      ghost var before := client.table;
      QueriedPartition(before, id, keys);
      if |items| == 0 {
        return Failed(NotFound), keys;
      }
      ChildrenOfRows(before, keys);
      IdentityOfRows(before, id, keys);
      UnreadableRows(before, id, keys);
      var plan := BuildErasurePlan(items);
      if plan.Err? {
        return Failed(plan.error), keys;
      }
      ghost var childKeys := WithoutProfile(keys);
      WithoutProfileIsRest(keys);
      var deleted := DeleteChildren(plan.value.children, childKeys);
      if !deleted {
        return Failed(Internal), keys;
      }
      var w;
      assert IdentityOf(before, id) == IdentityKeys(items);
      IdentityDistinct(before, id);
      TransactDeletes(client.table, IdentityOf(before, id));
      w := client.TransactWrite(plan.value.identity);
      if !w.Written? {
        return Failed(Internal), keys;
      }
      ErasedInTwoSteps(before, id, keys);
      return Done, keys;
    }
  }

  function Min(a: int, b: int): int {
    if a < b then a else b
  }
}
