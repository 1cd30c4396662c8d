/** What the account service's caches and event stream have to agree with: the table as it is
    now, the table as it was when an entry was cached, and the phone the table stores. The
    service keeps `Coherent` call by call; each lemma here is one way its state can change. */
module Coherence {
  import opened Basics
  import opened Dynamo
  import opened Accounts
  import opened Identity
  import opened TtlCache

  /** The table at a moment the service read the clock. */
  datatype Moment = Moment(at: int, table: Table)

  datatype Event =
    | Registered(id: string)
    | ProfileUpdated(id: string, fields: seq<string>)
    | PhoneChanged(id: string, oldPhone: string, newPhone: string)
    | AccountDeleted(id: string)

  datatype View = View(
    table: Table,
    profiles: map<string, Entry<Account>>,
    credentials: map<string, Entry<Credentials>>,
    ttl: int,
    history: seq<Moment>,
    stale: set<string>,
    events: seq<Event>,
    born: map<string, string>,
    lost: set<string>)

  // ---------- the parts of the invariant ----------

  function EmailOf(t: Table, id: string): string
    requires ProfileKey(id) in t
  {
    StrAttr(t[ProfileKey(id)], "email")
  }

  function PhoneOf(t: Table, id: string): string
    requires ProfileKey(id) in t
  {
    StrAttr(t[ProfileKey(id)], "phone")
  }

  /** What the repository would answer for a profile now. */
  function ProfileNow(t: Table, id: string): Result<Account> {
    if ProfileKey(id) in t then Ok(ToModel(t[ProfileKey(id)])) else Err(NotFound)
  }

  ghost predicate ProfilesCurrent(t: Table, m: map<string, Entry<Account>>) {
    forall id | id in m :: ProfileNow(t, id) == Ok(m[id].value)
  }

  /** Some recorded moment `at` is one at which the lookup gave these credentials. */
  ghost predicate TrueAt(history: seq<Moment>, key: string, c: Credentials, at: int) {
    exists i :: 0 <= i < |history| && history[i].at == at && Lookup(history[i].table, key) == Ok(c)
  }

  ghost predicate CredentialsWereTrue(history: seq<Moment>, m: map<string, Entry<Credentials>>, ttl: int) {
    forall key | key in m :: Lower(key) == key && TrueAt(history, key, m[key].value, m[key].expiresAt - ttl)
  }

  /** The account, the password hash and the sign-in methods are those a lookup gives now. */
  ghost predicate Agrees(t: Table, email: string, c: Credentials) {
    var now := Lookup(t, email);
    && now.Ok? && now.value.accountId == c.accountId
    && now.value.passwordHash == c.passwordHash && now.value.authMethods == c.authMethods
  }

  ghost predicate CredentialsCurrent(t: Table, m: map<string, Entry<Credentials>>, stale: set<string>) {
    forall key | key in m && key !in stale :: Agrees(t, key, m[key].value)
  }

  /** The phone after the events since the last registration, starting from `born`. */
  function PhoneAfter(events: seq<Event>, id: string, born: string): string {
    if events == [] then born
    else
      var front, last := events[..|events| - 1], events[|events| - 1];
      if last == Registered(id) then born
      else if last.PhoneChanged? && last.id == id then last.newPhone
      else PhoneAfter(front, id, born)
  }

  /** Each phone change since the last registration starts where the one before it ended, and
      changes something. */
  ghost predicate Chained(events: seq<Event>, id: string, born: string) {
    if events == [] then true
    else
      var front, last := events[..|events| - 1], events[|events| - 1];
      if last == Registered(id) then true
      else
        && (last.PhoneChanged? && last.id == id ==>
              last.oldPhone == PhoneAfter(front, id, born) && last.newPhone != last.oldPhone)
        && Chained(front, id, born)
  }

  ghost predicate PhoneReplays(t: Table, id: string, events: seq<Event>, born: map<string, string>)
    requires ProfileKey(id) in t
  {
    id in born && Chained(events, id, born[id]) && PhoneAfter(events, id, born[id]) == PhoneOf(t, id)
  }

  ghost predicate PhonesReplay(t: Table, events: seq<Event>, born: map<string, string>, lost: set<string>) {
    forall id :: ProfileKey(id) in t && id !in lost ==> PhoneReplays(t, id, events, born)
  }

  ghost predicate Coherent(v: View) {
    && OneToOne(v.table)
    && ProfilesCurrent(v.table, v.profiles)
    && CredentialsWereTrue(v.history, v.credentials, v.ttl)
    && CredentialsCurrent(v.table, v.credentials, v.stale)
    && PhonesReplay(v.table, v.events, v.born, v.lost)
  }

  ghost function Phones(t: Table): map<string, string> {
    map id | id in (set k | k in t :: OwnerOf(k)) && ProfileKey(id) in t :: PhoneOf(t, id)
  }

  /** A service that starts on a consistent table, with empty caches, is coherent. */
  lemma StartsCoherent(t: Table, ttl: int)
    requires OneToOne(t)
    ensures Coherent(View(t, map[], map[], ttl, [], {}, [], Phones(t), {}))
  {
    hide OneToOne, StrAttr, AccountPK, OwnerOf;
    forall id | ProfileKey(id) in t ensures PhoneReplays(t, id, [], Phones(t)) {
      OwnerOfAccount(id, "PROFILE");
      assert OwnerOf(ProfileKey(id)) == id;
    }
  }

  // ---------- the lookup through the reservation ----------

  function HolderOf(t: Table, email: string): string
    requires ReservationKey(email) in t
  {
    StrAttr(t[ReservationKey(email)], "account_id")
  }

  lemma LookupHolder(t: Table, email: string)
    requires OneToOne(t)
    ensures ReservationKey(email) in t ==>
              var id := HolderOf(t, email);
              && ProfileKey(id) in t && EmailOf(t, id) == Lower(email)
              && Lookup(t, email) == Ok(CredentialsOf(t[ProfileKey(id)], Row(t, SettingsKey(id))))
    ensures ReservationKey(email) !in t ==> Lookup(t, email) == Err(NotFound)
  {
    hide OneToOne, Resolve, AccountPK, EmailPK, CredentialsOf;
    LookupIsExact(t, email);
  }

  /** The status and the email verification are those of the settings row, if there is one and it
      has them; the rest is the profile's. */
  lemma LookupShows(t: Table, email: string, c: Credentials)
    requires OneToOne(t) && Lookup(t, email) == Ok(c)
    ensures ProfileKey(c.accountId) in t && EmailOf(t, c.accountId) == Lower(email)
    ensures var profile, settings := t[ProfileKey(c.accountId)], Row(t, SettingsKey(c.accountId));
      && (c.emailVerified <==>
            settings.Some? && Attribute(settings.value, "email_verified") == Some(Bool(true)))
      && (forall x | settings.Some? && x != "" :: Attribute(settings.value, "status") == Some(S(x)) ==> c.status == x)
      && (settings.None? ==> c.status == "active")
      && (settings.Some? && Attribute(settings.value, "status") in {None, Some(S(""))} ==> c.status == "active")
      && (forall h | h != "" :: c.passwordHash == Some(h) <==> Attribute(profile, "password_hash") == Some(S(h)))
      && (forall ms :: Attribute(profile, "auth_methods") == Some(L(ms)) ==> c.authMethods == ms)
  {
    LookupHolder(t, email);
    OneToOneAt(t, HolderOf(t, email));
    hide OneToOne, Resolve, AccountPK, EmailPK, Lookup;
  }

  /** The account just registered is found under its email: without password, unverified, active. */
  lemma RegisteredIsFound(t: Table, id: string, req: CreateRequest, now: string)
    requires OneToOne(t)
    requires ProfileKey(id) !in t && SettingsKey(id) !in t && ReservationKey(req.email) !in t
    ensures Lookup(WithAccount(t, id, req, now), req.email) == Ok(Credentials(id, None, false, [], "active"))
  {
    var t' := WithAccount(t, id, req, now);
    CreateTransaction(t, id, req, now);
    CreateKeeps(t, id, req, now);
    assert OneToOne(t') by { hide *; }
    LookupHolder(t', req.email);
    RegisteredRows(t, id, req, now);
    hide OneToOne, Resolve, AccountPK, EmailPK, Lookup, WithAccount;
  }

  lemma RegisteredRows(t: Table, id: string, req: CreateRequest, now: string)
    ensures var t' := WithAccount(t, id, req, now);
      && ReservationKey(req.email) in t' && HolderOf(t', req.email) == id
      && ProfileKey(id) in t' && SettingsKey(id) in t'
      && CredentialsOf(t'[ProfileKey(id)], Row(t', SettingsKey(id))) == Credentials(id, None, false, [], "active")
  {
    KeysApart();
    ReservationRowShows(id, req.email);
    hide AccountPK, EmailPK, ReservationRow;
  }

  /** After a credentials update the lookup shows the supplied hash and methods; an empty hash is none. */
  lemma UpdatedCredentialsAreFound(t: Table, id: string, row': Item, req: CredentialsRequest, now: string)
    requires OneToOne(t) && ProfileKey(id) in t && SecretsOverwritten(t[ProfileKey(id)], row', req, now)
    ensures var email, t' := EmailOf(t, id), t[ProfileKey(id) := row'];
      && Lookup(t, email).Ok? && Lookup(t', email).Ok?
      && var c, c' := Lookup(t, email).value, Lookup(t', email).value;
      && c'.accountId == c.accountId == id && c'.emailVerified == c.emailVerified && c'.status == c.status
      && c'.passwordHash == (if req.passwordHash.None? then c.passwordHash
                             else if req.passwordHash == Some("") then None else req.passwordHash)
      && c'.authMethods == if req.authMethods.Some? then req.authMethods.value else c.authMethods
  {
    var row, email, t' := t[ProfileKey(id)], EmailOf(t, id), t[ProfileKey(id) := row'];
    UpdatedRowIsHeld(t, id, row', req, now);
    LookupHolder(t, email);
    LookupHolder(t', email);
    SecretsShown(row, row', Row(t, SettingsKey(id)), req, now);
    hide OneToOne, Lookup, Resolve, AccountPK, EmailPK, CredentialsOf, SecretsOverwritten;
  }

  lemma UpdatedRowIsHeld(t: Table, id: string, row': Item, req: CredentialsRequest, now: string)
    requires OneToOne(t) && ProfileKey(id) in t && SecretsOverwritten(t[ProfileKey(id)], row', req, now)
    ensures var email, t' := EmailOf(t, id), t[ProfileKey(id) := row'];
      && ReservationKey(email) in t && HolderOf(t, email) == id && OneToOne(t')
      && ReservationKey(email) in t' && HolderOf(t', email) == id && Row(t', SettingsKey(id)) == Row(t, SettingsKey(id))
  {
    OneToOneAt(t, id);
    KeysApart();
    SecretsOverwrites(t[ProfileKey(id)], row', req, now);
    UpdatesKeep(t, id, UpdateRequest(None, None, None, None), req, now);
    ReservationRowShows(id, EmailOf(t, id));
    hide OneToOne, AccountPK, EmailPK, SecretsOverwritten, CredentialsPatch, ReservationRow;
  }

  lemma SecretsShown(row: Item, row': Item, settings: Option<Item>, req: CredentialsRequest, now: string)
    requires SecretsOverwritten(row, row', req, now)
    ensures var c, c' := CredentialsOf(row, settings), CredentialsOf(row', settings);
      && c'.accountId == c.accountId && c'.emailVerified == c.emailVerified && c'.status == c.status
      && c'.passwordHash == (if req.passwordHash.None? then c.passwordHash
                             else if req.passwordHash == Some("") then None else req.passwordHash)
      && c'.authMethods == if req.authMethods.Some? then req.authMethods.value else c.authMethods
  {
    assert Attribute(row', "account_id") == Attribute(row, "account_id");
  }

  /** Letter case does not matter to the lookup. */
  lemma LookupIgnoresCase(t: Table, email: string)
    ensures Lookup(t, Lower(email)) == Lookup(t, email)
  {
    LowerIdempotent(email);
  }

  predicate SameSecrets(row: Item, row': Item) {
    && Attribute(row', "account_id") == Attribute(row, "account_id")
    && Attribute(row', "password_hash") == Attribute(row, "password_hash")
    && Attribute(row', "auth_methods") == Attribute(row, "auth_methods")
  }

  lemma SecretsShow(row: Item, row': Item, s: Option<Item>, s': Option<Item>)
    requires SameSecrets(row, row')
    ensures var a, b := CredentialsOf(row, s), CredentialsOf(row', s');
      a.accountId == b.accountId && a.passwordHash == b.passwordHash && a.authMethods == b.authMethods
  {
  }

  /** Agreement survives as long as the reservation and the holder's secrets stay. */
  lemma AgreesKept(t: Table, t': Table, key: string, c: Credentials)
    requires OneToOne(t) && OneToOne(t') && Agrees(t, key, c)
    requires ReservationKey(key) in t ==>
               && Row(t', ReservationKey(key)) == Row(t, ReservationKey(key))
               && var p := ProfileKey(HolderOf(t, key));
                  p in t && p in t' && SameSecrets(t[p], t'[p])
    ensures Agrees(t', key, c)
  {
    LookupHolder(t, key);
    LookupHolder(t', key);
    hide OneToOne, Lookup, AccountPK, EmailPK, CredentialsOf, SameSecrets;
    var id := HolderOf(t, key);
    SecretsShow(t[ProfileKey(id)], t'[ProfileKey(id)], Row(t, SettingsKey(id)), Row(t', SettingsKey(id)));
  }

  // ---------- caches ----------

  ghost predicate Within<K, V>(m': map<K, V>, m: map<K, V>) {
    forall k | k in m' :: k in m && m'[k] == m[k]
  }

  /** Forgetting entries, for whatever reason, and reading the clock are always safe. */
  lemma ForgettingIsSafe(v: View, profiles: map<string, Entry<Account>>, credentials: map<string, Entry<Credentials>>,
                         later: seq<Moment>)
    requires Coherent(v) && Within(profiles, v.profiles) && Within(credentials, v.credentials)
    ensures Coherent(v.(profiles := profiles, credentials := credentials, history := v.history + later))
  {
    hide OneToOne, PhonesReplay, ProfileNow, Agrees, Lookup;
    forall key | key in credentials
      ensures Lower(key) == key
           && TrueAt(v.history + later, key, credentials[key].value, credentials[key].expiresAt - v.ttl)
    {
      var i :| 0 <= i < |v.history| && v.history[i].at == v.credentials[key].expiresAt - v.ttl
               && Lookup(v.history[i].table, key) == Ok(v.credentials[key].value);
      assert (v.history + later)[i] == v.history[i];
    }
  }

  /** A profile that has just been read may be cached. */
  lemma ProfileCached(v: View, id: string, e: Entry<Account>)
    requires Coherent(v) && ProfileNow(v.table, id) == Ok(e.value)
    ensures Coherent(v.(profiles := v.profiles[id := e]))
  {
  }

  /** Credentials that have just been looked up may be cached under their lower-cased email
      until their time to live, counted from the last clock reading, is over. */
  lemma CredentialsCached(v: View, key: string, c: Credentials, at: int)
    requires Coherent(v) && Lower(key) == key && Lookup(v.table, key) == Ok(c)
    requires v.history != [] && v.history[|v.history| - 1] == Moment(at, v.table)
    ensures Coherent(v.(credentials := v.credentials[key := Entry(c, at + v.ttl)], stale := v.stale - {key}))
  {
    hide OneToOne, PhonesReplay, ProfilesCurrent, Lookup;
    assert TrueAt(v.history, key, c, at);
    hide TrueAt;
    assert Agrees(v.table, key, c);
  }

  // ---------- changes of the table ----------

  ghost predicate SameIdentityRows(t: Table, t': Table) {
    forall k: Key | k.sk == "PROFILE" || k.sk == "EMAIL" :: Row(t', k) == Row(t, k)
  }

  /** As far as profiles and reservations go, the tables are interchangeable. */
  lemma IdentityRowsDecide(v: View, t': Table)
    requires Coherent(v) && OneToOne(t') && SameIdentityRows(v.table, t')
    ensures Coherent(v.(table := t'))
  {
    var t := v.table;
    hide Agrees, AccountPK, EmailPK, StrAttr, ToModel, CredentialsWereTrue, OneToOne, PhoneAfter, Chained;
    forall id ensures Row(t', ProfileKey(id)) == Row(t, ProfileKey(id)) {
    }
    forall key | key in v.credentials && key !in v.stale ensures Agrees(t', key, v.credentials[key].value) {
      LookupHolder(t, key);
      AgreesKept(t, t', key, v.credentials[key].value);
    }
    hide SameIdentityRows;
    assert ProfilesCurrent(t', v.profiles);
    forall id | ProfileKey(id) in t' && id !in v.lost ensures PhoneReplays(t', id, v.events, v.born) {
      assert PhoneReplays(t, id, v.events, v.born);
      assert PhoneOf(t', id) == PhoneOf(t, id);
    }
  }

  /** Rows of other kinds come and go without a trace. */
  lemma AfterChildWrite(v: View, k: Key, row: Option<Item>)
    requires Coherent(v) && ChildSK(k.sk) && ChildRow(row)
    ensures Coherent(v.(table := Store(v.table, k, row)))
  {
    hide Coherent, ChildSK, ChildRow;
    assert OneToOne(v.table) by { CoherentTable(v); }
    ChildWriteKeeps(v.table, k, row);
    ChildSKApart(k.sk);
    IdentityRowsDecide(v, Store(v.table, k, row));
  }

  lemma CoherentTable(v: View)
    requires Coherent(v)
    ensures OneToOne(v.table)
  {
  }

  /** So do the child rows an unfinished erasure has removed. */
  lemma AfterPartialErasure(v: View, t': Table, id: string)
    requires Coherent(v) && PartlyErased(v.table, t', id)
    ensures Coherent(v.(table := t'))
  {
    PartlyErasedKeeps(v.table, t', id);
    hide OneToOne, Coherent, PartlyErased;
    IdentityRowsDecide(v, t');
  }

  lemma PartlyErasedKeeps(t: Table, t': Table, id: string)
    requires OneToOne(t) && PartlyErased(t, t', id)
    ensures OneToOne(t') && SameIdentityRows(t, t')
  {
    var gone := t.Keys - t'.Keys;
    NoReservationInPartition(t);
    hide OneToOne, AccountPK;
    forall k ensures Row(t', k) == Row(t - gone, k) {
      assert Row(t', k) == Row(t, k) || Row(t', k) == None;
    }
    SameRows(t', t - gone);
    forall k | k in gone ensures k.pk == AccountPK(id) && k.sk != "PROFILE" {
      assert Row(t', k) == None && Row(t, k).Some?;
    }
    ChildrenGoneKeeps(t, id, gone);
  }

  /** A new account adds rows only; its phone history starts with its registration. */
  function Registration(v: View, id: string, req: CreateRequest, now: string): View {
    v.(table := WithAccount(v.table, id, req, now),
       events := v.events + [Registered(id)],
       born := v.born[id := OrEmpty(req.phone)],
       lost := v.lost - {id})
  }

  lemma AfterCreate(v: View, id: string, req: CreateRequest, now: string)
    requires Coherent(v)
    requires ProfileKey(id) !in v.table && SettingsKey(id) !in v.table && ReservationKey(req.email) !in v.table
    ensures Coherent(Registration(v, id, req, now))
  {
    var t, v' := v.table, Registration(v, id, req, now);
    CreateKeeps(t, id, req, now);
    CreateTransaction(t, id, req, now);
    ProfilesAfterCreate(t, id, req, now);
    CredentialsAfterCreate(v, id, req, now);
    PhonesAfterCreate(v, id, req, now);
    hide OneToOne, CredentialsCurrent, PhonesReplay, CredentialsWereTrue, ProfileNow, WithAccount,
         CreateItems, Transact;
  }

  lemma ProfilesAfterCreate(t: Table, id: string, req: CreateRequest, now: string)
    requires ProfileKey(id) !in t && SettingsKey(id) !in t && ReservationKey(req.email) !in t
    ensures forall i | ProfileNow(t, i).Ok? :: ProfileNow(WithAccount(t, id, req, now), i) == ProfileNow(t, i)
  {
    var t' := WithAccount(t, id, req, now);
    NewProfile(id, req, now);
    KeysApart();
    hide AccountPK, EmailPK, StrAttr, ProfileRow, SettingsRow, ReservationRow, ToModel;
  }

  lemma CredentialsAfterCreate(v: View, id: string, req: CreateRequest, now: string)
    requires Coherent(v) && OneToOne(WithAccount(v.table, id, req, now))
    requires ProfileKey(id) !in v.table && SettingsKey(id) !in v.table && ReservationKey(req.email) !in v.table
    ensures CredentialsCurrent(WithAccount(v.table, id, req, now), v.credentials, v.stale)
  {
    var t, t' := v.table, WithAccount(v.table, id, req, now);
    hide OneToOne, Agrees, AccountPK, EmailPK, StrAttr, ProfileRow, SettingsRow, ReservationRow,
         PhonesReplay, ProfilesCurrent, CredentialsWereTrue;
    forall key | key in v.credentials && key !in v.stale ensures Agrees(t', key, v.credentials[key].value) {
      LookupHolder(t, key);
      AgreesKept(t, t', key, v.credentials[key].value);
    }
  }

  lemma PhonesAfterCreate(v: View, id: string, req: CreateRequest, now: string)
    requires PhonesReplay(v.table, v.events, v.born, v.lost)
    requires ProfileKey(id) !in v.table && SettingsKey(id) !in v.table && ReservationKey(req.email) !in v.table
    ensures var v' := Registration(v, id, req, now); PhonesReplay(v'.table, v'.events, v'.born, v'.lost)
  {
    var v' := Registration(v, id, req, now);
    NewProfile(id, req, now);
    KeysApart();
    hide AccountPK, EmailPK, StrAttr, ProfileRow, SettingsRow, ReservationRow;
    forall i | ProfileKey(i) in v'.table && i !in v'.lost ensures PhoneReplays(v'.table, i, v'.events, v'.born) {
      if i != id {
        assert PhoneReplays(v.table, i, v.events, v.born);
        OtherEventKeeps(v.events, Registered(id), i, v.born[i]);
      }
    }
  }

  lemma NewProfile(id: string, req: CreateRequest, now: string)
    ensures var row := ProfileRow(id, req, now);
      StrAttr(row, "email") == Lower(req.email) && StrAttr(row, "phone") == OrEmpty(req.phone)
  {
  }

  /** Events about other accounts, or about other matters, do not move the replay. */
  lemma OtherEventKeeps(events: seq<Event>, e: Event, id: string, born: string)
    requires e != Registered(id) && !(e.PhoneChanged? && e.id == id)
    ensures PhoneAfter(events + [e], id, born) == PhoneAfter(events, id, born)
    ensures Chained(events + [e], id, born) == Chained(events, id, born)
  {
  }

  // ---------- profile updates ----------

  function FieldsEvent(id: string, fields: seq<string>): seq<Event> {
    if fields == [] then [] else [ProfileUpdated(id, fields)]
  }

  /** The phone-change event, if the prior phone is known and differs from the new one. */
  function PhoneEvent(id: string, phone: Option<string>, prior: Option<string>): seq<Event> {
    if phone.Some? && prior.Some? && prior.value != phone.value
    then [PhoneChanged(id, prior.value, phone.value)] else []
  }

  /** What a profile update announces: the fields it changed, if any, and a change of the phone from
      the one read before to another one. */
  lemma UpdateAnnounces(id: string, fields: seq<string>, phone: Option<string>, prior: Option<string>)
    ensures var es := FieldsEvent(id, fields) + PhoneEvent(id, phone, prior);
      && (forall i, fs :: ProfileUpdated(i, fs) in es <==> i == id && fs == fields && fields != [])
      && (forall i, p, q :: PhoneChanged(i, p, q) in es <==> i == id && prior == Some(p) && phone == Some(q) && p != q)
      && (forall e | e in es :: e.ProfileUpdated? || e.PhoneChanged?)
      && |es| <= 2
  {
  }

  function ProfileChanged(
    v: View, id: string, req: UpdateRequest, now: string, fields: seq<string>, prior: Option<string>): View
    requires ProfileKey(id) in v.table
  {
    v.(table := v.table[ProfileKey(id) := v.table[ProfileKey(id)] + AccountPatch(req, now)],
       profiles := v.profiles - {id},
       events := v.events + FieldsEvent(id, fields) + PhoneEvent(id, req.phone, prior),
       lost := if req.phone.Some? && prior.None? then v.lost + {id} else v.lost)
  }

  lemma ProfilePatchShows(row: Item, req: UpdateRequest, now: string)
    ensures var row' := row + AccountPatch(req, now);
      && SameSecrets(row, row')
      && StrAttr(row', "email") == StrAttr(row, "email")
      && StrAttr(row', "phone") == if req.phone.Some? then req.phone.value else StrAttr(row, "phone")
  {
    hide AccountPatch;
    ProfileIsOverwritten(row, req, now);
    SecretsUntouched(row, row + AccountPatch(req, now), req, now);
    TextShows(row, row + AccountPatch(req, now), "phone", req.phone);
    hide ProfileOverwritten, TextOr;
  }

  lemma SecretsUntouched(row: Item, row': Item, req: UpdateRequest, now: string)
    requires ProfileOverwritten(row, row', req, now)
    ensures SameSecrets(row, row') && StrAttr(row', "email") == StrAttr(row, "email")
    ensures Attribute(row', "phone") == TextOr(req.phone, Attribute(row, "phone"))
  {
    hide StrAttr;
    SameText(row, row', "email");
  }

  lemma FieldsEventKeeps(events: seq<Event>, id: string, fields: seq<string>, i: string, born: string)
    ensures PhoneAfter(events + FieldsEvent(id, fields), i, born) == PhoneAfter(events, i, born)
    ensures Chained(events + FieldsEvent(id, fields), i, born) == Chained(events, i, born)
  {
    if fields == [] {
      assert events + FieldsEvent(id, fields) == events;
    } else {
      OtherEventKeeps(events, ProfileUpdated(id, fields), i, born);
    }
  }

  /** With the prior phone known, the replay follows the stored phone. */
  lemma PhoneFollows(events: seq<Event>, id: string, phone: Option<string>, prior: string, i: string, born: string)
    requires Chained(events, i, born)
    requires i == id ==> PhoneAfter(events, i, born) == prior
    ensures var events' := events + PhoneEvent(id, phone, Some(prior));
      && Chained(events', i, born)
      && PhoneAfter(events', i, born) ==
           if i == id && phone.Some? then phone.value else PhoneAfter(events, i, born)
  {
    var e := PhoneEvent(id, phone, Some(prior));
    if e == [] {
      assert events + e == events;
    } else {
      assert (events + e)[..|events|] == events;
    }
  }

  lemma AfterProfileUpdate(
    v: View, id: string, req: UpdateRequest, now: string, fields: seq<string>, prior: Option<string>)
    requires Coherent(v) && ProfileKey(id) in v.table
    requires prior.Some? ==> prior.value == PhoneOf(v.table, id)
    ensures Coherent(ProfileChanged(v, id, req, now, fields, prior))
  {
    var t, v' := v.table, ProfileChanged(v, id, req, now, fields, prior);
    UpdatesKeep(t, id, req, CredentialsRequest(None, None), now);
    ProfilePatchShows(t[ProfileKey(id)], req, now);
    KeysApart();
    hide AccountPatch, SameSecrets, AccountPK, StrAttr, OneToOne;
    RowReplaced(v, id, v'.table[ProfileKey(id)]);
    PhonesAfterUpdate(v, id, req, now, fields, prior);
    hide CredentialsCurrent, PhonesReplay, CredentialsWereTrue;
    assert ProfilesCurrent(v'.table, v'.profiles);
  }

  /** A profile row replaced by one with the same email and secrets. */
  lemma RowReplaced(v: View, id: string, row: Item)
    requires Coherent(v) && ProfileKey(id) in v.table && OneToOne(v.table[ProfileKey(id) := row])
    requires SameSecrets(v.table[ProfileKey(id)], row)
    requires StrAttr(row, "email") == StrAttr(v.table[ProfileKey(id)], "email")
    ensures var t' := v.table[ProfileKey(id) := row];
      CredentialsCurrent(t', v.credentials, v.stale)
  {
    var t, t' := v.table, v.table[ProfileKey(id) := row];
    hide OneToOne, Agrees, AccountPK, EmailPK, StrAttr, CredentialsWereTrue, SameSecrets,
         PhonesReplay, ProfilesCurrent;
    forall key | key in v.credentials && key !in v.stale ensures Agrees(t', key, v.credentials[key].value) {
      LookupHolder(t, key);
      SecretsStay(t, id, row, key);
      AgreesKept(t, t', key, v.credentials[key].value);
    }
  }

  lemma PhonesAfterUpdate(
    v: View, id: string, req: UpdateRequest, now: string, fields: seq<string>, prior: Option<string>)
    requires PhonesReplay(v.table, v.events, v.born, v.lost) && ProfileKey(id) in v.table
    requires prior.Some? ==> prior.value == PhoneOf(v.table, id)
    ensures var v' := ProfileChanged(v, id, req, now, fields, prior);
      PhonesReplay(v'.table, v'.events, v'.born, v'.lost)
  {
    var t, v' := v.table, ProfileChanged(v, id, req, now, fields, prior);
    ProfilePatchShows(t[ProfileKey(id)], req, now);
    KeysApart();
    hide AccountPK, StrAttr, AccountPatch, Chained, PhoneAfter, FieldsEvent, SameSecrets;
    forall i | ProfileKey(i) in v'.table && i !in v'.lost ensures PhoneReplays(v'.table, i, v'.events, v.born) {
      assert PhoneReplays(t, i, v.events, v.born);
      FieldsEventKeeps(v.events, id, fields, i, v.born[i]);
      var events := v.events + FieldsEvent(id, fields);
      if prior.Some? {
        PhoneFollows(events, id, req.phone, prior.value, i, v.born[i]);
      } else {
        assert events + PhoneEvent(id, req.phone, prior) == events;
      }
    }
  }

  lemma SecretsStay(t: Table, id: string, row: Item, key: string)
    requires ProfileKey(id) in t && SameSecrets(t[ProfileKey(id)], row)
    requires ReservationKey(key) in t ==> ProfileKey(HolderOf(t, key)) in t
    ensures ReservationKey(key) in t ==>
              var p, t' := ProfileKey(HolderOf(t, key)), t[ProfileKey(id) := row];
              SameSecrets(t[p], t'[p])
  {
  }

  /** Profiles that stay keep their phone and email; the others are gone. */
  lemma ProfilesStay(v: View, t': Table, events: seq<Event>)
    requires PhonesReplay(v.table, v.events, v.born, v.lost)
    requires forall i :: ProfileKey(i) in t' ==>
               && ProfileKey(i) in v.table && EmailOf(t', i) == EmailOf(v.table, i)
               && PhoneOf(t', i) == PhoneOf(v.table, i)
    requires forall i, b :: PhoneAfter(events, i, b) == PhoneAfter(v.events, i, b)
    requires forall i, b :: Chained(events, i, b) == Chained(v.events, i, b)
    ensures PhonesReplay(t', events, v.born, v.lost)
  {
  }

  // ---------- credential updates ----------

  function CredentialsChanged(v: View, id: string, req: CredentialsRequest, now: string): View
    requires ProfileKey(id) in v.table
  {
    v.(table := v.table[ProfileKey(id) := v.table[ProfileKey(id)] + CredentialsPatch(req, now)])
  }

  lemma CredentialsPatchShows(row: Item, req: CredentialsRequest, now: string)
    ensures var row' := row + CredentialsPatch(req, now);
      && ToModel(row') == ToModel(row)
      && StrAttr(row', "email") == StrAttr(row, "email") && StrAttr(row', "phone") == StrAttr(row, "phone")
  {
    PatchesKeepIdentity(UpdateRequest(None, None, None, None), req, now);
    hide CredentialsPatch;
  }

  /** An email other than the account's own belongs to another account. */
  lemma OtherHolder(t: Table, id: string, key: string)
    requires OneToOne(t) && ProfileKey(id) in t && ReservationKey(key) in t
    requires Lower(key) == key && key != EmailOf(t, id)
    ensures HolderOf(t, key) != id && ProfileKey(HolderOf(t, key)) != ProfileKey(id)
    ensures ProfileKey(HolderOf(t, key)) in t
  {
    LookupHolder(t, key);
    KeysApart();
  }

  /** Once the account's own entry is dropped, or owned up to as stale, the rest is current. */
  lemma AfterCredentialsUpdate(
    v: View, id: string, req: CredentialsRequest, now: string,
    credentials: map<string, Entry<Credentials>>, stale: set<string>)
    requires Coherent(v) && ProfileKey(id) in v.table && Within(credentials, v.credentials)
    requires forall key | key in credentials && key !in stale :: key !in v.stale && key != EmailOf(v.table, id)
    ensures Coherent(CredentialsChanged(v, id, req, now).(credentials := credentials, stale := stale))
  {
    hide OneToOne, CredentialsCurrent, PhonesReplay, ProfilesCurrent, TrueAt, CredentialsPatch, StrAttr;
    UpdatesKeep(v.table, id, UpdateRequest(None, None, None, None), req, now);
    CredentialsAfterUpdate(v, id, v.table[ProfileKey(id)] + CredentialsPatch(req, now), credentials, stale);
    ProfilesAfterCredentials(v, id, req, now);
  }

  lemma ProfilesAfterCredentials(v: View, id: string, req: CredentialsRequest, now: string)
    requires PhonesReplay(v.table, v.events, v.born, v.lost)
    requires ProfilesCurrent(v.table, v.profiles)
    requires ProfileKey(id) in v.table
    ensures var t' := CredentialsChanged(v, id, req, now).table;
      PhonesReplay(t', v.events, v.born, v.lost) && ProfilesCurrent(t', v.profiles)
  {
    hide EmailPK, StrAttr, ToModel, PhonesReplay, PhoneAfter, Chained, CredentialsPatch;
    var t' := CredentialsChanged(v, id, req, now).table;
    CredentialsPatchShows(v.table[ProfileKey(id)], req, now);
    ProfilesStay(v, t', v.events);
    forall i | i in v.profiles ensures ProfileNow(t', i) == ProfileNow(v.table, i) {
    }
  }

  lemma CredentialsAfterUpdate(
    v: View, id: string, row: Item, credentials: map<string, Entry<Credentials>>, stale: set<string>)
    requires Coherent(v) && ProfileKey(id) in v.table && Within(credentials, v.credentials)
    requires OneToOne(v.table[ProfileKey(id) := row])
    requires forall key | key in credentials && key !in stale :: key !in v.stale && key != EmailOf(v.table, id)
    ensures CredentialsCurrent(v.table[ProfileKey(id) := row], credentials, stale)
  {
    var t, t' := v.table, v.table[ProfileKey(id) := row];
    hide OneToOne, Agrees, AccountPK, EmailPK, StrAttr, ProfilesCurrent, PhonesReplay, TrueAt;
    forall key | key in credentials && key !in stale ensures Agrees(t', key, credentials[key].value) {
      assert Lower(key) == key;
      if ReservationKey(key) in t {
        OtherHolder(t, id, key);
        assert t'[ProfileKey(HolderOf(t, key))] == t[ProfileKey(HolderOf(t, key))];
      }
      AgreesKept(t, t', key, credentials[key].value);
    }
  }

  // ---------- erasure ----------

  /** A completed erasure leaves no row of the account, frees its email, and keeps every other
      account's rows and its reservation. */
  lemma ErasedIsolated(t: Table, id: string)
    requires OneToOne(t) && ProfileKey(id) in t
    ensures OneToOne(Erased(t, id))
    ensures forall k | k in Erased(t, id) :: k.pk != AccountPK(id) && k != ReservationKey(EmailOf(t, id))
    ensures forall other | other != id && ProfileKey(other) in t ::
              && (forall sk :: Row(Erased(t, id), Key(AccountPK(other), sk)) == Row(t, Key(AccountPK(other), sk)))
              && Row(Erased(t, id), ReservationKey(EmailOf(t, other))) == Row(t, ReservationKey(EmailOf(t, other)))
  {
    ErasedOneToOne(t, id);
    KeysApart();
    forall other | other != id && ProfileKey(other) in t
      ensures (forall sk :: Row(Erased(t, id), Key(AccountPK(other), sk)) == Row(t, Key(AccountPK(other), sk)))
           && Row(Erased(t, id), ReservationKey(EmailOf(t, other))) == Row(t, ReservationKey(EmailOf(t, other)))
    {
      OtherProfileKept(t, id, other);
    }
  }

  lemma ErasedOneToOne(t: Table, id: string)
    requires OneToOne(t) && ProfileKey(id) in t
    ensures OneToOne(Erased(t, id))
  {
    var gone := set k | k in t && k.pk == AccountPK(id) && k.sk != "PROFILE";
    ChildrenGoneKeeps(t, id, gone);
    assert (t - gone)[ProfileKey(id)] == t[ProfileKey(id)];
    IdentityGoneKeeps(t - gone, id);
    hide OneToOne, AccountPK, EmailPK, StrAttr;
    assert SetOf(IdentityOf(t, id)) == {ProfileKey(id), ReservationKey(EmailOf(t, id))};
    assert t - gone - SetOf(IdentityOf(t - gone, id)) == Erased(t, id);
  }

  /** After an unfinished erasure a complete one ends where it would have ended at once, so
      any number of failed attempts before a successful one makes no difference. */
  lemma RetryConverges(t: Table, t': Table, id: string)
    requires PartlyErased(t, t', id) && Erasable(t, id)
    ensures Erasable(t', id) && Erased(t', id) == Erased(t, id)
    ensures t'.Keys <= t.Keys && Row(t', ProfileKey(id)) == Row(t, ProfileKey(id))
    ensures Row(t', ReservationKey(EmailOf(t, id))) == Row(t, ReservationKey(EmailOf(t, id)))
  {
    KeysApart();
    hide AccountPK, EmailPK, StrAttr;
    assert Row(t', ProfileKey(id)) == Row(t, ProfileKey(id));
    forall k | k in t' ensures k in t {
      assert Row(t', k).Some?;
    }
    forall k ensures Row(Erased(t', id), k) == Row(Erased(t, id), k) {
      assert Row(t', k) == Row(t, k) || (Row(t', k) == None && k.pk == AccountPK(id));
    }
    SameRows(Erased(t', id), Erased(t, id));
  }

  /** The freed email can be registered again, by any account id without rows of its own. */
  lemma FreedEmailRegisters(t: Table, id: string, other: string, req: CreateRequest, now: string)
    requires OneToOne(t) && ProfileKey(id) in t && Lower(req.email) == Lower(EmailOf(t, id))
    requires other == id || (ProfileKey(other) !in t && SettingsKey(other) !in t)
    ensures Transact(Erased(t, id), CreateItems(other, req, now)) ==
              (Written, WithAccount(Erased(t, id), other, req, now))
  {
    ErasedIsolated(t, id);
    CreateTransaction(Erased(t, id), other, req, now);
    hide CreateItems, WithAccount, Transact, AccountPK, OneToOne, StrAttr;
    assert ReservationKey(req.email) == ReservationKey(EmailOf(t, id));
  }

  /** The key under which a closing account's credentials are looked for in the cache. */
  function ClosingKey(t: Table, id: string): string
    requires ProfileKey(id) in t
  {
    Lower(TrimSpace(EmailOf(t, id)))
  }

  /** Credentials cached under an email with surrounding whitespace are not found, so they stay
      and are owned up to as stale. */
  function ErasedView(v: View, id: string): View
    requires ProfileKey(id) in v.table
  {
    v.(table := Erased(v.table, id),
       profiles := v.profiles - {id},
       credentials := v.credentials - {ClosingKey(v.table, id)},
       stale := v.stale + ({EmailOf(v.table, id)} - {ClosingKey(v.table, id)}),
       events := v.events + [AccountDeleted(id)])
  }

  lemma AfterErasure(v: View, id: string)
    requires Coherent(v) && ProfileKey(id) in v.table
    ensures Coherent(ErasedView(v, id))
  {
    hide OneToOne, CredentialsCurrent, PhonesReplay, ProfilesCurrent, TrueAt, Erased;
    ErasedIsolated(v.table, id);
    CredentialsAfterErasure(v, id);
    ProfilesAfterErasure(v, id);
  }

  lemma ProfilesAfterErasure(v: View, id: string)
    requires PhonesReplay(v.table, v.events, v.born, v.lost)
    requires ProfilesCurrent(v.table, v.profiles)
    requires ProfileKey(id) in v.table
    ensures var v' := ErasedView(v, id);
      && PhonesReplay(v'.table, v'.events, v.born, v.lost)
      && ProfilesCurrent(v'.table, v'.profiles)
  {
    hide EmailPK, StrAttr, ToModel, PhonesReplay;
    var t, t' := v.table, Erased(v.table, id);
    KeysApart();
    assert forall i | ProfileKey(i) in t' :: ProfileKey(i) in t && t'[ProfileKey(i)] == t[ProfileKey(i)];
    var events := v.events + [AccountDeleted(id)];
    forall i, b ensures PhoneAfter(events, i, b) == PhoneAfter(v.events, i, b)
                     && Chained(events, i, b) == Chained(v.events, i, b)
    {
      OtherEventKeeps(v.events, AccountDeleted(id), i, b);
    }
    hide PhoneAfter, Chained;
    ProfilesStay(v, t', events);
    forall i | i in v.profiles && i != id ensures ProfileNow(t', i) == ProfileNow(t, i) {
      assert ProfileNow(t, i).Ok?;
    }
  }

  lemma CredentialsAfterErasure(v: View, id: string)
    requires Coherent(v) && ProfileKey(id) in v.table && OneToOne(Erased(v.table, id))
    ensures var v' := ErasedView(v, id); CredentialsCurrent(v'.table, v'.credentials, v'.stale)
  {
    hide Agrees, Erased, TrimSpace, Lower, EmailOf, OneToOne, PhonesReplay, ProfilesCurrent;
    var v' := ErasedView(v, id);
    forall key | key in v'.credentials && key !in v'.stale
      ensures Agrees(v'.table, key, v'.credentials[key].value)
    {
      OtherAgrees(v, id, key);
    }
  }

  lemma OtherAgrees(v: View, id: string, key: string)
    requires Coherent(v) && ProfileKey(id) in v.table && OneToOne(Erased(v.table, id))
    requires key in v.credentials && key !in v.stale && key != EmailOf(v.table, id)
    ensures Agrees(Erased(v.table, id), key, v.credentials[key].value)
  {
    var t, t' := v.table, Erased(v.table, id);
    hide OneToOne, Agrees, StrAttr, ProfilesCurrent, PhonesReplay, TrueAt;
    assert Lower(key) == key && Agrees(t, key, v.credentials[key].value);
    KeysApart();
    if ReservationKey(key) in t {
      OtherHolder(t, id, key);
      EmailLowered(t, id);
    }
    hide AccountPK, EmailPK, CredentialsWereTrue, CredentialsCurrent;
    AgreesKept(t, t', key, v.credentials[key].value);
  }

  lemma EmailLowered(t: Table, id: string)
    requires OneToOne(t) && ProfileKey(id) in t
    ensures Lower(EmailOf(t, id)) == EmailOf(t, id)
  {
  }
}
