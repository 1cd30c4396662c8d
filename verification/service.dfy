/** The account service over repository, caches, object store and event stream
    (internal/api/account.go, internal/api/credentials.go). Calls run one at a time; any storage
    call may fail. Every call keeps `Valid`, so what it says holds after any run of calls. */
module AccountService {
  import opened Basics
  import opened Dynamo
  import opened Accounts
  import opened Identity
  import opened TtlCache
  import opened Coherence

  function ExportPrefix(id: string): string {
    "exports/" + id + "/"
  }

  function AvatarKey(id: string): string {
    "avatars/" + id + "/avatar"
  }

  function Under(keys: set<string>, prefix: string): set<string> {
    set k | k in keys && prefix <= k
  }

  lemma ExportKeyShows(key: string, id: string)
    requires ExportPrefix(id) <= key
    ensures |key| >= 9 + |id| && key[8..8 + |id|] == id && key[8 + |id|] == '/'
  {
  }

  /** An object lies under at most one account's prefix, as ids contain no slash. */
  lemma ExportPrefixesDisjoint(key: string, a: string, b: string)
    requires '/' !in a && '/' !in b
    requires ExportPrefix(a) <= key && ExportPrefix(b) <= key
    ensures a == b
  {
    ExportKeyShows(key, a);
    ExportKeyShows(key, b);
    hide ExportPrefix;
  }

  lemma AvatarKeysDistinct(a: string, b: string)
    requires AvatarKey(a) == AvatarKey(b)
    ensures a == b
  {
    assert |AvatarKey(a)| == 15 + |a| && |AvatarKey(b)| == 15 + |b|;
    assert AvatarKey(a)[8..8 + |a|] == a;
    assert AvatarKey(b)[8..8 + |b|] == b;
  }

  /** Everything an erasure works on. */
  datatype Storage = Storage(table: Table, exports: set<string>, avatars: set<string>)

  /** An attempt that failed: child rows and objects of the account may be gone, nothing else. */
  ghost predicate FailedAttempt(before: Storage, after: Storage, id: string) {
    && PartlyErased(before.table, after.table, id)
    && before.exports - Under(before.exports, ExportPrefix(id)) <= after.exports <= before.exports
    && before.avatars - {AvatarKey(id)} <= after.avatars <= before.avatars
  }

  ghost predicate Completed(before: Storage, after: Storage, id: string) {
    && after.table == Erased(before.table, id)
    && after.exports == before.exports - Under(before.exports, ExportPrefix(id))
    && after.avatars == before.avatars - {AvatarKey(id)}
  }

  /** However many attempts failed, and wherever, profile and reservation are still in place,
      and an attempt that completes ends exactly where the first one would have ended. */
  lemma {:induction false} RetriesConverge(attempts: seq<Storage>, final: Storage, id: string)
    requires attempts != [] && Erasable(attempts[0].table, id)
    requires forall i | 0 <= i < |attempts| - 1 :: FailedAttempt(attempts[i], attempts[i + 1], id)
    requires Completed(attempts[|attempts| - 1], final, id)
    ensures Completed(attempts[0], final, id)
    ensures var t, last := attempts[0].table, attempts[|attempts| - 1].table;
      && Erasable(last, id) && last.Keys <= t.Keys
      && Row(last, ProfileKey(id)) == Row(t, ProfileKey(id))
      && Row(last, ReservationKey(EmailOf(t, id))) == Row(t, ReservationKey(EmailOf(t, id)))
  {
    hide Erased, PartlyErased, ExportPrefix, AvatarKey, AccountPK, EmailPK, StrAttr;
    if |attempts| > 1 {
      var rest := attempts[1..];
      assert FailedAttempt(attempts[0], attempts[1], id);
      forall i | 0 <= i < |rest| - 1 ensures FailedAttempt(rest[i], rest[i + 1], id) {
        assert FailedAttempt(attempts[i + 1], attempts[i + 1 + 1], id);
      }
      RetryConverges(attempts[0].table, attempts[1].table, id);
      RetriesConverge(rest, final, id);
      assert EmailOf(attempts[1].table, id) == EmailOf(attempts[0].table, id);
    }
  }

  /** A completed attempt leaves no export and no avatar of the account, and every other one. */
  lemma NoObjectLeft(before: Storage, after: Storage, id: string)
    requires Completed(before, after, id)
    ensures forall k :: k in after.exports <==> k in before.exports && !("exports/" + id + "/" <= k)
    ensures forall k :: k in after.avatars <==> k in before.avatars && k != "avatars/" + id + "/avatar"
  {
    hide Erased;
  }

  /** Neither a failed nor a completed attempt touches another account's objects. */
  lemma OtherObjectsStay(before: Storage, after: Storage, id: string, other: string)
    requires FailedAttempt(before, after, id) || Completed(before, after, id)
    requires '/' !in id && '/' !in other && other != id
    ensures Under(after.exports, ExportPrefix(other)) == Under(before.exports, ExportPrefix(other))
    ensures AvatarKey(other) in after.avatars <==> AvatarKey(other) in before.avatars
  {
    hide PartlyErased, Erased, ExportPrefix, AvatarKey;
    forall key | key in Under(before.exports, ExportPrefix(other))
      ensures key !in Under(before.exports, ExportPrefix(id))
    {
      if ExportPrefix(id) <= key {
        ExportPrefixesDisjoint(key, id, other);
      }
    }
    if AvatarKey(other) == AvatarKey(id) {
      AvatarKeysDistinct(other, id);
    }
  }

  /** The two buckets as sets of keys. Deleting several objects may stop half-way. */
  class ObjectStore {
    var exports: set<string>
    var avatars: set<string>
    var healthy: bool

    constructor ()
      ensures exports == {} && avatars == {} && healthy
    {
      exports, avatars, healthy := {}, {}, true;
    }

    method ListExports(prefix: string) returns (ok: bool, keys: set<string>)
      ensures healthy ==> ok
      ensures ok ==> keys == Under(exports, prefix)
    {
      ok := *;
      ok := ok || healthy;
      keys := Under(exports, prefix);
    }

    method DeleteExports(keys: set<string>) returns (ok: bool)
      modifies this`exports
      ensures healthy ==> ok
      ensures ok ==> exports == old(exports) - keys
      ensures old(exports) - keys <= exports <= old(exports)
    {
      ok := *;
      ok := ok || healthy;
      if ok {
        exports := exports - keys;
      } else {
        var gone: set<string> := *;
        exports := exports - (keys * gone);
      }
    }

    method DeleteAvatar(key: string) returns (ok: bool)
      modifies this`avatars
      ensures healthy ==> ok
      ensures avatars == if ok then old(avatars) - {key} else old(avatars)
    {
      ok := *;
      ok := ok || healthy;
      if ok {
        avatars := avatars - {key};
      }
    }
  }

  const DEFAULT_CACHE_TTL := 60_000_000_000
  const DEFAULT_CACHE_SIZE := 100_000

  class Service {
    const repo: AccountRepo
    const profileCache: Cache<string, Account>
    const credentialsCache: Cache<string, Credentials>
    const s3: ObjectStore?
    const cacheTTL: int
    var clock: int
    var events: seq<Event>
    ghost var history: seq<Moment>
    /** Emails whose cached credentials could not be invalidated after an update. */
    ghost var stale: set<string>
    /** The phone of each account when it was registered, or when the service started. */
    ghost var born: map<string, string>
    /** Accounts whose prior phone could not be read before an update of the phone. */
    ghost var lost: set<string>

    ghost function State(): View
      reads this, repo.client, profileCache, credentialsCache
    {
      View(repo.client.table, profileCache.m, credentialsCache.m, cacheTTL, history, stale, events, born, lost)
    }

    ghost predicate Valid()
      reads this, repo.client, profileCache, credentialsCache
    {
      && Coherent(State())
      && cacheTTL > 0
      && (forall moment | moment in history :: moment.at <= clock)
    }

    ghost function Stored(): Storage
      reads repo.client, s3
    {
      Storage(repo.client.table, if s3 == null then {} else s3.exports,
              if s3 == null then {} else s3.avatars)
    }

    ghost predicate FaultFree()
      reads repo.client, s3
    {
      repo.client.healthy && (s3 != null ==> s3.healthy)
    }

    constructor (repo: AccountRepo, s3: ObjectStore?, cacheTTL: int, cacheMaxSize: int)
      requires OneToOne(repo.client.table)
      ensures Valid() && this.repo == repo && this.s3 == s3
      ensures fresh(profileCache) && fresh(credentialsCache) && events == [] && stale == {} && lost == {}
      ensures this.cacheTTL == if cacheTTL <= 0 then DEFAULT_CACHE_TTL else cacheTTL
      ensures profileCache.maxEntries == credentialsCache.maxEntries
                == if cacheMaxSize <= 0 then DEFAULT_CACHE_SIZE else cacheMaxSize
    {
      this.repo, this.s3 := repo, s3;
      this.cacheTTL := if cacheTTL <= 0 then DEFAULT_CACHE_TTL else cacheTTL;
      var size := if cacheMaxSize <= 0 then DEFAULT_CACHE_SIZE else cacheMaxSize;
      profileCache := new Cache(size);
      credentialsCache := new Cache(size);
      clock, events, history, stale, lost := 0, [], [], {}, {};
      born := Phones(repo.client.table);
      new;
      hide Coherent, Phones;
      StartsCoherent(repo.client.table, this.cacheTTL);
    }

    method Now() returns (t: int)
      modifies this`clock, this`history
      ensures t == clock && old(clock) <= clock
      ensures history == old(history) + [Moment(clock, repo.client.table)]
      ensures old(Valid()) ==> Valid()
    {
      hide Coherent, OneToOne;
      var elapsed: int := *;
      clock := clock + if elapsed > 0 then elapsed else 0;
      history := history + [Moment(clock, repo.client.table)];
      if old(Valid()) {
        ForgettingIsSafe(old(State()), profileCache.m, credentialsCache.m, [Moment(clock, repo.client.table)]);
      }
      return clock;
    }

    method RememberProfile(id: string, account: Account)
      requires Valid() && ProfileNow(repo.client.table, id) == Ok(account)
      modifies this`clock, this`history, profileCache
      ensures Valid()
      ensures id in profileCache.m && profileCache.m[id] == Entry(account, clock + cacheTTL) && old(clock) <= clock
    {
      hide Coherent, AfterEviction, ProfileNow, LosesOneIfFull;
      var scanTime := Now();
      var storeTime := Now();
      var order := RangeOrder(profileCache.m);
      ghost var before := State();
      ghost var kept := AfterEviction(profileCache.m, profileCache.maxEntries, order, scanTime);
      profileCache.Set(id, account, cacheTTL, order, scanTime, storeTime);
      ForgettingIsSafe(before, kept, before.credentials, []);
      assert before.history + [] == before.history;
      ProfileCached(before.(profiles := kept), id, Entry(account, storeTime + cacheTTL));
      assert State() == before.(profiles := kept[id := Entry(account, storeTime + cacheTTL)]);
    }

    /** Returns exactly what the repository would return now, unless the repository fails, and
        keeps it in the cache; while it is there, the repository is not needed. */
    method GetProfile(id: string) returns (r: Result<Account>)
      requires Valid()
      modifies this`clock, this`history, profileCache
      ensures Valid()
      ensures r != Err(Internal) ==> r == ProfileNow(repo.client.table, id)
      ensures repo.client.healthy ==> r != Err(Internal)
      ensures r.Ok? ==>
                && id in profileCache.m && profileCache.m[id].value == r.value
                && clock <= profileCache.m[id].expiresAt
      ensures id in old(profileCache.m) && clock <= old(profileCache.m)[id].expiresAt ==>
                r == Ok(old(profileCache.m)[id].value) && profileCache.m == old(profileCache.m)
    {
      hide Coherent;
      var now := Now();
      ghost var before := State();
      assert ProfilesCurrent(before.table, before.profiles) by { CoherentCaches(before); }
      var hit := profileCache.Get(id, now);
      ForgettingIsSafe(before, profileCache.m, before.credentials, []);
      assert before.history + [] == before.history;
      if hit.Some? {
        return Ok(hit.value);
      }
      r := repo.GetAccount(id);
      if r.Ok? {
        RememberProfile(id, r.value);
      }
    }

    /** Registers an account; only a committed registration is announced. */
    method CreateAccount(id: string, req: CreateRequest, now: string) returns (r: Result<Account>)
      requires Valid()
      modifies this`events, this`born, this`lost, repo.client`table, repo.client`journal
      ensures Valid()
      ensures (id == "" || req.email == "" || req.firstName == "" || req.lastName == "") ==> r == Err(InvalidInput)
      ensures r.Ok? ==> State() == Registration(old(State()), id, req, now) && r.value == AsRegistered(id, req)
      ensures events == if r.Ok? then old(events) + [Registered(id)] else old(events)
      ensures r.Err? ==> State() == old(State())
      ensures repo.client.healthy && r.Err? ==> r.error in {InvalidInput, AlreadyExists, EmailAlreadyExists}
    {
      hide Coherent, WithAccount, ProfileRow;
      if id == "" || req.email == "" || req.firstName == "" || req.lastName == "" {
        return Err(InvalidInput);
      }
      r := repo.CreateAccount(id, req, now);
      if r.Err? {
        return;
      }
      AfterCreate(old(State()), id, req, now);
      events := events + [Registered(id)];
      born := born[id := OrEmpty(req.phone)];
      lost := lost - {id};
    }

    /** Overwrites the supplied fields, drops the cached profile, and announces the change; a
        phone change is announced with the phone stored before, if that could be read. */
    method UpdateProfile(id: string, req: UpdateRequest, now: string)
      returns (r: Result<Account>, ghost fields: seq<string>, ghost prior: Option<string>)
      requires Valid()
      modifies this`clock, this`history, this`events, this`lost, profileCache, repo.client`table
      ensures Valid()
      ensures r.Ok? ==> Ascending(fields) && SetOf(fields) + {"updated_at"} == AccountPatch(req, now).Keys
      ensures r.Ok? ==> ProfileKey(id) in old(repo.client.table)
      ensures r.Ok? && prior.Some? ==> prior.value == PhoneOf(old(repo.client.table), id)
      ensures repo.client.healthy && r.Ok? && req.phone.Some? ==> prior.Some?
      ensures r.Ok? ==>
                var v := ProfileChanged(old(State()), id, req, now, fields, prior);
                && repo.client.table == v.table && events == v.events && lost == v.lost
                && var row, row' := old(repo.client.table)[ProfileKey(id)], repo.client.table[ProfileKey(id)];
                ProfileOverwritten(row, row', req, now)
      ensures r.Ok? ==> r == ProfileNow(repo.client.table, id) && id !in profileCache.m
      ensures r.Err? ==> repo.client.table == old(repo.client.table) && events == old(events) && lost == old(lost)
      ensures repo.client.healthy ==> lost == old(lost) && r != Err(Internal)
    {
      hide Coherent, AccountPatch, PhoneEvent, FieldsEvent, ToModel, SetOf, StrAttr, AccountPK, Ascending,
           ProfileOverwritten;
      prior := None;
      var priorPhone: Option<string> := PriorPhone(id, req);
      ghost var v := State();
      r := repo.UpdateAccount(id, req, now);
      prior, fields := priorPhone, [];
      if r.Err? {
        return;
      }
      profileCache.Delete(id);
      var changed := UpdateProfileChangedFields(req, now);
      fields := changed;
      AfterProfileUpdate(v, id, req, now, changed, priorPhone);
      events := events + FieldsEvent(id, changed);
      events := events + PhoneEvent(id, req.phone, priorPhone);
      if req.phone.Some? && priorPhone.None? {
        lost := lost + {id};
      }
      assert State() == ProfileChanged(v, id, req, now, changed, priorPhone);
    }

    /** The phone before an update that supplies one, if the profile can be read. */
    method PriorPhone(id: string, req: UpdateRequest) returns (prior: Option<string>)
      requires Valid()
      modifies this`clock, this`history, profileCache
      ensures Valid()
      ensures prior.Some? ==>
                req.phone.Some? && ProfileKey(id) in repo.client.table && prior.value == PhoneOf(repo.client.table, id)
      ensures repo.client.healthy && req.phone.Some? && ProfileKey(id) in repo.client.table ==> prior.Some?
    {
      hide Coherent;
      prior := None;
      if req.phone.Some? {
        var before := GetProfile(id);
        if before.Ok? {
          prior := Some(OrEmpty(before.value.phone));
        }
      }
    }

    /** Erases an account after confirmation: exports, avatar, rows, in this order. */
    method DeleteProfile(id: string, confirmEmail: string) returns (s: Status)
      requires Valid()
      modifies this`clock, this`history, this`events, this`stale, profileCache, credentialsCache
      modifies repo.client`table, repo.client`journal, s3
      ensures Valid()
      ensures TrimSpace(confirmEmail) == "" ==> s == Failed(InvalidInput)
      ensures s.Done? ==>
                && Erasable(old(repo.client.table), id) && Completed(old(Stored()), Stored(), id)
                && Lower(TrimSpace(confirmEmail)) == ClosingKey(old(repo.client.table), id)
                && events == old(events) + [AccountDeleted(id)] && id !in profileCache.m
      ensures var t := old(repo.client.table);
        PlainConfirmation(t, id, confirmEmail) ==>
          && (s.Done? ==> confirmEmail != "" && Lower(confirmEmail) == Lower(EmailOf(t, id)))
          && (s == Failed(InvalidInput) ==> confirmEmail == "" || Lower(confirmEmail) != Lower(EmailOf(t, id)))
      ensures s.Done? ==>
                var email, key := EmailOf(old(repo.client.table), id), ClosingKey(old(repo.client.table), id);
                email in credentialsCache.m <==> email in old(credentialsCache.m) && email != key
      ensures s.Failed? ==> FailedAttempt(old(Stored()), Stored(), id) && events == old(events)
      ensures s in {Failed(InvalidInput), Failed(NotFound)} ==> repo.client.table == old(repo.client.table)
      ensures old(FaultFree()) && TrimSpace(confirmEmail) != "" ==>
                s == if ProfileKey(id) !in old(repo.client.table) then Failed(NotFound)
                     else if Lower(TrimSpace(confirmEmail)) == ClosingKey(old(repo.client.table), id) then Done
                     else Failed(InvalidInput)
    {
      hide Coherent, TrimSpace, ToModel, Erased, PartlyErased, Under, ExportPrefix, AvatarKey, StrAttr,
           AccountPK, EmailPK, PlainConfirmation;
      ghost var t := repo.client.table;
      NothingErased(t, id);
      ConfirmationDecides(t, id, confirmEmail);
      var confirmation := TrimSpace(confirmEmail);
      if confirmation == "" {
        return Failed(InvalidInput);
      }
      var profile := GetProfile(id);
      if profile.Err? {
        return Failed(profile.error);
      }
      var email := Lower(TrimSpace(profile.value.email));
      ShownEmail(State(), id);
      if Lower(confirmation) != Lower(email) {
        return Failed(InvalidInput);
      }
      var cleared := DeleteS3Exports(id);
      if !cleared {
        return Failed(Internal);
      }
      cleared := DeleteAvatarObject(id);
      if !cleared {
        return Failed(Internal);
      }
      s := EraseRows(id, email);
    }

    /** Erases the rows of an account whose profile is there and has been read, and forgets it. */
    method EraseRows(id: string, email: string) returns (s: Status)
      requires Valid() && ProfileKey(id) in repo.client.table && email == ClosingKey(repo.client.table, id) != ""
      modifies this`events, this`stale, profileCache, credentialsCache, repo.client`table, repo.client`journal
      ensures Valid()
      ensures s.Done? ==>
                && repo.client.table == Erased(old(repo.client.table), id)
                && events == old(events) + [AccountDeleted(id)]
                && id !in profileCache.m && credentialsCache.m == old(credentialsCache.m) - {email}
      ensures s.Failed? ==>
                && s == Failed(Internal) && PartlyErased(old(repo.client.table), repo.client.table, id)
                && events == old(events)
      ensures repo.client.healthy ==> s.Done?
    {
      hide Coherent, Erased, PartlyErased, StrAttr, AccountPK, EmailPK, TrimSpace;
      ghost var v := State();
      ShownEmail(v, id);
      ghost var keys;
      s, keys := repo.DeleteAccount(id);
      if s.Failed? {
        AfterPartialErasure(v, repo.client.table, id);
        RetryConverges(v.table, repo.client.table, id);
        return;
      }
      AfterErasure(v, id);
      profileCache.Delete(id);
      if email != "" {
        credentialsCache.Delete(email);
      }
      stale := stale + ({EmailOf(v.table, id)} - {email});
      events := events + [AccountDeleted(id)];
      assert State() == ErasedView(v, id);
    }

    method DeleteS3Exports(id: string) returns (ok: bool)
      modifies s3
      ensures old(FaultFree()) ==> ok
      ensures s3 != null ==>
                && s3.avatars == old(s3.avatars) && s3.healthy == old(s3.healthy)
                && old(s3.exports) - Under(old(s3.exports), ExportPrefix(id)) <= s3.exports <= old(s3.exports)
                && (ok ==> s3.exports == old(s3.exports) - Under(old(s3.exports), ExportPrefix(id)))
    {
      if s3 == null {
        return true;
      }
      var listed, keys := s3.ListExports(ExportPrefix(id));
      if !listed {
        return false;
      }
      if |keys| == 0 {
        return true;
      }
      ok := s3.DeleteExports(keys);
    }

    method DeleteAvatarObject(id: string) returns (ok: bool)
      modifies s3
      ensures old(FaultFree()) ==> ok
      ensures s3 != null ==>
                && s3.exports == old(s3.exports) && s3.healthy == old(s3.healthy)
                && s3.avatars == if ok then old(s3.avatars) - {AvatarKey(id)} else old(s3.avatars)
    {
      if s3 == null {
        return true;
      }
      ok := s3.DeleteAvatar(AvatarKey(id));
    }

    method RememberCredentials(key: string, creds: Credentials) returns (ghost at: int)
      requires Valid() && Lower(key) == key && Lookup(repo.client.table, key) == Ok(creds)
      modifies this`clock, this`history, this`stale, credentialsCache
      ensures Valid() && at == clock && TrueAt(history, key, creds, at) && Agrees(repo.client.table, key, creds)
      ensures stale == old(stale) - {key}
      ensures key in credentialsCache.m && credentialsCache.m[key] == Entry(creds, clock + cacheTTL)
      ensures old(clock) <= clock
    {
      hide Coherent, AfterEviction, Lookup, LosesOneIfFull;
      var scanTime := Now();
      var storeTime := Now();
      var order := RangeOrder(credentialsCache.m);
      ghost var before := State();
      ghost var kept := AfterEviction(credentialsCache.m, credentialsCache.maxEntries, order, scanTime);
      credentialsCache.Set(key, creds, cacheTTL, order, scanTime, storeTime);
      stale := stale - {key};
      ForgettingIsSafe(before, before.profiles, kept, []);
      assert before.history + [] == before.history;
      CredentialsCached(before.(credentials := kept), key, creds, storeTime);
      assert State() == before.(credentials := kept[key := Entry(creds, storeTime + cacheTTL)], stale := stale);
      assert history[|history| - 1] == Moment(storeTime, repo.client.table);
      return storeTime;
    }

    /** Returns a lookup result that was true at a recorded moment no longer than the cache's
        time to live ago, and that is still true of the account id, the password hash and the
        sign-in methods unless the email is known to be stale. */
    method GetCredentials(email: string) returns (r: Result<Credentials>, ghost at: int)
      requires Valid()
      modifies this`clock, this`history, this`stale, credentialsCache
      ensures Valid()
      ensures r.Ok? ==> TrueAt(history, Lower(email), r.value, at) && at <= clock <= at + cacheTTL
      ensures r.Ok? && Lower(email) !in stale ==> Agrees(repo.client.table, email, r.value)
      ensures r.Err? && r != Err(Internal) ==> r == Lookup(repo.client.table, email)
      ensures repo.client.healthy ==> r != Err(Internal)
      ensures stale <= old(stale)
      ensures var key, m, m' := Lower(email), old(credentialsCache.m), credentialsCache.m;
        && (r.Ok? ==> key in m' && m'[key].value == r.value && clock <= m'[key].expiresAt)
        && (key in m && clock <= m[key].expiresAt ==> r == Ok(m[key].value) && m' == m)
    {
      hide Coherent, Lookup;
      var key := Lower(email);
      LowerIdempotent(email);
      LookupIgnoresCase(repo.client.table, email);
      AgreesIgnoresCase(repo.client.table, email);
      var now := Now();
      ghost var before := State();
      CoherentCaches(before);
      var hit := credentialsCache.Get(key, now);
      ForgettingIsSafe(before, before.profiles, credentialsCache.m, []);
      assert before.history + [] == before.history;
      at := 0;
      if hit.Some? {
        at := before.credentials[key].expiresAt - cacheTTL;
        return Ok(hit.value), at;
      }
      r := repo.GetAccountCredentialsByEmail(email);
      if r.Ok? {
        at := RememberCredentials(key, r.value);
      }
    }

    /** Overwrites the supplied secrets and drops the cached credentials of the account. */
    method UpdateCredentials(id: string, req: CredentialsRequest, now: string) returns (s: Status)
      requires Valid()
      modifies this`stale, credentialsCache, repo.client`table
      ensures Valid()
      ensures id == "" || (req.passwordHash.None? && req.authMethods.None?) ==> s == Failed(InvalidInput)
      ensures s.Done? ==> ProfileKey(id) in old(repo.client.table)
      ensures s.Done? ==> repo.client.table == CredentialsChanged(old(State()), id, req, now).table
      ensures s.Done? ==>
                var row, row' := old(repo.client.table)[ProfileKey(id)], repo.client.table[ProfileKey(id)];
                SecretsOverwritten(row, row', req, now)
      ensures s.Done? ==> stale <= old(stale) + {EmailOf(old(repo.client.table), id)}
      ensures s.Done? && EmailOf(old(repo.client.table), id) !in stale ==>
                EmailOf(old(repo.client.table), id) !in credentialsCache.m
      ensures s.Failed? ==> State() == old(State())
      ensures repo.client.healthy ==> stale <= old(stale) && s != Failed(Internal)
    {
      hide Coherent, ToModel, CredentialsPatch, AccountPK, SecretsOverwritten;
      if id == "" {
        return Failed(InvalidInput);
      }
      if req.passwordHash.None? && req.authMethods.None? {
        return Failed(InvalidInput);
      }
      ghost var v := State();
      s := repo.UpdateAccountCredentials(id, req, now);
      if s.Failed? {
        return;
      }
      ShownEmail(v, id);
      CredentialsPatchShows(v.table[ProfileKey(id)], req, now);
      var account := repo.GetAccount(id);
      if account.Err? {
        stale := stale + {EmailOf(v.table, id)};
        AfterCredentialsUpdate(v, id, req, now, credentialsCache.m, stale);
        return Done;
      }
      credentialsCache.Delete(Lower(account.value.email));
      AfterCredentialsUpdate(v, id, req, now, credentialsCache.m, stale);
      return Done;
    }

    /** Any other call of the service writes or deletes one child row. */
    method WriteChild(k: Key, row: Option<Item>)
      requires Valid() && ChildSK(k.sk) && ChildRow(row)
      modifies repo.client`table
      ensures Valid() && repo.client.table == Store(old(repo.client.table), k, row)
    {
      hide Coherent, ChildSK, ChildRow;
      AfterChildWrite(State(), k, row);
      repo.client.table := Store(repo.client.table, k, row);
    }

    /** A tick of the background sweeps of both caches. */
    method SweepCaches()
      requires Valid()
      modifies this`clock, this`history, profileCache, credentialsCache
      ensures Valid()
      ensures forall id :: id in profileCache.m <==>
                id in old(profileCache.m) && clock <= old(profileCache.m)[id].expiresAt
      ensures forall key :: key in credentialsCache.m <==>
                key in old(credentialsCache.m) && clock <= old(credentialsCache.m)[key].expiresAt
    {
      hide Coherent;
      var now := Now();
      ghost var before := State();
      var order := RangeOrder(profileCache.m);
      profileCache.Sweep(order, now);
      var order2 := RangeOrder(credentialsCache.m);
      credentialsCache.Sweep(order2, now);
      ForgettingIsSafe(before, profileCache.m, credentialsCache.m, []);
      assert before.history + [] == before.history;
    }
  }

  /** In alphabetical order, and so without repeats. */
  ghost predicate Ascending(names: seq<string>) {
    forall i, j | 0 <= i < j < |names| :: LexLess(names[i], names[j])
  }

  /** The names whose flag is set. */
  function Chosen(names: seq<string>, on: seq<bool>): seq<string>
    requires |names| == |on|
  {
    if names == [] then []
    else
      var n := |names| - 1;
      Chosen(names[..n], on[..n]) + if on[n] then [names[n]] else []
  }

  lemma ChosenStep(names: seq<string>, on: seq<bool>, i: nat)
    requires i < |names| == |on|
    ensures Chosen(names[..i + 1], on[..i + 1]) == Chosen(names[..i], on[..i]) + if on[i] then [names[i]] else []
  {
    assert names[..i + 1][..i] == names[..i] && on[..i + 1][..i] == on[..i];
  }

  ghost predicate Below(names: seq<string>, next: string) {
    forall x | x in names :: LexLess(x, next)
  }

  lemma AscendOn(names: seq<string>, next: string)
    requires Ascending(names) && Below(names, next)
    ensures Ascending(names + [next])
  {
    hide LexLess;
  }

  lemma {:induction false} ChosenAscend(names: seq<string>, on: seq<bool>)
    requires |names| == |on| && Ascending(names)
    ensures Ascending(Chosen(names, on))
    ensures forall x :: x in Chosen(names, on) <==> exists i :: 0 <= i < |names| && on[i] && names[i] == x
  {
    if names != [] {
      var n := |names| - 1;
      ChosenAscend(names[..n], on[..n]);
      BelowLast(names);
      hide LexLess, Ascending;
      var front := Chosen(names[..n], on[..n]);
      forall x | x in front ensures x in names[..n] {
        var i :| 0 <= i < n && on[..n][i] && names[..n][i] == x;
      }
      if on[n] {
        AscendOn(front, names[n]);
      } else {
        assert Chosen(names, on) == front;
      }
      forall x ensures x in Chosen(names, on) <==> exists i :: 0 <= i < |names| && on[i] && names[i] == x {
        ChosenLast(names, on, x);
      }
    }
  }

  lemma BelowLast(names: seq<string>)
    requires names != [] && Ascending(names)
    ensures Ascending(names[..|names| - 1])
    ensures Below(names[..|names| - 1], names[|names| - 1])
  {
    hide LexLess;
  }

  lemma ChosenLast(names: seq<string>, on: seq<bool>, x: string)
    requires |names| == |on| && names != []
    ensures var n := |names| - 1;
      (exists i :: 0 <= i < |names| && on[i] && names[i] == x) <==>
        (on[n] && names[n] == x) || exists i :: 0 <= i < n && on[..n][i] && names[..n][i] == x
  {
    var n := |names| - 1;
    if i :| 0 <= i < n && on[i] && names[i] == x {
      assert on[..n][i] && names[..n][i] == x;
    }
  }

  const AVATAR_URL := "avatar_url"
  const FIRST_NAME := "first_name"
  const LAST_NAME := "last_name"
  const PHONE := "phone"
  const PROFILE_FIELDS := [AVATAR_URL, FIRST_NAME, LAST_NAME, PHONE]

  function Flags(req: UpdateRequest): seq<bool> {
    [req.avatarUrl.Some?, req.firstName.Some?, req.lastName.Some?, req.phone.Some?]
  }

  lemma ProfileFieldsAscend()
    ensures Ascending(PROFILE_FIELDS)
  {
    assert LexLess(AVATAR_URL, FIRST_NAME) && LexLess(FIRST_NAME, LAST_NAME) && LexLess(LAST_NAME, PHONE);
    assert LexLess(AVATAR_URL, LAST_NAME) && LexLess(AVATAR_URL, PHONE) && LexLess(FIRST_NAME, PHONE);
  }

  lemma FieldColumns(req: UpdateRequest, now: string)
    ensures var cols, vals := ACCOUNT_COLUMNS, AccountValues(req, now);
      && |cols| == |vals| == 5 && vals[4].Some? && cols[4].attr == "updated_at"
      && cols[3].attr == AVATAR_URL && cols[1].attr == FIRST_NAME && cols[2].attr == LAST_NAME && cols[0].attr == PHONE
      && vals[3].Some? == req.avatarUrl.Some? && vals[1].Some? == req.firstName.Some?
      && vals[2].Some? == req.lastName.Some? && vals[0].Some? == req.phone.Some?
  {
  }

  /** The fields chosen are those the patch overwrites. */
  lemma ChosenArePatched(req: UpdateRequest, now: string)
    ensures Ascending(Chosen(PROFILE_FIELDS, Flags(req)))
    ensures SetOf(Chosen(PROFILE_FIELDS, Flags(req))) + {"updated_at"} == AccountPatch(req, now).Keys
  {
    hide Chosen, PatchOf, LexLess, Ascending, AVATAR_URL, FIRST_NAME, LAST_NAME, PHONE, ACCOUNT_COLUMNS, AccountValues;
    var names, on := PROFILE_FIELDS, Flags(req);
    var cols, vals := ACCOUNT_COLUMNS, AccountValues(req, now);
    ProfileFieldsAscend();
    ChosenAscend(names, on);
    PatchOfHolds(cols, vals);
    FieldColumns(req, now);
    forall x ensures x in Chosen(names, on) || x == "updated_at" <==> x in Supplied(cols, vals) {
      assert x in Chosen(names, on) <==>
        (on[0] && names[0] == x) || (on[1] && names[1] == x) || (on[2] && names[2] == x) || (on[3] && names[3] == x);
    }
  }

  /** The names of the supplied fields, in alphabetical order: the attributes overwritten besides
      the stamp. */
  method UpdateProfileChangedFields(req: UpdateRequest, ghost now: string) returns (fields: seq<string>)
    ensures Ascending(fields)
    ensures SetOf(fields) + {"updated_at"} == AccountPatch(req, now).Keys
  {
    ghost var names, on := PROFILE_FIELDS, Flags(req);
    fields := [];
    assert Chosen(names[..0], on[..0]) == fields;
    hide Chosen, AccountPatch, SetOf, Ascending, AVATAR_URL, FIRST_NAME, LAST_NAME, PHONE;
    if req.avatarUrl.Some? {
      fields := fields + [AVATAR_URL];
    }
    ChosenStep(names, on, 0);
    assert fields == Chosen(names[..1], on[..1]);
    if req.firstName.Some? {
      fields := fields + [FIRST_NAME];
    }
    ChosenStep(names, on, 1);
    assert fields == Chosen(names[..2], on[..2]);
    if req.lastName.Some? {
      fields := fields + [LAST_NAME];
    }
    ChosenStep(names, on, 2);
    assert fields == Chosen(names[..3], on[..3]);
    if req.phone.Some? {
      fields := fields + [PHONE];
    }
    ChosenStep(names, on, 3);
    assert fields == Chosen(names[..4], on[..4]);
    assert names[..4] == names && on[..4] == on;
    ChosenArePatched(req, now);
  }

  /** The email a profile shows is the stored one, in lower case already; its trimmed form is
      not empty unless it consists of spaces. */
  lemma ShownEmail(v: View, id: string)
    requires Coherent(v) && ProfileKey(id) in v.table
    ensures var email := EmailOf(v.table, id);
      && ToModel(v.table[ProfileKey(id)]).email == email && Lower(email) == email
      && (ClosingKey(v.table, id) != "" ==> Erasable(v.table, id))
    ensures Lower(ClosingKey(v.table, id)) == ClosingKey(v.table, id)
  {
    OneToOneAt(v.table, id);
    LowerIdempotent(TrimSpace(EmailOf(v.table, id)));
  }

  /** Neither the stored email nor the confirmation begins or ends with a blank. */
  predicate PlainConfirmation(t: Table, id: string, confirmEmail: string) {
    ProfileKey(id) in t && Trimmed(confirmEmail) && Trimmed(EmailOf(t, id))
  }

  /** Texts without blanks at the ends are compared as they are, up to letter case. */
  lemma ConfirmationDecides(t: Table, id: string, confirmEmail: string)
    ensures PlainConfirmation(t, id, confirmEmail) ==>
              && (Lower(TrimSpace(confirmEmail)) == ClosingKey(t, id) <==>
                    Lower(confirmEmail) == Lower(EmailOf(t, id)))
              && TrimSpace(confirmEmail) == confirmEmail
  {
    TrimSpaceKeeps(confirmEmail);
    if ProfileKey(id) in t {
      TrimSpaceKeeps(EmailOf(t, id));
    }
  }

  lemma NothingErased(t: Table, id: string)
    ensures PartlyErased(t, t, id)
  {
  }

  lemma AgreesIgnoresCase(t: Table, email: string)
    ensures forall c :: Agrees(t, Lower(email), c) <==> Agrees(t, email, c)
  {
    LookupIgnoresCase(t, email);
  }

  lemma CoherentCaches(v: View)
    requires Coherent(v)
    ensures ProfilesCurrent(v.table, v.profiles) && CredentialsCurrent(v.table, v.credentials, v.stale)
    ensures CredentialsWereTrue(v.history, v.credentials, v.ttl)
  {
  }
}
