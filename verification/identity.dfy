/** Account identity under interleaving: any number of creates, profile and credential
    updates, child-row writes and erasure steps on one table, with at most one erasure in
    flight per account. A storage fault or a crash is a step that does nothing or abandons
    an erasure. */
module Identity {
  import opened Basics
  import opened Dynamo
  import opened Accounts

  // ---------- the invariant on the table ----------

  /** Sort keys of the rows an account owns besides its profile. */
  predicate ChildSK(sk: string) {
    || sk == "SETTINGS" || sk == "PREFS"
    || "ADDR#" <= sk || "PAY#" <= sk || "PASSKEY#" <= sk || "CONSENT#" <= sk
  }

  lemma ChildSKApart(sk: string)
    requires ChildSK(sk)
    ensures sk != "PROFILE" && sk != "EMAIL"
  {
    assert "PROFILE"[1] == 'R' && "EMAIL"[0] == 'E';
  }

  function OwnerOf(k: Key): string {
    if |k.pk| < 8 then "" else k.pk[8..]
  }

  lemma OwnerOfAccount(id: string, sk: string)
    ensures OwnerOf(Key(AccountPK(id), sk)) == id
  {
  }

  predicate ProfileRowOk(row: Item, id: string) {
    && Attribute(row, "account_id") == Some(S(id))
    && var email := StrAttr(row, "email");
    && Lower(email) == email
    && Attribute(row, "email") == Some(S(email))
    && Attribute(row, "GSI1PK") == Some(S(EmailPK(email)))
    && Attribute(row, "GSI1SK") == Some(S("PROFILE"))
  }

  /** The reservation of an email, as registration writes it. */
  predicate ReservedFor(t: Table, email: string, id: string) {
    ReservationKey(email) in t && t[ReservationKey(email)] == ReservationRow(id, email)
  }

  /** What has to hold of the row under `k`: a profile owns the reservation of its email, a
      reservation is owned by a profile with its email, and nothing else is in the index. */
  predicate RowOk(t: Table, k: Key)
    requires k in t
  {
    if k.sk == "PROFILE" then
      var id := OwnerOf(k);
      k == ProfileKey(id) && ProfileRowOk(t[k], id) && ReservedFor(t, StrAttr(t[k], "email"), id)
    else if k.sk == "EMAIL" then
      var id, email := StrAttr(t[k], "account_id"), StrAttr(t[k], "email");
      && k == ReservationKey(email) && t[k] == ReservationRow(id, email)
      && ProfileKey(id) in t && StrAttr(t[ProfileKey(id)], "email") == email
    else
      ChildSK(k.sk) && "GSI1PK" !in t[k]
  }

  predicate OneToOne(t: Table) {
    forall k | k in t :: RowOk(t, k)
  }

  /** Read off for one account id: profile and reservation determine each other. */
  lemma OneToOneAt(t: Table, id: string)
    requires OneToOne(t) && ProfileKey(id) in t
    ensures ProfileRowOk(t[ProfileKey(id)], id)
    ensures ReservedFor(t, StrAttr(t[ProfileKey(id)], "email"), id)
  {
  }

  lemma ReservationRowShows(id: string, email: string)
    ensures StrAttr(ReservationRow(id, email), "account_id") == id
    ensures StrAttr(ReservationRow(id, email), "email") == Lower(email)
  {
  }

  /** Two accounts never share an email. */
  lemma EmailsUnique(t: Table, a: string, b: string)
    requires OneToOne(t) && ProfileKey(a) in t && ProfileKey(b) in t
    requires StrAttr(t[ProfileKey(a)], "email") == StrAttr(t[ProfileKey(b)], "email")
    ensures a == b
  {
  }

  /** The email lookup answers exactly from the reservations: its duplicate branch is dead. */
  lemma LookupIsExact(t: Table, email: string)
    requires OneToOne(t)
    ensures Resolve(t, email) ==
              if ReservationKey(email) in t
              then Ok(StrAttr(t[ReservationKey(email)], "account_id")) else Err(NotFound)
    ensures ReservationKey(email) in t ==>
              var id := StrAttr(t[ReservationKey(email)], "account_id");
              ProfileKey(id) in t && StrAttr(t[ProfileKey(id)], "email") == Lower(email)
  {
    hide ProfileRowOk, ReservationRow, EmailPK, AccountPK;
    var hits := Indexed(t, EmailPK(email), "PROFILE");
    forall k | k in hits ensures IsHit(t, k, email) {
      assert RowOk(t, k);
      HitIsProfile(t, k, email);
    }
    if ReservationKey(email) in t {
      var r := ReservationKey(email);
      assert RowOk(t, r);
      var id := StrAttr(t[r], "account_id");
      ReservationOwner(t, email);
      assert ProfileKey(id) in hits;
      forall k | k in hits ensures k == ProfileKey(id) {
        assert IsHit(t, k, email);
      }
      assert hits == {ProfileKey(id)};
      OneToOneAt(t, id);
      assert StrAttr(t[ProfileKey(id)], "account_id") == id by {
        ProfileShowsId(t[ProfileKey(id)], id);
      }
    } else {
      assert forall k | k in hits :: IsHit(t, k, email);
      assert hits == {};
    }
  }

  lemma ProfileShowsId(row: Item, id: string)
    requires ProfileRowOk(row, id)
    ensures StrAttr(row, "account_id") == id
  {
  }

  ghost predicate IsHit(t: Table, k: Key, email: string) {
    && ReservationKey(email) in t
    && k == ProfileKey(StrAttr(t[ReservationKey(email)], "account_id"))
  }

  lemma HitIsProfile(t: Table, k: Key, email: string)
    requires OneToOne(t) && k in Indexed(t, EmailPK(email), "PROFILE")
    ensures IsHit(t, k, email)
  {
    assert RowOk(t, k);
    KeysApart();
    var id := OwnerOf(k);
    var stored := StrAttr(t[k], "email");
    assert Lower(stored) == Lower(email);
    ReservationRowShows(id, stored);
  }

  lemma ReservationOwner(t: Table, email: string)
    requires OneToOne(t) && ReservationKey(email) in t
    ensures var id := StrAttr(t[ReservationKey(email)], "account_id");
      && ProfileKey(id) in t && StrAttr(t[ProfileKey(id)], "email") == Lower(email)
      && ProfileKey(id) in Indexed(t, EmailPK(email), "PROFILE")
  {
    var r := ReservationKey(email);
    assert RowOk(t, r);
    var id, stored := StrAttr(t[r], "account_id"), StrAttr(t[r], "email");
    KeysApart();
    assert Lower(stored) == Lower(email);
    ReservationRowShows(id, stored);
    OneToOneAt(t, id);
  }

  // ---------- every table step keeps it ----------

  lemma CreateKeeps(t: Table, id: string, req: CreateRequest, now: string)
    requires OneToOne(t)
    ensures OneToOne(Transact(t, CreateItems(id, req, now)).1)
  {
    hide CreateItems, Transact, ProfileRow, SettingsRow, ReservationRow, AccountPK, EmailPK, ChildSK, ProfileRowOk;
    CreateTransaction(t, id, req, now);
    if ProfileKey(id) !in t && SettingsKey(id) !in t && ReservationKey(req.email) !in t {
      var t' := WithAccount(t, id, req, now);
      NewRows(id, req, now);
      forall k | k in t' ensures RowOk(t', k) {
        if k in t {
          assert RowOk(t, k);
        }
      }
    }
  }

  lemma NewRows(id: string, req: CreateRequest, now: string)
    ensures var row := ProfileRow(id, req, now);
      ProfileRowOk(row, id) && StrAttr(row, "email") == Lower(req.email)
    ensures ChildSK("SETTINGS") && "GSI1PK" !in SettingsRow(now)
    ensures OwnerOf(ProfileKey(id)) == id
    ensures ReservationKey(Lower(req.email)) == ReservationKey(req.email)
    ensures ReservationRow(id, Lower(req.email)) == ReservationRow(id, req.email)
    ensures StrAttr(ReservationRow(id, req.email), "account_id") == id
    ensures StrAttr(ReservationRow(id, req.email), "email") == Lower(req.email)
    ensures ProfileKey(id) != ReservationKey(req.email) && SettingsKey(id) != ReservationKey(req.email)
  {
    LowerIdempotent(req.email);
    KeysApart();
  }

  const IDENTITY_ATTRIBUTES := {"account_id", "email", "GSI1PK", "GSI1SK"}

  lemma PatchKeeps(t: Table, id: string, patch: Item)
    requires OneToOne(t) && ProfileKey(id) in t && patch.Keys !! IDENTITY_ATTRIBUTES
    ensures OneToOne(t[ProfileKey(id) := t[ProfileKey(id)] + patch])
  {
    hide AccountPK, EmailPK, ReservationRow, ChildSK;
    var p := ProfileKey(id);
    var row := t[p] + patch;
    var t' := t[p := row];
    OneToOneAt(t, id);
    OwnerOfAccount(id, "PROFILE");
    assert forall a | a in IDENTITY_ATTRIBUTES :: Attribute(row, a) == Attribute(t[p], a);
    assert "account_id" in IDENTITY_ATTRIBUTES && "email" in IDENTITY_ATTRIBUTES;
    assert "GSI1PK" in IDENTITY_ATTRIBUTES && "GSI1SK" in IDENTITY_ATTRIBUTES;
    assert StrAttr(row, "email") == StrAttr(t[p], "email");
    assert ProfileRowOk(row, id);
    hide ProfileRowOk;
    forall k | k in t' ensures RowOk(t', k) {
      assert RowOk(t, k);
    }
  }

  lemma UpdatesKeep(t: Table, id: string, req: UpdateRequest, creds: CredentialsRequest, now: string)
    requires OneToOne(t) && ProfileKey(id) in t
    ensures OneToOne(t[ProfileKey(id) := t[ProfileKey(id)] + AccountPatch(req, now)])
    ensures OneToOne(t[ProfileKey(id) := t[ProfileKey(id)] + CredentialsPatch(creds, now)])
  {
    hide AccountPatch, CredentialsPatch, OneToOne;
    PatchesKeepIdentity(req, creds, now);
    PatchKeeps(t, id, AccountPatch(req, now));
    PatchKeeps(t, id, CredentialsPatch(creds, now));
  }

  ghost predicate ChildRow(row: Option<Item>) {
    row.Some? ==> "GSI1PK" !in row.value
  }

  lemma ChildWriteKeeps(t: Table, k: Key, row: Option<Item>)
    requires OneToOne(t) && ChildSK(k.sk) && ChildRow(row)
    ensures OneToOne(Store(t, k, row))
  {
    hide AccountPK, EmailPK, ReservationRow, ChildSK, ProfileRowOk;
    ChildSKApart(k.sk);
    var t' := Store(t, k, row);
    forall k' | k' in t' ensures RowOk(t', k') {
      if k' != k {
        assert RowOk(t, k');
      }
    }
  }

  lemma ChildrenGoneKeeps(t: Table, id: string, gone: set<Key>)
    requires OneToOne(t) && forall k | k in gone :: k.pk == AccountPK(id) && k.sk != "PROFILE"
    ensures OneToOne(t - gone)
  {
    hide ReservationRow, ChildSK, ProfileRowOk;
    KeysApart();
    hide AccountPK, EmailPK;
    forall k | k in t - gone ensures RowOk(t - gone, k) {
      assert RowOk(t, k);
    }
  }

  /** Removing a profile with its own reservation orphans no other row. */
  lemma IdentityGoneKeeps(t: Table, id: string)
    requires OneToOne(t) && ProfileKey(id) in t
    ensures OneToOne(t - SetOf(IdentityOf(t, id)))
  {
    OneToOneAt(t, id);
    var email := StrAttr(t[ProfileKey(id)], "email");
    var t' := t - SetOf(IdentityOf(t, id));
    assert SetOf(IdentityOf(t, id)) == {ProfileKey(id), ReservationKey(email)};
    forall k | k in t' ensures RowOk(t', k) {
      assert RowOk(t, k);
      if k.sk == "PROFILE" {
        OtherProfileKept(t, id, OwnerOf(k));
      } else if k.sk == "EMAIL" {
        OtherReservationKept(t, id, k);
      }
    }
  }

  lemma OtherProfileKept(t: Table, id: string, other: string)
    requires OneToOne(t) && ProfileKey(id) in t && ProfileKey(other) in t && other != id
    ensures ReservationKey(StrAttr(t[ProfileKey(other)], "email"))
         != ReservationKey(StrAttr(t[ProfileKey(id)], "email"))
    ensures ReservationKey(StrAttr(t[ProfileKey(other)], "email")) != ProfileKey(id)
  {
    OneToOneAt(t, id);
    OneToOneAt(t, other);
    hide OneToOne, RowOk;
    var e, f := StrAttr(t[ProfileKey(id)], "email"), StrAttr(t[ProfileKey(other)], "email");
    ReservationRowShows(id, e);
    ReservationRowShows(other, f);
    KeysApart();
  }

  lemma OtherReservationKept(t: Table, id: string, k: Key)
    requires OneToOne(t) && ProfileKey(id) in t && k in t && k.sk == "EMAIL"
    requires k != ReservationKey(StrAttr(t[ProfileKey(id)], "email"))
    ensures StrAttr(t[k], "account_id") != id
    ensures ProfileKey(StrAttr(t[k], "account_id")) != ProfileKey(id)
    ensures ProfileKey(StrAttr(t[k], "account_id")) != ReservationKey(StrAttr(t[ProfileKey(id)], "email"))
  {
  }

  // ---------- interleaved runs ----------

  /** An erasure in flight: the children it has yet to delete, the email it read, and the
      child rows others have written since its query. */
  datatype Job = Job(rest: seq<Key>, email: string, written: set<Key>)

  datatype State = State(table: Table, jobs: map<string, Job>)

  datatype Step =
    | Create(id: string, req: CreateRequest, now: string)
    | UpdateProfile(id: string, update: UpdateRequest, now: string)
    | UpdateCredentials(id: string, creds: CredentialsRequest, now: string)
    | WriteChild(id: string, sk: string, row: Option<Item>)
    | QueryRows(id: string, keys: seq<Key>)
    | DeleteChunk(id: string)
    | DeleteIdentity(id: string)
    | Abandon(id: string)
    | StorageFault

  /** A create, update or child write may come at any time; an erasure runs its own steps in
      order, starts only when none is in flight, and reads a profile with an email. */
  ghost predicate Enabled(s: State, step: Step) {
    match step
    case Create(_, _, _) => true
    case UpdateProfile(_, _, _) => true
    case UpdateCredentials(_, _, _) => true
    case WriteChild(_, sk, row) => ChildSK(sk) && ChildRow(row)
    case QueryRows(id, keys) =>
      id !in s.jobs && Enumerates(keys, s.table, AccountPK(id), "") && Erasable(s.table, id)
    case DeleteChunk(id) => id in s.jobs && s.jobs[id].rest != []
    case DeleteIdentity(id) => id in s.jobs && s.jobs[id].rest == []
    case Abandon(id) => id in s.jobs
    case StorageFault => true
  }

  function Created(t: Table, id: string, req: CreateRequest, now: string): Table {
    Transact(t, CreateItems(id, req, now)).1
  }

  function ProfileUpdated(t: Table, id: string, update: UpdateRequest, now: string): Table {
    var e := ExpressionOf(NO_CLAUSES, ACCOUNT_COLUMNS, AccountValues(update, now));
    UpdateItem(t, ProfileKey(id), e.ToUpdate(), Exists).1
  }

  function CredentialsUpdated(t: Table, id: string, creds: CredentialsRequest, now: string): Table {
    var e := ExpressionOf(NO_CLAUSES, CREDENTIALS_COLUMNS, CredentialsValues(creds, now));
    UpdateItem(t, ProfileKey(id), e.ToUpdate(), Exists).1
  }

  function ChildWritten(s: State, id: string, sk: string, row: Option<Item>): State {
    var k := Key(AccountPK(id), sk);
    State(Store(s.table, k, row),
          if id in s.jobs then s.jobs[id := s.jobs[id].(written := s.jobs[id].written + {k})] else s.jobs)
  }

  function Queried(s: State, id: string, keys: seq<Key>): State
    requires ProfileKey(id) in s.table
  {
    s.(jobs := s.jobs[id := Job(WithoutProfile(keys), StrAttr(s.table[ProfileKey(id)], "email"), {})])
  }

  function ChunkSize(rest: seq<Key>): nat {
    Min(ERASURE_CHUNK_SIZE, |rest|)
  }

  function ChunkDeleted(s: State, id: string): State
    requires id in s.jobs
  {
    var job := s.jobs[id];
    var n := ChunkSize(job.rest);
    State(Transact(s.table, Deletes(job.rest[..n])).1, s.jobs[id := job.(rest := job.rest[n..])])
  }

  function IdentityDeleted(s: State, id: string): State
    requires id in s.jobs
  {
    State(Transact(s.table, Deletes([ProfileKey(id), ReservationKey(s.jobs[id].email)])).1, s.jobs - {id})
  }

  function Next(s: State, step: Step): State
    requires step.QueryRows? ==> ProfileKey(step.id) in s.table
    requires step.DeleteChunk? || step.DeleteIdentity? ==> step.id in s.jobs
  {
    match step
    case Create(id, req, now) => s.(table := Created(s.table, id, req, now))
    case UpdateProfile(id, update, now) => s.(table := ProfileUpdated(s.table, id, update, now))
    case UpdateCredentials(id, creds, now) => s.(table := CredentialsUpdated(s.table, id, creds, now))
    case WriteChild(id, sk, row) => ChildWritten(s, id, sk, row)
    case QueryRows(id, keys) => Queried(s, id, keys)
    case DeleteChunk(id) => ChunkDeleted(s, id)
    case DeleteIdentity(id) => IdentityDeleted(s, id)
    case Abandon(id) => s.(jobs := s.jobs - {id})
    case StorageFault => s
  }

  predicate ChildOf(k: Key, id: string) {
    k.pk == AccountPK(id) && k.sk != "PROFILE"
  }

  /** An erasure in flight still finds the profile it read, and every child row left is one
      it will delete or one written since its query. */
  ghost predicate JobOk(t: Table, id: string, job: Job) {
    && ProfileKey(id) in t && StrAttr(t[ProfileKey(id)], "email") == job.email
    && Distinct(job.rest)
    && (forall k | k in job.rest :: ChildOf(k, id))
    && (forall k | k in job.written :: ChildOf(k, id))
    && (forall k | k in t && ChildOf(k, id) :: k in job.written || k in job.rest)
  }

  ghost predicate JobsOk(s: State) {
    forall id | id in s.jobs :: JobOk(s.table, id, s.jobs[id])
  }

  ghost predicate Inv(s: State) {
    OneToOne(s.table) && JobsOk(s)
  }

  /** A step within one partition, or on a reservation, leaves the other erasures valid. */
  lemma OtherJobs(s: State, t': Table, id: string, other: string)
    requires JobsOk(s) && other in s.jobs && other != id
    requires forall k: Key | k.pk != AccountPK(id) && k.sk != "EMAIL" :: Row(t', k) == Row(s.table, k)
    requires forall k | k in t' && k.sk == "EMAIL" :: forall a :: k.pk != AccountPK(a)
    ensures JobOk(t', other, s.jobs[other])
  {
    KeysApart();
    hide AccountPK, StrAttr;
    var job := s.jobs[other];
    assert JobOk(s.table, other, job);
    assert Row(t', ProfileKey(other)) == Row(s.table, ProfileKey(other));
    forall k | k in t' && ChildOf(k, other) ensures k in job.written || k in job.rest {
      assert Row(t', k) == Row(s.table, k);
    }
  }

  /** In a one-to-one table the rows under an account's key have no reservation sort key. */
  lemma NoReservationInPartition(t: Table)
    requires OneToOne(t)
    ensures forall k, a | k in t && k.sk == "EMAIL" :: k.pk != AccountPK(a)
  {
    KeysApart();
    hide AccountPK, EmailPK;
    forall k, a | k in t && k.sk == "EMAIL" ensures k.pk != AccountPK(a) {
      assert RowOk(t, k);
    }
  }

  /** Registration only adds rows, and none to the partition of an existing account. */
  lemma CreatedElsewhere(t: Table, id: string, req: CreateRequest, now: string)
    ensures Created(t, id, req, now) == t || ProfileKey(id) !in t
    ensures forall k: Key | k.pk != AccountPK(id) && k.sk != "EMAIL" :: Row(Created(t, id, req, now), k) == Row(t, k)
  {
    hide ProfileRow, SettingsRow, ReservationRow, CreateItems, Transact, AccountPK, EmailPK;
    CreateTransaction(t, id, req, now);
  }

  lemma CreateStep(s: State, id: string, req: CreateRequest, now: string)
    requires Inv(s)
    ensures Inv(s.(table := Created(s.table, id, req, now)))
  {
    var t' := Created(s.table, id, req, now);
    CreateKeeps(s.table, id, req, now);
    CreatedElsewhere(s.table, id, req, now);
    NoReservationInPartition(t');
    hide OneToOne, Created, AccountPK, Distinct, ChildOf, StrAttr;
    if t' != s.table {
      forall other | other in s.jobs ensures JobOk(t', other, s.jobs[other]) {
        assert JobOk(s.table, other, s.jobs[other]);
        OtherJobs(s, t', id, other);
      }
    }
  }

  lemma PatchKeepsEmail(row: Item, patch: Item)
    requires patch.Keys !! IDENTITY_ATTRIBUTES
    ensures StrAttr(row + patch, "email") == StrAttr(row, "email")
  {
  }

  /** Overwriting attributes of one profile other than its identity leaves erasures valid. */
  lemma PatchJobs(s: State, id: string, row: Item)
    requires JobsOk(s) && ProfileKey(id) in s.table
    requires StrAttr(row, "email") == StrAttr(s.table[ProfileKey(id)], "email")
    ensures JobsOk(s.(table := s.table[ProfileKey(id) := row]))
  {
  }

  lemma PatchStep(s: State, id: string, patch: Item)
    requires Inv(s) && ProfileKey(id) in s.table && patch.Keys !! IDENTITY_ATTRIBUTES
    ensures Inv(s.(table := s.table[ProfileKey(id) := s.table[ProfileKey(id)] + patch]))
  {
    hide OneToOne, AccountPK, JobsOk, StrAttr;
    PatchKeeps(s.table, id, patch);
    PatchKeepsEmail(s.table[ProfileKey(id)], patch);
    PatchJobs(s, id, s.table[ProfileKey(id)] + patch);
  }

  lemma UpdateSteps(s: State, id: string, update: UpdateRequest, creds: CredentialsRequest, now: string)
    requires Inv(s)
    ensures Inv(s.(table := ProfileUpdated(s.table, id, update, now)))
    ensures Inv(s.(table := CredentialsUpdated(s.table, id, creds, now)))
  {
    AccountUpdateMeansPatch(update, creds, now);
    PatchesKeepIdentity(update, creds, now);
    hide Inv, AccountPatch, CredentialsPatch, ExpressionOf, WellFormed, ApplyTo, AccountValues,
         CredentialsValues, AccountPK;
    if ProfileKey(id) in s.table {
      PatchStep(s, id, AccountPatch(update, now));
      PatchStep(s, id, CredentialsPatch(creds, now));
    } else {
      assert s.(table := s.table) == s;
    }
  }

  /** Someone else's child write is recorded by the erasure of the same account. */
  lemma WrittenRecorded(t: Table, id: string, job: Job, k: Key, row: Option<Item>)
    requires JobOk(t, id, job) && ChildOf(k, id)
    ensures JobOk(Store(t, k, row), id, job.(written := job.written + {k}))
  {
  }

  lemma StoreElsewhere(t: Table, k: Key, row: Option<Item>)
    ensures forall k' | k' != k :: Row(Store(t, k, row), k') == Row(t, k')
  {
  }

  lemma ChildStep(s: State, id: string, sk: string, row: Option<Item>)
    requires Inv(s) && ChildSK(sk) && ChildRow(row)
    ensures Inv(ChildWritten(s, id, sk, row))
  {
    hide ChildSK, ChildRow, JobOk;
    var k := Key(AccountPK(id), sk);
    var t' := Store(s.table, k, row);
    ChildSKApart(sk);
    ChildWriteKeeps(s.table, k, row);
    NoReservationInPartition(t');
    hide OneToOne, AccountPK;
    if id in s.jobs {
      WrittenRecorded(s.table, id, s.jobs[id], k, row);
    }
    hide Store;
    assert forall k': Key | k'.pk != AccountPK(id) && k'.sk != "EMAIL" :: Row(t', k') == Row(s.table, k') by {
      StoreElsewhere(s.table, k, row);
    }
    forall other | other in s.jobs && other != id ensures JobOk(t', other, s.jobs[other]) {
      OtherJobs(s, t', id, other);
    }
  }

  lemma QueryStep(s: State, id: string, keys: seq<Key>)
    requires Inv(s) && Enabled(s, QueryRows(id, keys))
    ensures Inv(Queried(s, id, keys))
  {
    hide OneToOne, AccountPK, StrAttr;
    QueriedPartition(s.table, id, keys);
    WithoutProfileIsRest(keys);
    hide Enumerates, WithoutProfile;
    var s' := Queried(s, id, keys);
    forall other | other in s'.jobs ensures JobOk(s'.table, other, s'.jobs[other]) {
      if other != id {
        assert JobOk(s.table, other, s.jobs[other]);
      }
    }
  }

  lemma SliceDistinct(rest: seq<Key>, n: nat)
    requires Distinct(rest) && n <= |rest|
    ensures Distinct(rest[..n]) && Distinct(rest[n..])
    ensures forall k :: k in rest <==> k in rest[..n] || k in rest[n..]
  {
  }

  /** Deleting the next chunk leaves the job the children after it. */
  lemma ChunkDone(t: Table, id: string, job: Job, n: nat)
    requires JobOk(t, id, job) && n <= |job.rest|
    ensures JobOk(t - SetOf(job.rest[..n]), id, job.(rest := job.rest[n..]))
  {
  }

  lemma ChunkTransaction(t: Table, id: string, job: Job, n: nat)
    requires JobOk(t, id, job) && 1 <= n <= |job.rest| && n <= ERASURE_CHUNK_SIZE
    ensures Transact(t, Deletes(job.rest[..n])) == (Written, t - SetOf(job.rest[..n]))
    ensures forall k | k in SetOf(job.rest[..n]) :: ChildOf(k, id)
  {
    hide Transact, Deletes;
    SliceDistinct(job.rest, n);
    TransactDeletes(t, job.rest[..n]);
  }

  lemma ChunkStep(s: State, id: string)
    requires Inv(s) && id in s.jobs && s.jobs[id].rest != []
    ensures Inv(ChunkDeleted(s, id))
  {
    hide Transact, Deletes, JobOk, Distinct, StrAttr;
    var job := s.jobs[id];
    var n := ChunkSize(job.rest);
    var t' := s.table - SetOf(job.rest[..n]);
    ChunkTransaction(s.table, id, job, n);
    ChunkDone(s.table, id, job, n);
    ChildrenGoneKeeps(s.table, id, SetOf(job.rest[..n]));
    NoReservationInPartition(t');
    hide OneToOne, AccountPK;
    forall other | other in s.jobs && other != id ensures JobOk(t', other, s.jobs[other]) {
      OtherJobs(s, t', id, other);
    }
  }

  /** The last transaction removes the profile and the reservation the table holds for it. */
  lemma IdentityTable(s: State, id: string)
    requires Inv(s) && id in s.jobs
    ensures ProfileKey(id) in s.table
    ensures IdentityDeleted(s, id) == State(s.table - SetOf(IdentityOf(s.table, id)), s.jobs - {id})
    ensures SetOf(IdentityOf(s.table, id)) == {ProfileKey(id), ReservationKey(s.jobs[id].email)}
  {
    hide OneToOne, Transact, Deletes, AccountPK, EmailPK, StrAttr;
    assert JobOk(s.table, id, s.jobs[id]);
    IdentityDistinct(s.table, id);
    TransactDeletes(s.table, IdentityOf(s.table, id));
    var gone := IdentityOf(s.table, id);
    assert SetOf(gone) == {gone[0], gone[1]};
  }

  lemma IdentityStep(s: State, id: string)
    requires Inv(s) && id in s.jobs && s.jobs[id].rest == []
    ensures Inv(IdentityDeleted(s, id))
  {
    hide Transact, Deletes, JobOk, Distinct, StrAttr;
    IdentityTable(s, id);
    var t' := s.table - SetOf(IdentityOf(s.table, id));
    IdentityGoneKeeps(s.table, id);
    NoReservationInPartition(t');
    hide OneToOne, IdentityDeleted, IdentityOf, AccountPK, EmailPK;
    forall other | other in s.jobs && other != id ensures JobOk(t', other, s.jobs[other]) {
      OtherJobs(s, t', id, other);
    }
  }

  lemma StepKeepsInv(s: State, step: Step)
    requires Inv(s) && Enabled(s, step)
    ensures Inv(Next(s, step))
  {
    hide Created, ProfileUpdated, CredentialsUpdated, ChildWritten, Queried, ChunkDeleted,
         IdentityDeleted, OneToOne, JobOk;
    match step
    case Create(id, req, now) => CreateStep(s, id, req, now);
    case UpdateProfile(id, update, now) => UpdateSteps(s, id, update, CredentialsRequest(None, None), now);
    case UpdateCredentials(id, creds, now) => UpdateSteps(s, id, UpdateRequest(None, None, None, None), creds, now);
    case WriteChild(id, sk, row) => ChildStep(s, id, sk, row);
    case QueryRows(id, keys) => QueryStep(s, id, keys);
    case DeleteChunk(id) => ChunkStep(s, id);
    case DeleteIdentity(id) => IdentityStep(s, id);
    case Abandon(_) =>
    case StorageFault =>
  }

  /** `before` takes its enabled step `step` to `after`. */
  ghost predicate Moves(before: State, step: Step, after: State) {
    Enabled(before, step) && after == Next(before, step)
  }

  /** Every state but the first follows from the one before it by a step. */
  ghost predicate Path(states: seq<State>, steps: seq<Step>) {
    && |states| == |steps| + 1
    && forall i | 0 <= i < |steps| :: Moves(states[i], steps[i], states[i + 1])
  }

  /** A run starts on the empty table. */
  ghost predicate Run(states: seq<State>, steps: seq<Step>) {
    Path(states, steps) && states[0] == State(map[], map[])
  }

  lemma {:induction false} InvAlong(states: seq<State>, steps: seq<Step>, n: nat)
    requires Path(states, steps) && Inv(states[0]) && n <= |steps|
    ensures Inv(states[n])
  {
    hide Enabled, Next, Inv;
    if n > 0 {
      InvAlong(states, steps, n - 1);
      assert Moves(states[n - 1], steps[n - 1], states[n]);
      StepKeepsInv(states[n - 1], steps[n - 1]);
    }
  }

  /** Identity is one-to-one in every reachable state, so the lookup by email is never
      ambiguous: it finds exactly the account that holds the reservation. */
  lemma IdentityIsOneToOne(states: seq<State>, steps: seq<Step>, n: nat)
    requires Run(states, steps) && n <= |steps|
    ensures Inv(states[n])
    ensures forall email :: Resolve(states[n].table, email) ==
              if ReservationKey(email) in states[n].table
              then Ok(StrAttr(states[n].table[ReservationKey(email)], "account_id")) else Err(NotFound)
  {
    hide Moves, JobOk, RowOk, Resolve;
    InvAlong(states, steps, n);
    forall email
      ensures Resolve(states[n].table, email) ==
                if ReservationKey(email) in states[n].table
                then Ok(StrAttr(states[n].table[ReservationKey(email)], "account_id")) else Err(NotFound)
    {
      LookupIsExact(states[n].table, email);
    }
  }

  /** A finished erasure frees the email, touches no other account, and leaves in the
      partition exactly the rows written, and not deleted again, since its query. */
  lemma ErasureLeavesOnlyLaterWrites(s: State, id: string)
    requires Inv(s) && Enabled(s, DeleteIdentity(id))
    ensures var t' := IdentityDeleted(s, id).table;
      && ProfileKey(id) !in t' && ReservationKey(s.jobs[id].email) !in t'
      && (forall k: Key | k.pk == AccountPK(id) :: k in t' <==> k in s.table && k in s.jobs[id].written)
      && (forall k: Key | k.pk != AccountPK(id) && k != ReservationKey(s.jobs[id].email) ::
            Row(t', k) == Row(s.table, k))
  {
    hide Transact, Deletes, Distinct, StrAttr, OneToOne, IdentityOf;
    var job := s.jobs[id];
    IdentityTable(s, id);
    KeysApart();
    hide AccountPK, EmailPK, IdentityDeleted;
    LeftoverKeys(s.table, id, job);
  }

  lemma LeftoverKeys(t: Table, id: string, job: Job)
    requires JobOk(t, id, job) && job.rest == []
    ensures forall k: Key | k.pk == AccountPK(id) ::
              k in t && k != ProfileKey(id) <==> k in t && k in job.written
  {
  }

  /** A child row written while the identity transaction is pending outlives the account. */
  lemma LateWriteSurvives(s: State, id: string, sk: string, row: Item)
    requires Inv(s) && Enabled(s, DeleteIdentity(id)) && ChildSK(sk) && "GSI1PK" !in row
    ensures var before := Next(s, WriteChild(id, sk, Some(row)));
      && Enabled(before, DeleteIdentity(id))
      && Key(AccountPK(id), sk) in Next(before, DeleteIdentity(id)).table
      && ProfileKey(id) !in Next(before, DeleteIdentity(id)).table
  {
    hide Inv, ChildSK, IdentityDeleted, AccountPK, EmailPK;
    ChildStep(s, id, sk, Some(row));
    ErasureLeavesOnlyLaterWrites(ChildWritten(s, id, sk, Some(row)), id);
  }

  /** The chunks the interleaved erasure deletes are those the erasure loop submits. */
  lemma StepsFollowTheLoop(rest: seq<Key>)
    requires rest != []
    ensures Chunks(rest) == [rest[..ChunkSize(rest)]] + Chunks(rest[ChunkSize(rest)..])
  {
    ChunksUnfold(rest, 0);
    assert rest[0..] == rest;
  }

  // ---------- erasure stays in its partition ----------

  predicate ErasureStep(step: Step, id: string) {
    (step.QueryRows? || step.DeleteChunk? || step.DeleteIdentity? || step.Abandon?) && step.id == id
  }

  /** An erasure step changes no row outside the partition, except that the last one removes the
      reservation of the email the erasure has read. */
  lemma ErasureStaysHome(s: State, step: Step, id: string)
    requires Inv(s) && Enabled(s, step) && ErasureStep(step, id)
    ensures forall k: Key | k.pk != AccountPK(id)
                            && !(step.DeleteIdentity? && k == ReservationKey(s.jobs[id].email)) ::
              Row(Next(s, step).table, k) == Row(s.table, k)
  {
    hide OneToOne, Transact, Deletes, Distinct, StrAttr, Enumerates;
    if step.DeleteChunk? {
      assert JobOk(s.table, id, s.jobs[id]);
      ChunkTransaction(s.table, id, s.jobs[id], ChunkSize(s.jobs[id].rest));
    } else if step.DeleteIdentity? {
      IdentityTable(s, id);
    }
    hide AccountPK, EmailPK;
  }

  /** From its query on, in every run, the steps of an erasure change no row of another partition
      and no reservation but that of the email its profile had at the query. */
  lemma {:induction false} ErasureFromQueryOn(states: seq<State>, steps: seq<Step>, id: string, n: nat)
    requires Path(states, steps) && Inv(states[0]) && n < |steps|
    requires steps[0].QueryRows? && steps[0].id == id && forall i | 1 <= i <= n :: id in states[i].jobs
    ensures ProfileKey(id) in states[0].table
    ensures var email := StrAttr(states[0].table[ProfileKey(id)], "email");
      && (n > 0 ==> states[n].jobs[id].email == email)
      && (ErasureStep(steps[n], id) ==>
            forall k: Key | k.pk != AccountPK(id) && k != ReservationKey(email) ::
              Row(states[n + 1].table, k) == Row(states[n].table, k))
  {
    hide Inv, OneToOne, StrAttr, AccountPK, EmailPK, Enumerates, Created, ProfileUpdated, CredentialsUpdated, Transact,
         Deletes;
    assert Moves(states[n], steps[n], states[n + 1]);
    assert Moves(states[0], steps[0], states[1]);
    InvAlong(states, steps, n);
    if n > 0 {
      ErasureFromQueryOn(states, steps, id, n - 1);
      assert Moves(states[n - 1], steps[n - 1], states[n]);
      if n > 1 {
        EmailStays(states[n - 1], steps[n - 1], id);
      }
    }
    if ErasureStep(steps[n], id) {
      ErasureStaysHome(states[n], steps[n], id);
    }
  }

  lemma EmailStays(s: State, step: Step, id: string)
    requires Enabled(s, step) && id in s.jobs && id in Next(s, step).jobs
    ensures Next(s, step).jobs[id].email == s.jobs[id].email
  {
    hide Created, ProfileUpdated, CredentialsUpdated, Transact, Deletes, Store, Enumerates, Erasable;
  }

  // ---------- what an abandoned erasure has lost ----------

  /** A query, any number of chunks, and then nothing more. */
  ghost predicate AbandonedErasure(states: seq<State>, steps: seq<Step>, id: string) {
    && Path(states, steps) && |steps| >= 2
    && steps[0].QueryRows? && steps[0].id == id && steps[|steps| - 1] == Abandon(id)
    && forall i | 1 <= i < |steps| - 1 :: steps[i] == DeleteChunk(id)
  }

  /** How many of `total` children `n` chunks delete. */
  function Gone(n: nat, total: nat): (gone: nat)
    ensures gone <= total
  {
    Min(n * ERASURE_CHUNK_SIZE, total)
  }

  lemma GoneNext(n: nat, rest: seq<Key>, total: nat)
    requires |rest| == total - Gone(n, total)
    ensures Gone(n + 1, total) == Gone(n, total) + ChunkSize(rest)
  {
  }

  /** After `n` chunks exactly the first `100 * n` children are gone. */
  lemma {:induction false} ChunksGone(states: seq<State>, steps: seq<Step>, id: string, n: nat)
    requires AbandonedErasure(states, steps, id) && Inv(states[0]) && n <= |steps| - 2
    ensures var children, gone := WithoutProfile(steps[0].keys), Gone(n, |WithoutProfile(steps[0].keys)|);
      && id in states[n + 1].jobs && states[n + 1].jobs[id].rest == children[gone..]
      && states[n + 1].table == states[0].table - SetOf(children[..gone])
  {
    hide Inv, WithoutProfile, ChunkDeleted, SetOf, Gone, ChunkSize, Enabled;
    var children := WithoutProfile(steps[0].keys);
    if n == 0 {
      QueryMove(states, steps, id);
      NothingGone(children);
    } else {
      ChunksGone(states, steps, id, n - 1);
      ChunkMove(states, steps, id, n);
      InvAlong(states, steps, n);
      hide Path, AbandonedErasure;
      var gone, rest := Gone(n - 1, |children|), states[n].jobs[id].rest;
      ChunkTaken(states[n], id);
      GoneNext(n - 1, rest, |children|);
      NextSlice(children, gone, ChunkSize(rest));
      GoneTwice(states[0].table, children, gone, ChunkSize(rest));
    }
  }

  lemma NothingGone(keys: seq<Key>)
    ensures Gone(0, |keys|) == 0 && SetOf(keys[..0]) == {}
  {
  }

  lemma QueryMove(states: seq<State>, steps: seq<Step>, id: string)
    requires AbandonedErasure(states, steps, id)
    ensures id in states[1].jobs && states[1].jobs[id].rest == WithoutProfile(steps[0].keys)
    ensures states[1].table == states[0].table && Enabled(states[0], steps[0])
  {
    hide WithoutProfile, Enumerates, Erasable, StrAttr;
    assert Moves(states[0], steps[0], states[1]);
  }

  lemma ChunkMove(states: seq<State>, steps: seq<Step>, id: string, n: nat)
    requires AbandonedErasure(states, steps, id) && 1 <= n <= |steps| - 2
    ensures id in states[n].jobs && states[n].jobs[id].rest != [] && states[n + 1] == ChunkDeleted(states[n], id)
  {
    hide ChunkDeleted;
    assert Moves(states[n], steps[n], states[n + 1]);
  }

  lemma ChunkTaken(s: State, id: string)
    requires Inv(s) && id in s.jobs && s.jobs[id].rest != []
    ensures var rest, n := s.jobs[id].rest, ChunkSize(s.jobs[id].rest);
      && n <= |rest|
      && ChunkDeleted(s, id) == State(s.table - SetOf(rest[..n]), s.jobs[id := s.jobs[id].(rest := rest[n..])])
  {
    JobKnown(s, id);
    hide Inv, Transact, Deletes, JobOk, SetOf;
    ChunkTransaction(s.table, id, s.jobs[id], ChunkSize(s.jobs[id].rest));
  }

  lemma NextSlice(keys: seq<Key>, gone: nat, size: nat)
    requires gone + size <= |keys|
    ensures keys[gone..][..size] == keys[gone..gone + size] && keys[gone..][size..] == keys[gone + size..]
  {
  }

  lemma GoneTwice(t: Table, keys: seq<Key>, gone: nat, size: nat)
    requires gone + size <= |keys|
    ensures t - SetOf(keys[..gone]) - SetOf(keys[gone..gone + size]) == t - SetOf(keys[..gone + size])
  {
    assert keys[..gone + size] == keys[..gone] + keys[gone..gone + size];
    assert SetOf(keys[..gone + size]) == SetOf(keys[..gone]) + SetOf(keys[gone..gone + size]);
  }

  lemma JobKnown(s: State, id: string)
    requires Inv(s) && id in s.jobs
    ensures JobOk(s.table, id, s.jobs[id])
  {
  }

  /** Some order in which a query may return a partition. */
  lemma {:induction false} Enumeration(wanted: set<Key>) returns (keys: seq<Key>)
    ensures Distinct(keys) && forall k :: k in keys <==> k in wanted
    decreases |wanted|
  {
    keys := [];
    if wanted != {} {
      var k :| k in wanted;
      var rest := Enumeration(wanted - {k});
      keys := rest + [k];
    }
  }

  ghost predicate HasChild(t: Table, id: string) {
    exists k :: k in t && ChildOf(k, id)
  }

  lemma QueryFindsChild(t: Table, id: string) returns (keys: seq<Key>)
    requires HasChild(t, id)
    ensures Enumerates(keys, t, AccountPK(id), "") && WithoutProfile(keys) != []
  {
    keys := Enumeration(set k | k in t && k.pk == AccountPK(id));
    WithoutProfileIsRest(keys);
    var k :| k in t && ChildOf(k, id);
    hide WithoutProfile, AccountPK;
    assert k in WithoutProfile(keys);
  }

  /** An erasure that is given up after its first chunk. */
  lemma OneChunk(s: State, id: string) returns (states: seq<State>, steps: seq<Step>)
    requires Inv(s) && Erasable(s.table, id) && id !in s.jobs && HasChild(s.table, id)
    ensures AbandonedErasure(states, steps, id) && states[0] == s && |steps| == 3
    ensures WithoutProfile(steps[0].keys) != []
  {
    hide Inv, WithoutProfile, Enumerates, ChunkDeleted, HasChild, Erasable;
    var keys := QueryFindsChild(s.table, id);
    assert ProfileKey(id) in s.table by { ErasableHasProfile(s.table, id); }
    var s1 := Queried(s, id, keys);
    var s2 := ChunkDeleted(s1, id);
    ChunkKeepsJob(s1, id);
    states := [s, s1, s2, s2.(jobs := s2.jobs - {id})];
    steps := [QueryRows(id, keys), DeleteChunk(id), Abandon(id)];
    assert Moves(states[0], steps[0], states[1]);
    assert Moves(states[1], steps[1], states[2]);
    assert Moves(states[2], steps[2], states[3]);
  }

  lemma ErasableHasProfile(t: Table, id: string)
    requires Erasable(t, id)
    ensures ProfileKey(id) in t
  {
  }

  lemma ChunkKeepsJob(s: State, id: string)
    requires id in s.jobs
    ensures id in ChunkDeleted(s, id).jobs
  {
  }

  /** A failed erasure can lose a row exactly when the account has a row besides its profile. */
  lemma LossIsPossibleExactly(s: State, id: string)
    requires Inv(s) && Erasable(s.table, id) && id !in s.jobs
    ensures HasChild(s.table, id) <==>
              exists states: seq<State>, steps: seq<Step> ::
                AbandonedErasure(states, steps, id) && states[0] == s && states[|steps|].table != s.table
  {
    hide Inv, WithoutProfile, Transact, Deletes, Enumerates, Distinct, Erasable, AccountPK;
    if HasChild(s.table, id) {
      var states, steps := OneChunk(s, id);
      ChunksGone(states, steps, id, 1);
      ChildrenAreThere(s, steps[0].keys, id, states, steps);
      AbandonMove(states, steps, id);
    } else {
      forall states: seq<State>, steps: seq<Step> | AbandonedErasure(states, steps, id) && states[0] == s
        ensures states[|steps|].table == s.table
      {
        NothingLost(states, steps, id);
      }
    }
  }

  lemma ChildrenAreThere(s: State, keys: seq<Key>, id: string, states: seq<State>, steps: seq<Step>)
    requires AbandonedErasure(states, steps, id) && states[0] == s && steps[0].keys == keys
    requires WithoutProfile(keys) != []
    ensures SetOf(WithoutProfile(keys)[..Gone(1, |WithoutProfile(keys)|)]) * s.table.Keys != {}
  {
    assert Moves(states[0], steps[0], states[1]);
    QueriedPartition(s.table, id, keys);
    WithoutProfileIsRest(keys);
    hide WithoutProfile, Enumerates, Erasable, AccountPK;
    var children := WithoutProfile(keys);
    assert children[0] in children;
    assert children[0] in children[..Gone(1, |children|)];
    assert children[0] in SetOf(children[..Gone(1, |children|)]) * s.table.Keys;
  }

  lemma NothingLost(states: seq<State>, steps: seq<Step>, id: string)
    requires AbandonedErasure(states, steps, id) && Inv(states[0]) && !HasChild(states[0].table, id)
    ensures states[|steps|].table == states[0].table
  {
    var keys, n := steps[0].keys, |steps| - 2;
    QueriedKeys(states, steps, id);
    ChildrenQueried(states[0].table, id, keys);
    ChunksGone(states, steps, id, n);
    hide Path, WithoutProfile, Enumerates, Inv, HasChild, Gone;
    assert SetOf(WithoutProfile(keys)[..0]) == {} && WithoutProfile(keys) == [];
    AbandonMove(states, steps, id);
  }

  lemma QueriedKeys(states: seq<State>, steps: seq<Step>, id: string)
    requires AbandonedErasure(states, steps, id)
    ensures Enumerates(steps[0].keys, states[0].table, AccountPK(id), "")
  {
    hide Enumerates, Erasable, Queried, AccountPK;
    assert Moves(states[0], steps[0], states[1]);
  }

  lemma AbandonMove(states: seq<State>, steps: seq<Step>, id: string)
    requires AbandonedErasure(states, steps, id)
    ensures states[|steps|].table == states[|steps| - 1].table
  {
    assert Moves(states[|steps| - 1], steps[|steps| - 1], states[|steps|]);
  }

  lemma ChildrenQueried(t: Table, id: string, keys: seq<Key>)
    requires Enumerates(keys, t, AccountPK(id), "")
    ensures WithoutProfile(keys) != [] ==> HasChild(t, id)
  {
    QueriedPartition(t, id, keys);
    WithoutProfileIsRest(keys);
    if WithoutProfile(keys) != [] {
      assert WithoutProfile(keys)[0] in WithoutProfile(keys);
      assert ChildOf(WithoutProfile(keys)[0], id);
    }
  }

  /** In the same way an attempt of the erasure loop that lost a row found a child to lose. */
  lemma OnlyChildrenAreLost(t: Table, t': Table, id: string)
    requires PartlyErased(t, t', id)
    ensures t' != t ==> HasChild(t, id)
  {
    if t' != t {
      if forall k :: Row(t', k) == Row(t, k) {
        SameRows(t', t);
      }
      var k :| Row(t', k) != Row(t, k);
      assert ChildOf(k, id);
    }
  }

  // ---------- the fate of a row written during an erasure ----------

  predicate Writes(step: Step, id: string, sk: string) {
    step.WriteChild? && step.id == id && step.sk == sk
  }

  predicate EndsErasure(step: Step, id: string) {
    (step.Abandon? || step.DeleteIdentity?) && step.id == id
  }

  /** A doomed row is still to be deleted or gone; any other is there and out of reach. */
  ghost predicate Fate(s: State, id: string, k: Key, row: Item, doomed: bool) {
    && id in s.jobs
    && (if doomed then k in s.jobs[id].rest || k !in s.table
        else k !in s.jobs[id].rest && Row(s.table, k) == Some(row))
  }

  /** Steps other than writes of the row and chunks of its own erasure leave it alone ... */
  lemma ChildUntouched(s: State, step: Step, id: string, sk: string)
    requires Inv(s) && Enabled(s, step) && id in s.jobs && ChildSK(sk)
    requires !Writes(step, id, sk) && !EndsErasure(step, id) && step != DeleteChunk(id)
    ensures Row(Next(s, step).table, Key(AccountPK(id), sk)) == Row(s.table, Key(AccountPK(id), sk))
  {
    hide Inv, ChildSK, ChildRow, AccountPK, Created, ProfileUpdated, CredentialsUpdated, Store, Enumerates,
         Erasable, ChunkDeleted, IdentityDeleted, WithoutProfile;
    var k := Key(AccountPK(id), sk);
    ChildSKApart(sk);
    match step
    case Create(other, req, now) => CreateUntouched(s, other, req, now, id, sk);
    case UpdateProfile(other, update, now) =>
      ItemUpdatedElsewhere(s.table, other, update, CredentialsRequest(None, None), now, k);
    case UpdateCredentials(other, creds, now) =>
      ItemUpdatedElsewhere(s.table, other, UpdateRequest(None, None, None, None), creds, now, k);
    case WriteChild(other, sk2, row) =>
      KeysDiffer(other, sk2, id, sk);
      StoreElsewhere(s.table, Key(AccountPK(other), sk2), row);
    case QueryRows(_, _) =>
    case DeleteChunk(other) => ChunkUntouched(s, other, id, sk);
    case DeleteIdentity(other) => IdentityUntouched(s, other, id, sk);
    case Abandon(_) =>
    case StorageFault =>
  }

  /** ... and what the erasure has still to delete. */
  lemma RestUntouched(s: State, step: Step, id: string)
    requires Enabled(s, step) && id in s.jobs && !EndsErasure(step, id) && step != DeleteChunk(id)
    ensures id in Next(s, step).jobs && Next(s, step).jobs[id].rest == s.jobs[id].rest
  {
    hide Created, ProfileUpdated, CredentialsUpdated, Store, Enumerates, Erasable, WithoutProfile, Transact, Deletes,
         AccountPK;
  }

  lemma KeysDiffer(a: string, ask: string, b: string, bsk: string)
    ensures Key(AccountPK(a), ask) == Key(AccountPK(b), bsk) <==> a == b && ask == bsk
  {
    KeysApart();
  }

  lemma CreateUntouched(s: State, other: string, req: CreateRequest, now: string, id: string, sk: string)
    requires Inv(s) && id in s.jobs && sk != "EMAIL"
    ensures Row(Created(s.table, other, req, now), Key(AccountPK(id), sk)) == Row(s.table, Key(AccountPK(id), sk))
  {
    JobKnown(s, id);
    KeysDiffer(other, "", id, "");
    hide Inv, AccountPK, Created, StrAttr, Distinct;
    CreatedElsewhere(s.table, other, req, now);
  }

  lemma ChunkUntouched(s: State, other: string, id: string, sk: string)
    requires Inv(s) && other in s.jobs && s.jobs[other].rest != [] && other != id
    ensures Row(ChunkDeleted(s, other).table, Key(AccountPK(id), sk)) == Row(s.table, Key(AccountPK(id), sk))
  {
    KeysDiffer(other, "", id, "");
    JobKnown(s, other);
    hide Inv, AccountPK, Transact, Deletes, StrAttr;
    ChunkTransaction(s.table, other, s.jobs[other], ChunkSize(s.jobs[other].rest));
    hide JobOk;
  }

  lemma IdentityUntouched(s: State, other: string, id: string, sk: string)
    requires Inv(s) && other in s.jobs && sk != "PROFILE" && sk != "EMAIL"
    ensures Row(IdentityDeleted(s, other).table, Key(AccountPK(id), sk)) == Row(s.table, Key(AccountPK(id), sk))
  {
    hide Inv, AccountPK, EmailPK, IdentityDeleted, IdentityOf;
    IdentityTable(s, other);
  }

  lemma ItemUpdatedElsewhere(
    t: Table, id: string, update: UpdateRequest, creds: CredentialsRequest, now: string, k: Key)
    requires k != ProfileKey(id)
    ensures Row(ProfileUpdated(t, id, update, now), k) == Row(t, k)
    ensures Row(CredentialsUpdated(t, id, creds, now), k) == Row(t, k)
  {
    hide WellFormed, ApplyTo, Holds, ExpressionOf;
  }

  lemma FateStep(s: State, step: Step, id: string, sk: string, row: Item, doomed: bool)
    requires Inv(s) && Enabled(s, step) && ChildSK(sk) && Fate(s, id, Key(AccountPK(id), sk), row, doomed)
    requires !Writes(step, id, sk) && !EndsErasure(step, id)
    ensures Fate(Next(s, step), id, Key(AccountPK(id), sk), row, doomed)
  {
    if step == DeleteChunk(id) {
      var job := s.jobs[id];
      var n := ChunkSize(job.rest);
      JobKnown(s, id);
      ChunkTransaction(s.table, id, job, n);
      SliceDistinct(job.rest, n);
      hide Inv, OneToOne, ChildSK, AccountPK, Transact, Deletes, Distinct, StrAttr;
    } else {
      ChildUntouched(s, step, id, sk);
      RestUntouched(s, step, id);
      hide Inv, Enabled, Next, ChildSK, AccountPK;
    }
  }

  lemma {:induction false} FateAlong(
    states: seq<State>, steps: seq<Step>, id: string, sk: string, row: Item, n: nat)
    requires Path(states, steps) && Inv(states[0]) && id in states[0].jobs && 1 <= n <= |steps|
    requires steps[0] == WriteChild(id, sk, Some(row))
    requires forall i | 1 <= i < n :: !Writes(steps[i], id, sk) && !EndsErasure(steps[i], id)
    ensures Fate(states[n], id, Key(AccountPK(id), sk), row, Key(AccountPK(id), sk) in states[0].jobs[id].rest)
  {
    hide Inv, AccountPK, Enabled, Next, Fate, EndsErasure, Writes;
    if n == 1 {
      FateBegins(states, steps, id, sk, row);
    } else {
      FateAlong(states, steps, id, sk, row, n - 1);
      InvAlong(states, steps, n - 1);
      assert Moves(states[n - 1], steps[n - 1], states[n]);
      WriteIsOfChild(states, steps, id, sk, row);
      FateStep(states[n - 1], steps[n - 1], id, sk, row, Key(AccountPK(id), sk) in states[0].jobs[id].rest);
    }
  }

  lemma FateBegins(states: seq<State>, steps: seq<Step>, id: string, sk: string, row: Item)
    requires Path(states, steps) && id in states[0].jobs && |steps| >= 1 && steps[0] == WriteChild(id, sk, Some(row))
    ensures Fate(states[1], id, Key(AccountPK(id), sk), row, Key(AccountPK(id), sk) in states[0].jobs[id].rest)
  {
    hide AccountPK, ChildSK;
    assert Moves(states[0], steps[0], states[1]);
  }

  lemma WriteIsOfChild(states: seq<State>, steps: seq<Step>, id: string, sk: string, row: Item)
    requires Path(states, steps) && steps != [] && steps[0] == WriteChild(id, sk, Some(row))
    ensures ChildSK(sk)
  {
    assert Moves(states[0], steps[0], states[1]);
  }

  /** A row written during an erasure, and not written again, outlives the account exactly when
      its key is not among those the erasure has still to delete at the time of the write. */
  lemma LateWriteFate(states: seq<State>, steps: seq<Step>, id: string, sk: string, row: Item)
    requires Path(states, steps) && Inv(states[0]) && id in states[0].jobs && |steps| >= 2
    requires steps[0] == WriteChild(id, sk, Some(row)) && steps[|steps| - 1] == DeleteIdentity(id)
    requires forall i | 1 <= i < |steps| - 1 :: !Writes(steps[i], id, sk) && !EndsErasure(steps[i], id)
    ensures Row(states[|steps|].table, Key(AccountPK(id), sk)) ==
              if Key(AccountPK(id), sk) in states[0].jobs[id].rest then None else Some(row)
  {
    hide Inv, StrAttr, Transact, Deletes;
    var n := |steps| - 1;
    FateAlong(states, steps, id, sk, row, n);
    InvAlong(states, steps, n);
    assert Moves(states[n], steps[n], states[n + 1]);
    WriteIsOfChild(states, steps, id, sk, row);
    ChildSKApart(sk);
    IdentityTable(states[n], id);
    KeysApart();
  }
}
