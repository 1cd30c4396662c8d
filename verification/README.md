# Account service: a Dafny model

This project models the account store of the service, one DynamoDB table with its conditional
writes and transactions, the in-process caches in front of it, and the service methods that drive
both. It proves what single calls do and what holds over whole runs of them.

| file | models |
|---|---|
| `dynamo.dfy` | the table, update expressions, conditions, transactions, the client |
| `accounts.dfy`, `identity.dfy` | `internal/db/account.go`: account rows, email lookup, erasure; all interleavings |
| `coherence.dfy`, `service.dfy` | `internal/api/account.go`, `internal/api/credentials.go`: caches, erasure order, events |
| `settings.dfy`, `tags.dfy` | `internal/db/settings.go`, `internal/api/settings.go`: version guard, tag cap, namespaces |
| `ttlcache.dfy` | `internal/ttlcache/cache.go` |
| `flip.dfy`, `saved_items.dfy` | `internal/db/payments.go`, `internal/db/address.go`, `internal/api/address.go`, `internal/api/payments.go` |
| `instants.dfy`, `consent.dfy` | `internal/db/consent.go`: time-ordered keys, the append-only log |
| `base64url.dfy`, `utf8.dfy`, `unsubscribe.dfy` | `internal/api/unsubscribe.go` |
| `passkeys.dfy` | `internal/db/passkeys.go` |
| `calls.dfy` | all calls side by side: which reach the consent log, which follow an erasure |
| `basics.dfy` | results, errors, string operations |

`dafny verify dfyconfig.toml` checks everything.

## Assumptions

- Reads, index queries included, are strongly consistent; a query without a limit returns every
  matching row, in an arbitrary order unless it asks for one.
- One conditional write or one transaction is a single atomic step. A transaction of more than 100
  items, one that names a key twice, and a write whose expression is malformed are refused and
  change nothing; a tag request with additions and removals, or with a tag listed twice, is such a
  write. A failed condition is reported for the first failing item.
- Any storage call may fail without effect, unless the client is marked healthy. Object stores are
  sets of keys; deleting several objects may stop half-way.
- Generated ids are parameters, and so are formatted time stamps. Account ids contain no slash.
- The calls of one service instance run one at a time in `service.dfy`; the state machines of
  `identity.dfy`, `tags.dfy` and `ttlcache.dfy`, and the attempt sequences of `settings.dfy`,
  interleave any number of callers.
- The keyed hash of unsubscribe tokens is any function to 32-byte digests, and the JSON reader any
  function that reads printed payloads back.

## Where the code and its documentation disagree

- `docs/sdd.md:375` rules out two defaults, and none, even for a moment. `AddAddress`,
  `UpdateAddress` and `UpsertPayment` store the new default before they flip, so two exist in between,
  exactly if another row is the default, and stay if the flip fails (`SavedItems.DefaultsBetweenWrites`,
  `SavedItems.TwoDefaultsInBetween`). A family loses its default exactly when a call deletes it or
  writes it back without the flag (`SavedItems.DefaultLostExactly`).
- `docs/sdd.md:379` calls erasure one operation. It is a sequence of transactions, and a failed attempt
  can leave the account without some of its child rows, exactly if it has any
  (`Identity.LossIsPossibleExactly`). A child row that someone writes during the erasure outlives the
  account exactly if its key is not among those still to be deleted when it is written
  (`Identity.LateWriteFate`). After the erasure some calls put rows back under the account, and
  `Calls.RevivedExactly` says which.
- `docs/sdd.md:383` caps the labels in number. The cap is counted on one read, but the write is
  guarded by the version the request supplies, not the one read. The calls that can never lead above
  the cap are exactly these: the supplied version is not ahead of the observed one, or the call only
  removes, or it re-adds stored tags one version ahead, or DynamoDB refuses it
  (`Tags.CapHoldsExactly`). A version that an earlier read returned is never ahead.
- Closing an account looks for its cached credentials under the trimmed email, so they stay, until
  they expire, exactly if the email was registered with surrounding whitespace
  (`AccountService.Service.DeleteProfile`).
- A `Set` of a key that is already in a full cache evicts another one, so a cache of as many keys as its
  maximum can lose an entry that has not expired; one of fewer keys never does
  (`TtlCache.FullCacheLosesOnOverwrite`, `TtlCache.RetainsExactly`).
- `UpdateSettingsPartial` uses neither the tags nor the status change time of its request.
- A status is validated without regard to letter case and stored as supplied.
- After a refused sign count any failure to read the passkey back is reported as a missing passkey.
- The sign-count guard accepts an equal count; section 6.1.1 of Web Authentication Level 2 asks for
  a greater one unless both are zero.
- A settings or tag write that was accepted still returns an error when the re-read after it fails.

## Model

| member | source | states |
|---|---|---|
| Identity.IdentityIsOneToOne | internal/db/account.go:240-293 | In every state of every run that interleaves creates, profile and credential updates, child writes, erasure steps, abandoned erasures and faults, profiles and email reservations determine each other, and the email lookup gives exactly the holder of the reservation: its duplicate branch is never reached |
| Identity.StepKeepsInv | internal/db/account.go:347-384 | Each single step keeps that invariant, and keeps valid what every erasure in flight still has to delete |
| Identity.LookupIsExact | internal/db/account.go:434-466 | In a one-to-one table the index query finds one profile if the email is reserved and none otherwise, and the profile carries the email asked for |
| Identity.EmailsUnique | internal/db/account.go:269-281 | Two accounts never hold the same email |
| Identity.CreateKeeps | internal/db/account.go:276-291 | Registration, committed or refused, keeps profiles and reservations one-to-one |
| Identity.UpdatesKeep | internal/db/account.go:296-344 | No profile or credential update can break the correspondence, because none writes the email, the id or the index attributes |
| Identity.ChildrenGoneKeeps | internal/db/account.go:374-379 | Removing any child rows of one account keeps the correspondence |
| Identity.IdentityGoneKeeps | internal/db/account.go:380-383 | Removing a profile together with its own reservation orphans no other row |
| Identity.ErasureLeavesOnlyLaterWrites | internal/db/account.go:380-383 | The last transaction frees the email, changes no row of anyone else, and leaves in the partition exactly the rows that others wrote after the query |
| Identity.ErasureStaysHome | internal/db/account.go:347-384 | No erasure step changes a row of another partition or a reservation, except that the last one removes the reservation of the email it has read |
| Identity.ErasureFromQueryOn | internal/db/account.go:347-384 | In every run, from the query on, the steps of an erasure change no row of another partition and no reservation but that of the email the profile had at the query |
| Identity.LossIsPossibleExactly | internal/db/account.go:374-383 | A failed erasure can lose a row exactly when the account has a row besides its profile |
| Identity.ChunksGone | internal/db/account.go:374-379 | An erasure given up after n chunks has deleted exactly the first 100 n children of its query |
| Identity.OnlyChildrenAreLost | internal/db/account.go:374-383 | A failed attempt of the erasure loop on a bare profile changes nothing |
| Identity.LateWriteSurvives | internal/db/account.go:380-383 | Any child row written while the last transaction is pending outlives the account |
| Identity.LateWriteFate | internal/db/account.go:374-383 | A child row written during an erasure, and not written again, outlives the account, as written, exactly when its key is not among those still to be deleted at the time of the write |
| Identity.StepsFollowTheLoop | internal/db/account.go:374-379 | The chunk steps of a run are the slices the erasure loop submits |
| Accounts.CreateTransaction | internal/db/account.go:276-291 | The registration transaction commits exactly when none of its three rows exists, and failure index 2 means that only the email is taken |
| Accounts.SecondRegistration | internal/db/account.go:269-291 | After one registration another account id registers exactly if its email differs in more than the case of Latin letters; otherwise only the email is reported as taken |
| Accounts.RegistrationReadsBack | internal/db/account.go:240-267 | A profile just registered reads back with its names, its email in lower case and no empty phone or avatar; its settings are unverified, active, at version 0 and without tags |
| Accounts.AccountRepo.CreateAccount | internal/db/account.go:240-293 | Success leaves exactly the three rows added and returns the profile as registered; each error leaves the table alone and says which row was in the way |
| Accounts.AccountRepo.GetAccount | internal/db/account.go:102-113 | Answers from the profile row, with a missing row told apart from a failure |
| Accounts.AccountRepo.UpdateAccount | internal/db/account.go:296-344 | Each attribute named in the request takes the supplied value, the stamp is set, every other attribute stays; returns the row as stored |
| Accounts.AccountRepo.UpdateAccountCredentials | internal/db/account.go:179-226 | The hash and the methods take the supplied values, the stamp is set, every other attribute stays |
| Accounts.AccountUpdateMeansPatch | internal/db/account.go:303-336 | For every request the built expression is one DynamoDB accepts (every placeholder used is defined and the other way round, no attribute twice) and means overwriting the supplied fields |
| Accounts.ProfileOverwrites | internal/db/account.go:303-327 | Attribute by attribute, for any row: phone, names and avatar are the supplied ones or the old ones, the stamp is the time given, the rest stays, and no other row is meant |
| Accounts.UpdatedProfileReadsBack | internal/db/account.go:469-480 | The updated profile reads back with the supplied fields, an empty phone or avatar as absent, and the old ones otherwise |
| Accounts.SecretsOverwrites | internal/db/account.go:186-213 | The same for the hash, the sign-in methods and the stamp |
| Accounts.BuildAccountUpdate | internal/db/account.go:303-327 | The clause-by-clause build yields the expression of the supplied fields in column order |
| Accounts.BuildCredentialsUpdate | internal/db/account.go:186-213 | The same for the credential update |
| Accounts.AccountPatchesMerge | internal/db/account.go:303-336 | Two profile updates in a row equal one update by the right-biased merge of the requests |
| Accounts.PatchesKeepIdentity | internal/db/account.go:303-327 | Neither kind of update can touch email, account id or index attributes |
| Accounts.AccountRepo.ResolveAccountIdByEmail | internal/db/account.go:434-466 | None, one or several index hits give not-found, the id, or a refusal |
| Accounts.AccountRepo.GetAccountCredentialsByEmail | internal/db/account.go:116-176 | Combines index, profile and settings row, whatever order the batch read returns them in |
| Accounts.AccountRepo.PickRows | internal/db/account.go:138-151 | Sorts a batch read into profile and settings by sort key alone |
| Accounts.BuildErasurePlan | internal/db/account.go:386-431 | Children and identity deletes are those of the queried rows in order; an unreadable profile email stops the erasure before anything is deleted |
| Accounts.PlanPartitionsWork | internal/db/account.go:386-431 | For any number of rows, children plus profile are exactly the queried rows, all chunks are legal transactions that concatenate to the children in order, and one transaction of two distinct rows follows |
| Accounts.ChunksPartition | internal/db/account.go:374-379 | Chunking loses, repeats and reorders nothing; every chunk has 1 to 100 items and only the last may be short |
| Accounts.ChunksSendable | internal/db/account.go:374-379 | No chunk names a key twice |
| Accounts.ErasedInTwoSteps | internal/db/account.go:374-383 | Deleting the children and then profile and reservation leaves exactly the erased table |
| Accounts.AccountRepo.DeleteChildren | internal/db/account.go:374-379 | After a failure the rows gone are those of a prefix of the children; success submits all chunks in order and removes all children |
| Accounts.AccountRepo.DeleteAccount | internal/db/account.go:347-384 | Success only in the erased end state; any failure leaves profile and reservation and at most child rows missing; without faults an erasable account is erased |
| Dynamo.BuiltUpdateMeansPatch | internal/db/account.go:331-336 | A SET expression built clause by clause is well formed and, evaluated with its tables, overwrites exactly the patch it stands for |
| Dynamo.ColumnsBuild | internal/db/address.go:94-145 | Optional fields added one by one keep placeholders and patch in step, for any list of distinct columns |
| Dynamo.PatchOfAt | internal/db/address.go:98-136 | A patch holds an attribute exactly when its field was supplied, with the supplied value |
| Dynamo.PatchesMerge | internal/db/address.go:94-145 | Two partial updates in a row are one by the right-biased merge, for any list of distinct columns |
| Dynamo.TransactDeletes | internal/db/account.go:374-383 | A transaction of 1 to 100 distinct deletes commits and removes exactly the keys named |
| AccountService.Service.constructor | internal/api/service.go:46-53 | Non-positive cache configuration falls back to 60 seconds and 100 000 entries, and a service on a one-to-one table starts coherent |
| AccountService.Service.GetProfile | internal/api/account.go:20-34 | Always what the repository would answer now, cached or not, in any run with any evictions and faults; the answer is then cached, and a cached one is given without the repository |
| AccountService.Service.CreateAccount | internal/api/account.go:37-65 | Refuses empty required fields; announces a registration exactly when it committed; keeps caches and events coherent |
| AccountService.Service.UpdateProfile | internal/api/account.go:68-110 | Overwrites the supplied fields, forgets the cached profile, lists exactly the overwritten attributes in the event, and announces a phone change with the phone stored before |
| AccountService.UpdateProfileChangedFields | internal/api/account.go:112-127 | The announced fields are, in alphabetical order and without repeats, exactly the attributes the update overwrites besides the stamp |
| AccountService.Service.DeleteProfile | internal/api/account.go:130-169 | Reports success only when rows, exports and avatar are gone and the confirmation matched the trimmed email; for texts without blanks at the ends it succeeds only if they agree up to letter case, and reports a mismatch only if they do not; every failure keeps profile, reservation and all other objects; without faults a missing account, a mismatch and a match are told apart; the profile cache forgets the account, and the credentials cache does exactly unless the email has surrounding whitespace |
| AccountService.ConfirmationDecides | internal/api/account.go:131-144 | For a stored email and a confirmation without blanks at the ends, the comparison of the trimmed texts is that of the texts themselves up to letter case |
| Basics.TrimSpaceCuts | internal/api/account.go:131-131 | Trimming cuts off a beginning and an end made only of the six ASCII blanks, and what is left neither begins nor ends with one |
| Basics.TrimSpaceKeeps | internal/api/account.go:131-131 | A text is its own trimming exactly when it neither begins nor ends with a blank |
| Basics.LowerAgrees | internal/api/account.go:141-142 | Two texts agree in lower case exactly when they have one length and differ at no position except in the case of a Latin letter |
| AccountService.Service.DeleteS3Exports | internal/api/account.go:181-200 | Removes all objects under the account prefix or, failing, some of them and no others |
| AccountService.Service.DeleteAvatarObject | internal/api/account.go:203-212 | Removes the avatar object or nothing |
| AccountService.RetriesConverge | internal/api/account.go:144-160 | However many attempts fail, and wherever, profile and reservation stay, and an attempt that completes ends where the first would have ended |
| AccountService.NoObjectLeft | internal/api/account.go:181-212 | A completed attempt leaves no object under the export prefix and no avatar of the account, and all others |
| AccountService.OtherObjectsStay | internal/api/account.go:181-212 | No attempt, failed or completed, touches an object of another account |
| AccountService.ExportPrefixesDisjoint | internal/api/account.go:186-186 | An object lies under the export prefix of one account at most, as ids contain no slash |
| AccountService.AvatarKeysDistinct | internal/api/profile.go:221-223 | Different accounts have different avatar keys |
| AccountService.Service.GetCredentials | internal/api/credentials.go:77-91 | A result was true at a recorded moment no longer than the time to live ago, and its account id, hash and sign-in methods are those of a lookup now unless the email is marked as not invalidated; it is then cached, and a cached one is given without the repository |
| AccountService.Service.UpdateCredentials | internal/api/credentials.go:94-114 | Drops the cached credentials of the account, or marks them as stale when the email could not be read; never marks any without a fault |
| Coherence.RetryConverges | internal/db/account.go:347-384 | From any partly erased table a completed erasure gives the table that a first, undisturbed one would have given |
| Coherence.ErasedIsolated | internal/db/account.go:380-383 | An erased account leaves no row and no reservation; every other account keeps all its rows and its reservation |
| Coherence.FreedEmailRegisters | internal/db/account.go:240-293 | After the erasure the email can be registered again at once |
| Coherence.AfterCreate | internal/api/account.go:37-65 | Registration, with any email, keeps both caches and the phone replay right |
| Coherence.AfterProfileUpdate | internal/api/account.go:68-110 | With the cached profile dropped, an update keeps profiles current and lets the events replay to the new phone; an unknown prior phone marks the account |
| Coherence.PhoneFollows | internal/api/account.go:98-107 | Each phone_changed event starts where the replay of the events before it ends, and extends the replay to the new phone |
| Coherence.UpdateAnnounces | internal/api/account.go:87-107 | A profile update announces its changed fields if there are any, a phone change exactly when the phone read before is another one, and nothing else |
| Coherence.AfterCredentialsUpdate | internal/api/credentials.go:101-113 | Dropping, or marking, just the entry of the updated account keeps every other cached entry true |
| Coherence.AfterErasure | internal/api/account.go:153-163 | Forgetting the profile and the credentials under the trimmed email keeps the caches right; credentials under an untrimmed email are marked as stale |
| Coherence.AfterPartialErasure | internal/api/account.go:153-158 | Child rows lost to an unfinished erasure invalidate no cache entry |
| Coherence.ForgettingIsSafe | internal/api/credentials.go:77-91 | Expiry, eviction and sweeps at any time cannot make a cache wrong |
| Coherence.CredentialsCached | internal/api/credentials.go:83-90 | A lookup just made may be cached for the time to live counted from then |
| Coherence.LookupHolder | internal/db/account.go:116-176 | In a one-to-one table the credentials are those of the reservation holder |
| Coherence.LookupShows | internal/db/account.go:138-176 | Status and email verification are those of the settings row, active and unverified if it is missing or says nothing; hash and methods are those of the profile under the email |
| Coherence.RegisteredIsFound | internal/db/account.go:240-293 | An account just registered is found under its email without password or methods, unverified and active |
| Coherence.UpdatedCredentialsAreFound | internal/db/account.go:179-226 | After a credentials update the lookup shows the supplied hash and methods, the old ones where none is supplied, and the same account, verification and status |
| TtlCache.Cache.Get | internal/ttlcache/cache.go:32-46 | A hit until the expiry instant, and a hit changes nothing; an expired entry is a miss and goes |
| TtlCache.Cache.Set | internal/ttlcache/cache.go:49-61 | Stores the entry; below the maximum every other entry stays as it is, and a full cache gives up exactly one, chosen in range order |
| TtlCache.Cache.Delete | internal/ttlcache/cache.go:64-66 | Removes exactly the key |
| TtlCache.Cache.Sweep | internal/ttlcache/cache.go:69-85 | Removes exactly the expired entries |
| AccountService.Service.SweepCaches | internal/ttlcache/cache.go:69-85 | Background sweeps of both caches at any time remove exactly the expired entries and keep the caches right |
| TtlCache.Cache.EvictOne | internal/ttlcache/cache.go:88-107 | The early-stopping scan removes the victim that the full description names, whatever the range order |
| TtlCache.EvictionChoice | internal/ttlcache/cache.go:88-107 | Exactly one entry of a non-empty cache goes: the first expired among the first 32 visited if there is one, else the first visited |
| TtlCache.SetStaysBounded | internal/ttlcache/cache.go:49-61 | One call at a time never exceeds the maximum, also when the key was present or was its own victim |
| TtlCache.CachePartOfPlainMap | internal/ttlcache/cache.go:32-107 | In every run the cache is part of the plain map of last Set not followed by Delete |
| TtlCache.RetainsExactly | internal/ttlcache/cache.go:32-85 | In every run in which no Set finds the cache full, a key is cached exactly when the plain map has it and no sweep and no get of it has found that value expired |
| TtlCache.FewKeysNeverFull | internal/ttlcache/cache.go:49-57 | A run that sets fewer keys than the maximum, or one without a maximum, never finds the cache full |
| TtlCache.FullCacheLosesOnOverwrite | internal/ttlcache/cache.go:49-61 | With as many keys as the maximum it does: overwriting one key evicts another that has not expired |
| TtlCache.HitIsLastSet | internal/ttlcache/cache.go:32-46 | A hit returns that value, and no later than set time plus time to live |
| TtlCache.JustSetIsReadable | internal/ttlcache/cache.go:49-61 | A key just set is readable even if it was evicted to make room |
| TtlCache.OvershootIsBounded | internal/ttlcache/cache.go:49-61 | With at most k calls in flight, entries plus passed calls never exceed the maximum plus k - 1; one call at a time never exceeds the maximum |
| TtlCache.OvershootIsReached | internal/ttlcache/cache.go:49-61 | That bound is tight: for every maximum and every k some schedule reaches it |
| Settings.NoLostUpdate | internal/db/settings.go:46-177 | Whatever attempts race on a fresh row, the version counts the accepted ones, their expected versions are 0, 1, 2, ... each once, and the row is the fold of the accepted writes in that order |
| Settings.FreshSettingsRow | internal/db/account.go:260-267 | Registration writes a settings row at version 0 without tags, where the counting of versions starts |
| Settings.PartialUpdateMeansPatch | internal/db/settings.go:52-99 | The built expression with its guard is accepted by DynamoDB and does to any row what SettingsOverwrites says |
| Settings.SettingsOverwrites | internal/db/settings.go:52-96 | Attribute by attribute, for any row: verifications, their times, status and reason are the supplied ones or the old ones, the change time is set exactly when a status is supplied, the stamp is set, the version goes up by one, the rest stays, and no other row is meant |
| Settings.BuildPartialUpdate | internal/db/settings.go:52-96 | The clause-by-clause build yields the expression that PartialUpdateMeansPatch and SettingsOverwrites are about |
| Settings.TagsUpdateMeans | internal/db/settings.go:145-169 | A tag mutation is well formed exactly when it only adds or only removes and lists no tag twice; then it changes the set and the version and nothing else |
| Settings.BuildTagsUpdate | internal/db/settings.go:145-167 | The clause-by-clause build yields that mutation |
| Settings.GuardedWriteOutcome | internal/db/settings.go:98-177 | Both writes commit exactly on the expected version of an existing row and otherwise change nothing |
| Settings.SettingsRepo.UpdateSettingsPartial | internal/db/settings.go:46-107 | Success is exactly one accepted write, which does to each attribute what the request asks for; a conflict and a missing row are told apart by the re-read |
| Settings.SettingsRepo.MutateSettingsTags | internal/db/settings.go:131-177 | The same for tags; an empty request succeeds without a write |
| Settings.SettingsRepo.ConditionFailure | internal/db/settings.go:110-119 | After a refused guard a missing row, a conflict and an unreadable row are told apart |
| Settings.SettingsRepo.UpdateSettings | internal/db/settings.go:122-128 | Replaces the whole row by any given settings, whatever was there; a tag listed twice is refused |
| Settings.SettingsRecordShows | internal/db/settings.go:195-209 | A stored record shows the version, status, verifications and tags it was written with |
| Settings.SettingsRecordDates | internal/db/settings.go:195-209 | It carries a time or a reason exactly when there is one |
| Settings.PartialUpdatesMerge | internal/db/settings.go:52-99 | Two accepted partial updates in a row equal one by the right-biased merge, two versions later |
| Settings.EffectOnVersionAndTags | internal/db/settings.go:90-99 | Every accepted write moves the version by one, only tag writes move the tags, and they move nothing else |
| Tags.CapHolds | internal/api/settings.go:198-218 | In every interleaving of tag calls and partial updates the stored tags stay at most twenty, if every call is harmless: it supplies no version ahead of the one its read observed, it only removes, it re-adds stored tags one version ahead, or DynamoDB refuses it |
| Tags.CapHoldsExactly | internal/api/settings.go:198-218 | Exactly the harmless calls can never lead above twenty: for every row of at most twenty tags and every call whose count passes, no schedule in which all others supply the version they observed exceeds the cap if and only if the call is harmless |
| Tags.HarmfulBreaksCap | internal/api/settings.go:214-218 | For every other call there is such a schedule, with well-formed tags of one namespace, that ends above twenty |
| Tags.EarlierVersionIsHarmless | internal/api/settings.go:214-218 | A version that any earlier read returned makes a harmless call |
| Tags.CapStep | internal/api/settings.go:198-218 | Every step keeps the cap and what each pending call knows: same tags at the same version, only grown or only shrunk one version later |
| Tags.CommitFits | internal/api/settings.go:198-218 | The guarded write of a harmless call leaves at most twenty tags, although its count was taken on an earlier read |
| Tags.ExpectedCountIsExact | internal/api/settings.go:259-280 | For every mutation DynamoDB accepts the expected count is the size of the resulting set |
| Tags.ExpectedTagCount | internal/api/settings.go:259-280 | The lookup-table loops compute kept tags plus additions not stored yet |
| Tags.ValidateTagNamespace | internal/api/settings.go:246-256 | Accepts exactly the requests all of whose tags fit the pattern and carry the prefix |
| Tags.NamespacesDisjoint | internal/api/settings.go:21-27 | No tag lies in two namespaces |
| Tags.NamespacesDoNotInterfere | internal/api/settings.go:184-196 | Over any interleaving the tags of one namespace are the fold of the accepted requests of that namespace alone |
| Tags.StoredTagsWellPlaced | internal/api/settings.go:246-256 | Every stored tag fits the pattern and lies in one of the four namespaces |
| Tags.SettingsService.UpdateSettingsTags | internal/api/settings.go:184-232 | A foreign or malformed tag changes nothing; without faults a count above twenty, an empty request, a refused mutation, a wrong version and a good call get their own answers and rows, up to and including twenty tags; run alone, a call keeps the cap for any supplied version; missing settings are first initialised |
| Tags.TagsAnswered | internal/api/settings.go:208-232 | Undisturbed, a request that only adds or only removes is refused if it leads above twenty tags, is a conflict on the wrong version, and otherwise stores exactly the tags asked for, one version later |
| Tags.ServicesOwnTags | internal/api/settings.go:20-27 | A request is valid exactly if its service is one of the five and every tag has 1 to 32 of the allowed characters and the prefix of that service |
| Tags.ValidStatusMeans | internal/api/settings.go:283-289 | A status is valid exactly if it is active, suspended or closed up to letter case |
| Tags.SettingsService.UpdateSettings | internal/api/settings.go:154-181 | Unknown statuses are refused up to letter case; otherwise one guarded write with the supplied version or 0, which does to each attribute what the request asks for; stored statuses stay valid |
| Tags.EffectOnStatus | internal/db/settings.go:78-85 | Only a supplied status changes the status, and as supplied |
| DefaultFlip.FlipLeavesOne | internal/db/payments.go:121-191 | From any state, several defaults included, a flip leaves exactly the target as default of the family, stamps it and the rows demoted, and changes nothing else |
| DefaultFlip.FlipElsewhere | internal/db/payments.go:121-191 | The defaults of every other family and account stay |
| DefaultFlip.FlipTransaction | internal/db/payments.go:138-189 | The transaction is refused if over 100 items, fails on the last item if the target is missing, and otherwise is a flip |
| DefaultFlip.DemoteAndPromoteDefault | internal/db/payments.go:121-191 | Success is a flip in one transaction of distinct rows; every failure changes nothing; not-found means a missing target |
| DefaultFlip.FlipOf | internal/db/payments.go:138-181 | The loop demotes exactly the flagged candidates other than the target, in query order, and promotes the target last |
| DefaultFlip.FlagUpdateMeans | internal/db/payments.go:152-163 | Demotion and promotion are well formed and set exactly flag and stamp |
| SavedItems.CallsKeepOneDefault | internal/api/address.go:149-189 | Any sequence of undisturbed add, update, upsert and delete calls keeps at most one default per account and family |
| SavedItems.SavingKeepsOneDefault | internal/api/payments.go:126-142 | A write followed by its flip keeps that, makes a new default the only one, and its transaction has at most two rows |
| SavedItems.DefaultsBetweenWrites | internal/api/address.go:149-162 | Between the two writes of a call there is at most one default exactly when the new row is none or no other row is one |
| SavedItems.TwoDefaultsInBetween | internal/api/address.go:149-162 | A second default address does lead through a state with two |
| SavedItems.DefaultLostExactly | internal/api/payments.go:126-153 | A call leaves a family that has a default without one exactly when it deletes the default or writes it back without the flag |
| SavedItems.SavedItemsService.AddAddress | internal/api/address.go:149-162 | Ends as one undisturbed call would, or unchanged, or after a fault with the row stored and not flipped; only the id of a nameless address changes, and without faults it is stored exactly if its fresh id is not used yet |
| SavedItems.SavedItemsService.UpdateAddress | internal/api/address.go:165-178 | The same for updates; an empty request changes nothing and a missing address is reported |
| SavedItems.SavedItemsService.DeleteAddress | internal/api/address.go:181-189 | Removes exactly the address |
| SavedItems.SavedItemsService.UpsertPayment | internal/api/payments.go:126-142 | The same for payment methods, created only if new, under their fresh id, and replaced only if present |
| SavedItems.SavedItemsService.DeletePayment | internal/api/payments.go:145-153 | Removes exactly the payment method |
| SavedItems.SavedItemsService.SetDefault | internal/db/address.go:156-161 | Flips to the item or changes nothing |
| SavedItems.SavedItemsRepo.CreateAddress | internal/db/address.go:31-47 | Names a nameless address, and no other, after its fresh id, and never replaces an existing one; without faults a fresh id not used yet is always stored |
| SavedItems.SavedItemsRepo.UpdateAddress | internal/db/address.go:88-153 | Each attribute of an existing address takes the supplied value or stays; an empty request writes nothing |
| SavedItems.SavedItemsRepo.UpsertPayment | internal/db/payments.go:45-69 | Creates under a fresh id, always if that is not used yet and nothing fails, or replaces an existing row, and tells the two refusals apart |
| SavedItems.IdentifiedIsFresh | internal/db/address.go:32-36 | An id is given to a nameless item only, puts it under the key of its fresh id, and is all that changes |
| SavedItems.FreshKeysApart | internal/db/address.go:32-36 | Different fresh ids give different keys |
| SavedItems.NamelessItemsAllStored | internal/db/payments.go:45-55 | Two nameless addresses, or payment methods, saved one after the other under different fresh ids are both stored and both stay |
| SavedItems.AddressRowShows | internal/db/address.go:191-206 | A stored address shows every field it was stored with, and no empty alias or second line |
| SavedItems.PaymentRowShows | internal/db/payments.go:207-220 | A stored payment method shows every field it was stored with |
| SavedItems.AddressUpdateMeansPatch | internal/db/address.go:94-145 | The built expression is accepted exactly when the request supplies a field, and then overwrites exactly the supplied ones; otherwise it has no clause |
| SavedItems.AddressOverwrites | internal/db/address.go:94-136 | Attribute by attribute, for any row: each of the eight fields is the supplied one or the old one, the rest stays, and no other row is meant |
| SavedItems.BuildAddressUpdate | internal/db/address.go:94-136 | The clause-by-clause build yields that expression |
| SavedItems.AddressPatchesMerge | internal/db/address.go:94-145 | Two address updates in a row equal one by the right-biased merge |
| Consent.ConsentKeysSortByTime | internal/db/consent.go:14-14 | For all instants of the years 0 to 9999 the keys of a channel compare byte by byte as the instants do, and differ for different instants |
| Consent.ConsentKeysDistinct | internal/db/consent.go:117-119 | A key names its account, channel and instant |
| Consent.ChannelsDisjoint | internal/db/consent.go:29-46 | A channel prefix matches keys of that channel only |
| Consent.LastKeyIsLatest | internal/db/consent.go:29-46 | The last key of the descending prefix query belongs to the latest entry of the channel |
| Consent.ConsentRepo.GetLatestConsent | internal/db/consent.go:29-50 | Returns the latest entry of that channel and of no other, or nothing if there is none |
| Consent.ConsentRepo.AppendConsentLog | internal/db/consent.go:53-63 | Adds one entry, stamped now unless it carries a time, and never replaces one |
| Consent.EntryRoundTrip | internal/db/consent.go:90-114 | An entry reads back as appended, with its time, and empty texts as absent |
| Consent.ConsentRowShows | internal/db/consent.go:103-114 | A stored entry carries its fields under their names, and no empty reference, address or agent |
| Consent.LogStaysSafe | internal/api/unsubscribe.go:104-123 | In every run of presentations under a ticking clock and calls that leave the log alone, no entry changes or goes and neighbours of a channel stem from different tokens |
| Calls.OnlyOptOutsReachTheLog | internal/api/unsubscribe.go:104-123 | Account, settings, tag, preference, saved-item and passkey calls all leave the log alone; an opt-out presents its token to it |
| Calls.RevivedExactly | internal/db/account.go:347-384 | After an erasure exactly these calls put a row back under the account: a registration with a free email, a tag call, a preferences write, a new address, payment method or passkey, and an opt-out |
| Calls.ErasedIsVacant | internal/db/account.go:374-383 | A completed erasure leaves no row under the account |
| Consent.RepeatsAddOne | internal/api/unsubscribe.go:104-123 | Presenting one token any number of times in a row adds exactly one entry, or none if it was the latest already |
| Consent.PresentKeepsLog | internal/api/unsubscribe.go:104-123 | Each presentation keeps the log append-only and its neighbours apart |
| Instants.FormatOrder | internal/db/consent.go:14-14 | The fixed-width rendering is injective and ordered like time |
| Instants.FormatParses | internal/db/consent.go:14-14 | A rendered instant reads back as itself |
| Instants.FormatShows | internal/db/consent.go:14-14 | The rendering shows year, month, day, hour, minute, second and all nine digits of the nanosecond of the civil time that names the instant |
| Instants.CivilRoundTrip | internal/db/consent.go:117-119 | Every instant of the years 0 to 9999 has a valid civil time that names it |
| Instants.CivilOrder | internal/db/consent.go:117-119 | Civil times compare field by field as the instants do |
| Instants.RenderOrder | internal/db/consent.go:14-14 | Zero-padded fields with fixed separators compare byte by byte as the fields do, for any layout |
| Instants.DaysBeforeYearCloses | internal/db/consent.go:117-119 | The calendar of the model is the proleptic Gregorian one |
| Unsubscribe.UnsubscribeService.MintUnsubscribeToken | internal/api/unsubscribe.go:127-156 | A minted token opens under the same key to the same account, channel and id exactly while the Unix second is at most its expiry, so at every instant of its time to live and at none from a second after; only valid channels and existing accounts get one |
| Unsubscribe.UnsubscribeService.VerifyAndRecordUnsubscribe | internal/api/unsubscribe.go:76-124 | A token that does not open changes nothing and is refused for its reason; one that opens records one opt-out unless the latest entry of the channel stems from it; then the latest entry reads back as an opt-out from the unsubscribe link with the token id, the time, and the first 256 characters of address and agent |
| Unsubscribe.OptOutIsLatest | internal/api/unsubscribe.go:104-123 | Whatever the table, a presentation whose token was not the last one leaves an entry that reads back as that opt-out, and it is the latest one if all others are older |
| Unsubscribe.TruncatedKeeps | internal/api/unsubscribe.go:97-102 | A text of at most 256 characters is kept, of a longer one the first 256 |
| Unsubscribe.MintedTokenOpens | internal/api/unsubscribe.go:141-155 | The round trip for every account, valid channel, key, keyed hash, JSON reader, id and expiry |
| Unsubscribe.TokenOpensExactly | internal/api/unsubscribe.go:76-96 | A token opens exactly when it frames a payload signed under the key that reads, by whatever JSON reader, as one with an id, a valid channel and an expiry not yet passed |
| Unsubscribe.RefusedFor | internal/api/unsubscribe.go:76-96 | A token is refused for want of a key exactly if there is none, for its channel exactly if nothing else is wrong with it, and otherwise as invalid |
| Unsubscribe.PayloadRoundTrip | internal/api/unsubscribe.go:141-149 | A printed payload parses back, whatever characters its texts hold and for any integer expiry |
| Unsubscribe.UnmarshalReads | internal/api/unsubscribe.go:159-163 | The parser of the model, over UTF-8 bytes, is such a JSON reader |
| Utf8.RoundTrip | internal/api/unsubscribe.go:141-149 | Every text survives its UTF-8 encoding |
| Instants.EpochIs1970 | internal/api/unsubscribe.go:144-144 | Unix seconds count from the start of the year 1970 |
| Instants.UnixSecondsCount | internal/api/unsubscribe.go:144-144 | They never go back and go up by one with each second |
| Unsubscribe.ReplayKnown | internal/api/unsubscribe.go:104-110 | The latest entry of the channel decides whether a presentation is a replay |
| Base64Url.RoundTrip | internal/api/unsubscribe.go:154-154 | Decoding an encoded byte string of any length gives it back (section 5 of RFC 4648, no padding) |
| Base64Url.EncodeIsUrlSafe | internal/api/unsubscribe.go:154-154 | The text consists of letters, digits, minus and underscore, four characters for three bytes, without padding |
| Passkeys.StoredCountIsMaximum | internal/db/passkeys.go:78-116 | After any attempts, accepted or refused, the stored count is the maximum of the initial and all attempted ones, and the public key has not changed |
| Passkeys.OrderDoesNotMatter | internal/db/passkeys.go:78-116 | The final count does not depend on the order of the attempts |
| Passkeys.AcceptedIfNotBehind | internal/db/passkeys.go:100-100 | An attempt is accepted exactly when it is at least every count seen; an equal one is accepted too |
| Passkeys.UseMeansPatch | internal/db/passkeys.go:84-103 | The update is well formed, overwrites exactly what the use reports, and is guarded by the count it writes |
| Passkeys.UseOverwrites | internal/db/passkeys.go:84-98 | Attribute by attribute, for any row: count and backup state are those reported, the time of use is the reported or the old one, the rest stays, and no other row is meant |
| Passkeys.PasskeyRepo.CreatePasskey | internal/db/passkeys.go:31-51 | Stores a passkey without a time of use, never replacing one; an empty id is refused |
| Passkeys.PasskeyRepo.UpdatePasskey | internal/db/passkeys.go:78-116 | Records a use, attribute by attribute, exactly when it is not behind; a regression and a missing passkey are told apart unless the re-read fails |
| Passkeys.PasskeyRepo.DeletePasskey | internal/db/passkeys.go:119-128 | Removes exactly the passkey |
| Passkeys.NewPasskeyHasCount | internal/db/passkeys.go:31-51 | A created passkey carries the count and key it was created with, so the guard applies from the first use on |
| Passkeys.PasskeyRoundTrip | internal/db/passkeys.go:131-159 | A stored passkey reads back as it was stored, an empty model id as none |
| Passkeys.PasskeyRowShows | internal/db/passkeys.go:146-159 | A stored passkey carries its fields under their names |
| Passkeys.BuildUse | internal/db/passkeys.go:84-98 | The clause-by-clause build yields that update |

## Left out

- Consent.ConsentKeysSortByTime: years after 9999 and before 0 are not modelled, as the fixed-width form does not cover them.
- AccountService.Service.GetCredentials: email verification and status may be as old as the time to live, because settings writes do not invalidate the cache.
- TtlCache.OvershootIsBounded: the size count, the eviction and the store of a call are one step each, although the concurrent map allows finer interleavings.
- Tags.CapHolds: the unconditional write of settings racing other writers is not part of the runs, and neither is erasure.
- Identity.IdentityIsOneToOne: two erasures of one account in flight at once are not part of the runs.
- SavedItems.CallsKeepOneDefault: flips of one account that overlap in time are not part of the runs.
- Coherence.PhoneFollows: an update whose prior phone could not be read announces no change; the account is marked from then on and the replay is not claimed for it.
- Account ids that are not valid UTF-8; Go's JSON printer replaces their bytes.
- Letter case and whitespace are ASCII; Unicode folding is not modelled. Truncation to 256 counts characters.
- The text of an update expression, its joining and DynamoDB's parsing of it; expressions are lists of clauses.
- The rendering of times other than in consent keys; `recorded_at` is stored in the same form as the key.
- 64-bit overflow of counters, sign counts and Unix seconds.
- HTTP handlers, scopes, request decoding, error-to-status mapping and the stubs that answer 501.
- Several service instances, index lag and eventually consistent reads.
- Listing calls with a limit, the attributes of preferences, export assembly, health probe, bootstrap and configuration beyond the cache and token defaults.
- Event envelopes, their delivery and publish failures; an event counts when the service hands it over.
- Copying of records into response models beyond accounts, credentials, consent entries and passkeys.
- SHA-256, HMAC internals and id generation.
