/** The calls of the service on one table, side by side: which of them the consent log notices,
    and which put rows back under an erased account. */
module Calls {
  import opened Basics
  import opened Dynamo
  import opened Accounts
  import opened DefaultFlip
  import S = Settings
  import T = Tags
  import I = SavedItems
  import C = Consent
  import P = Passkeys

  /** An undisturbed call that has passed its validation. A tag call is of the right namespace, an
      opt-out comes with a token that opens, and preferences come as the attributes supplied. */
  datatype Call =
    | CreateAccount(id: string, create: CreateRequest, now: string)
    | UpdateProfile(id: string, update: UpdateRequest, now: string)
    | UpdateCredentials(id: string, creds: CredentialsRequest, now: string)
    | UpdateSettings(id: string, write: S.Write, expected: int)
    | UpdateTags(id: string, add: seq<string>, remove: seq<string>, supplied: int)
    | UpdatePreferences(id: string, patch: Item)
    | SavedItem(call: I.Call)
    | CreatePasskey(id: string, cred: P.Passkey)
    | UsePasskey(id: string, credentialId: string, use: P.Use)
    | DeletePasskey(id: string, credentialId: string)
    | OptOut(p: C.Presentation)

  const PREFERENCES := "PREFS"

  /** The row a repository call writes unless its condition fails. */
  function Written(t: Table, k: Key, accepted: bool, row: Item): Table {
    if accepted then t[k := row] else t
  }

  function RowOr(t: Table, k: Key): Item {
    if k in t then t[k] else map[]
  }

  ghost function Applied(t: Table, call: Call): Table {
    match call
    case CreateAccount(id, req, now) => Transact(t, CreateItems(id, req, now)).1
    case UpdateProfile(id, req, now) =>
      var k := ProfileKey(id);
      Written(t, k, k in t, RowOr(t, k) + AccountPatch(req, now))
    case UpdateCredentials(id, req, now) =>
      var k := ProfileKey(id);
      Written(t, k, k in t, RowOr(t, k) + CredentialsPatch(req, now))
    case UpdateSettings(id, w, expected) =>
      var k := SettingsKey(id);
      Written(t, k, k in t && S.Takes(t[k], w, expected), S.Effect(RowOr(t, k), w))
    case UpdateTags(id, add, remove, supplied) =>
      var k := SettingsKey(id);
      var answer := T.TagsAnswer(T.BaseRow(t, k), add, remove, supplied);
      Written(t, k, true, if answer.Ok? then answer.value else T.BaseRow(t, k))
    case UpdatePreferences(id, patch) =>
      var k := Key(AccountPK(id), PREFERENCES);
      Written(t, k, patch != map[], RowOr(t, k) + patch)
    case SavedItem(c) => I.After(t, c)
    case CreatePasskey(id, cred) =>
      var k := P.PasskeyKey(id, cred.credentialId);
      Written(t, k, cred.credentialId != "" && k !in t, P.PasskeyRow(cred))
    case UsePasskey(id, credentialId, use) =>
      var k := P.PasskeyKey(id, credentialId);
      Written(t, k, k in t, P.AfterUse(RowOr(t, k), use))
    case DeletePasskey(id, credentialId) => t - {P.PasskeyKey(id, credentialId)}
    case OptOut(p) =>
      var k := C.ConsentKey(p.id, p.entry.channel, p.at);
      Written(t, k, !C.Replayed(t, p) && k !in t, C.ConsentRow(p.entry, p.at))
  }

  // ---------- the consent log ----------

  /** A key that is no key of the log. */
  predicate Unlogged(k: Key) {
    !(C.CONSENTS <= k.sk)
  }

  lemma ServiceKeysUnlogged(id: string, name: string)
    ensures Unlogged(ProfileKey(id)) && Unlogged(SettingsKey(id)) && Unlogged(ReservationKey(name))
    ensures Unlogged(Key(AccountPK(id), PREFERENCES)) && Unlogged(P.PasskeyKey(id, name))
    ensures Unlogged(I.AddressKey(id, name)) && Unlogged(I.PaymentKey(id, name))
  {
    assert C.CONSENTS[0] == 'C';
    assert "PASSKEY#" <= P.PasskeyKey(id, name).sk && I.ADDRESSES <= I.AddressKey(id, name).sk;
    assert I.PAYMENTS <= I.PaymentKey(id, name).sk;
  }

  lemma WritingElsewhere(t: Table, k: Key, accepted: bool, row: Item)
    requires Unlogged(k)
    ensures C.StepsTo(t, C.Elsewhere, Written(t, k, accepted, row)) && C.StepsTo(t, C.Elsewhere, t - {k})
  {
  }

  lemma CreatingElsewhere(t: Table, id: string, req: CreateRequest, now: string)
    ensures C.StepsTo(t, C.Elsewhere, Transact(t, CreateItems(id, req, now)).1)
  {
    hide Unlogged, ProfileRow, SettingsRow, ReservationRow, AccountPK, EmailPK, CreateItems, Transact;
    CreateTransaction(t, id, req, now);
    ServiceKeysUnlogged(id, req.email);
    forall k: Key | C.CONSENTS <= k.sk ensures !Unlogged(k) {
      IsLogged(k);
    }
  }

  lemma IsLogged(k: Key)
    requires C.CONSENTS <= k.sk
    ensures !Unlogged(k)
  {
  }

  /** A flip touches only the family of its target. */
  lemma SavingElsewhere(t: Table, pk: string, prefix: string, k: Key, row: Item, flip: bool, now: string)
    requires I.Family(prefix) && Unlogged(k)
    ensures C.StepsTo(t, C.Elsewhere, I.Saved(t, pk, prefix, k, row, flip, now))
  {
    var t1, t2 := t[k := row], I.Saved(t, pk, prefix, k, row, flip, now);
    hide BoolAttr, Flag;
    forall k2: Key | C.CONSENTS <= k2.sk ensures Row(t2, k2) == Row(t, k2) {
      LoggedIsNoFamily(k2, prefix);
      assert k2 !in Defaults(t1, pk, prefix);
    }
  }

  lemma LoggedIsNoFamily(k: Key, prefix: string)
    requires I.Family(prefix) && C.CONSENTS <= k.sk
    ensures !(prefix <= k.sk)
  {
    assert C.CONSENTS[0] != I.ADDRESSES[0] && C.CONSENTS[0] != I.PAYMENTS[0];
  }

  lemma SavedItemElsewhere(t: Table, call: I.Call)
    ensures C.StepsTo(t, C.Elsewhere, I.After(t, call))
  {
    hide I.Saved, I.AddressRow, I.PaymentRow, I.AddressPatch, AccountPK, Unlogged;
    match call
    case AddsAddress(id, a, now) =>
      ServiceKeysUnlogged(id, a.addressId);
      SavingElsewhere(t, AccountPK(id), I.ADDRESSES, I.AddressKey(id, a.addressId), I.AddressRow(a), a.isDefault, now);
    case UpdatesAddress(id, addressId, req, now) =>
      var k := I.AddressKey(id, addressId);
      ServiceKeysUnlogged(id, addressId);
      SavingElsewhere(t, AccountPK(id), I.ADDRESSES, k, RowOr(t, k) + I.AddressPatch(req),
                      req.isDefault == Some(true), now);
    case UpsertsPayment(id, m, isCreate, now) =>
      ServiceKeysUnlogged(id, m.paymentId);
      SavingElsewhere(t, AccountPK(id), I.PAYMENTS, I.PaymentKey(id, m.paymentId), I.PaymentRow(m), m.isDefault, now);
    case DeletesAddress(id, addressId) =>
      ServiceKeysUnlogged(id, addressId);
      WritingElsewhere(t, I.AddressKey(id, addressId), false, map[]);
    case DeletesPayment(id, paymentId) =>
      ServiceKeysUnlogged(id, paymentId);
      WritingElsewhere(t, I.PaymentKey(id, paymentId), false, map[]);
  }

  /** Every call but the opt-out leaves the consent log alone; the opt-out presents a token to it. */
  lemma OnlyOptOutsReachTheLog(t: Table, call: Call)
    ensures !call.OptOut? ==> C.StepsTo(t, C.Elsewhere, Applied(t, call))
    ensures call.OptOut? && C.Presentable(call.p) ==> C.StepsTo(t, C.Present(call.p), Applied(t, call))
  {
    hide C.StepsTo, C.Replayed, Unlogged, AccountPK, Transact, CreateItems, I.After, S.Effect, T.TagsAnswer, T.BaseRow;
    match call
    case CreateAccount(id, req, now) => CreatingElsewhere(t, id, req, now);
    case SavedItem(c) => SavedItemElsewhere(t, c);
    case OptOut(p) => OptOutPresents(t, p);
    case UpdateProfile(id, req, now) =>
      ServiceKeysUnlogged(id, "");
      WritingElsewhere(t, ProfileKey(id), ProfileKey(id) in t, RowOr(t, ProfileKey(id)) + AccountPatch(req, now));
    case UpdateCredentials(id, req, now) =>
      ServiceKeysUnlogged(id, "");
      WritingElsewhere(t, ProfileKey(id), ProfileKey(id) in t, RowOr(t, ProfileKey(id)) + CredentialsPatch(req, now));
    case UpdateSettings(id, w, expected) =>
      var k := SettingsKey(id);
      ServiceKeysUnlogged(id, "");
      WritingElsewhere(t, k, k in t && S.Takes(t[k], w, expected), S.Effect(RowOr(t, k), w));
    case UpdateTags(id, add, remove, supplied) =>
      var k := SettingsKey(id);
      var answer := T.TagsAnswer(T.BaseRow(t, k), add, remove, supplied);
      ServiceKeysUnlogged(id, "");
      WritingElsewhere(t, k, true, if answer.Ok? then answer.value else T.BaseRow(t, k));
    case UpdatePreferences(id, patch) =>
      var k := Key(AccountPK(id), PREFERENCES);
      ServiceKeysUnlogged(id, "");
      WritingElsewhere(t, k, patch != map[], RowOr(t, k) + patch);
    case CreatePasskey(id, cred) =>
      var k := P.PasskeyKey(id, cred.credentialId);
      ServiceKeysUnlogged(id, cred.credentialId);
      WritingElsewhere(t, k, cred.credentialId != "" && k !in t, P.PasskeyRow(cred));
    case UsePasskey(id, credentialId, use) =>
      var k := P.PasskeyKey(id, credentialId);
      ServiceKeysUnlogged(id, credentialId);
      WritingElsewhere(t, k, k in t, P.AfterUse(RowOr(t, k), use));
    case DeletePasskey(id, credentialId) =>
      ServiceKeysUnlogged(id, credentialId);
      WritingElsewhere(t, P.PasskeyKey(id, credentialId), false, map[]);
  }

  lemma OptOutPresents(t: Table, p: C.Presentation)
    ensures C.Presentable(p) ==> C.StepsTo(t, C.Present(p), Applied(t, OptOut(p)))
  {
    hide C.Replayed, C.ConsentRow, C.ConsentKey, C.Presentable;
  }

  // ---------- rows under an erased account ----------

  /** No row is left of the account. */
  ghost predicate Vacant(t: Table, id: string) {
    forall k | k in t :: k.pk != AccountPK(id)
  }

  function AccountOf(call: Call): string {
    match call
    case SavedItem(c) => c.id
    case OptOut(p) => p.id
    case _ => call.id
  }

  /** The calls that write a row of an account that has none. */
  predicate Revives(t: Table, call: Call) {
    match call
    case CreateAccount(_, req, _) => ReservationKey(req.email) !in t
    case UpdateTags(_, _, _, _) => true
    case UpdatePreferences(_, patch) => patch != map[]
    case SavedItem(c) => c.AddsAddress? || (c.UpsertsPayment? && c.isCreate)
    case CreatePasskey(_, cred) => cred.credentialId != ""
    case OptOut(_) => true
    case _ => false
  }

  lemma WritingRevives(t: Table, id: string, k: Key, accepted: bool, row: Item)
    requires Vacant(t, id)
    ensures Vacant(Written(t, k, accepted, row), id) <==> !(accepted && k.pk == AccountPK(id))
    ensures Vacant(t - {k}, id)
  {
    if accepted && k.pk == AccountPK(id) {
      assert k in Written(t, k, accepted, row);
    }
  }

  lemma CreatingRevives(t: Table, id: string, other: string, req: CreateRequest, now: string)
    requires Vacant(t, id)
    ensures Vacant(Transact(t, CreateItems(other, req, now)).1, id) <==>
              !(other == id && ReservationKey(req.email) !in t)
  {
    CreateTransaction(t, other, req, now);
    KeysApart();
    hide ProfileRow, SettingsRow, ReservationRow, AccountPK, EmailPK, CreateItems, Transact;
    var t' := Transact(t, CreateItems(other, req, now)).1;
    if other == id && ReservationKey(req.email) !in t {
      assert ProfileKey(id) !in t && SettingsKey(id) !in t;
      assert ProfileKey(id) in t';
    }
  }

  lemma SavingRevives(t: Table, id: string, pk: string, prefix: string, k: Key, row: Item, flip: bool, now: string)
    requires Vacant(t, id)
    ensures Vacant(I.Saved(t, pk, prefix, k, row, flip, now), id) <==> k.pk != AccountPK(id)
  {
    hide BoolAttr, Flag, Defaults, AccountPK;
    assert I.Saved(t, pk, prefix, k, row, flip, now).Keys == t.Keys + {k};
    if k.pk == AccountPK(id) {
      assert k in I.Saved(t, pk, prefix, k, row, flip, now);
    }
  }

  lemma SavedItemRevives(t: Table, id: string, c: I.Call)
    requires Vacant(t, id)
    ensures Vacant(I.After(t, c), id) <==> !(c.id == id && Revives(t, SavedItem(c)))
  {
    KeysApart();
    hide I.Saved, I.AddressRow, I.PaymentRow, I.AddressPatch, AccountPK, EmailPK, I.ADDRESSES, I.PAYMENTS;
    match c
    case AddsAddress(other, a, now) =>
      SavingRevives(t, id, AccountPK(other), I.ADDRESSES, I.AddressKey(other, a.addressId), I.AddressRow(a),
                    a.isDefault, now);
    case UpdatesAddress(other, addressId, req, now) =>
      var k := I.AddressKey(other, addressId);
      SavingRevives(t, id, AccountPK(other), I.ADDRESSES, k, RowOr(t, k) + I.AddressPatch(req),
                    req.isDefault == Some(true), now);
    case UpsertsPayment(other, m, isCreate, now) =>
      SavingRevives(t, id, AccountPK(other), I.PAYMENTS, I.PaymentKey(other, m.paymentId), I.PaymentRow(m),
                    m.isDefault, now);
    case DeletesAddress(other, addressId) => WritingRevives(t, id, I.AddressKey(other, addressId), false, map[]);
    case DeletesPayment(other, paymentId) => WritingRevives(t, id, I.PaymentKey(other, paymentId), false, map[]);
  }

  /** After an erasure exactly these calls put a row back under the erased account: a registration
      with a free email, a tag call, a write of some preference, a new address, payment method or
      passkey, and an opt-out. All others find nothing and write nothing. */
  lemma RevivedExactly(t: Table, id: string, call: Call)
    requires Vacant(t, id)
    ensures Vacant(Applied(t, call), id) <==> !(AccountOf(call) == id && Revives(t, call))
  {
    KeysApart();
    hide Vacant, C.Replayed, AccountPK, EmailPK, Transact, CreateItems, I.After, S.Effect, T.TagsAnswer, T.BaseRow,
         C.ConsentRow, C.ConsentSK, P.PasskeyRow, P.AfterUse, AccountPatch, CredentialsPatch;
    match call
    case CreateAccount(other, req, now) => CreatingRevives(t, id, other, req, now);
    case SavedItem(c) => SavedItemRevives(t, id, c);
    case OptOut(p) => OptOutRevives(t, id, p);
    case UpdateTags(other, add, remove, supplied) =>
      var k := SettingsKey(other);
      var answer := T.TagsAnswer(T.BaseRow(t, k), add, remove, supplied);
      WritingRevives(t, id, k, true, if answer.Ok? then answer.value else T.BaseRow(t, k));
    case UpdatePreferences(other, patch) =>
      var k := Key(AccountPK(other), PREFERENCES);
      WritingRevives(t, id, k, patch != map[], RowOr(t, k) + patch);
    case CreatePasskey(other, cred) => PasskeyRevives(t, id, other, cred);
    case DeletePasskey(other, credentialId) =>
      WritingRevives(t, id, P.PasskeyKey(other, credentialId), false, map[]);
    case UpdateProfile(other, req, now) =>
      var k := ProfileKey(other);
      UpdateFindsNothing(t, id, k, k in t, RowOr(t, k) + AccountPatch(req, now));
    case UpdateCredentials(other, req, now) =>
      var k := ProfileKey(other);
      UpdateFindsNothing(t, id, k, k in t, RowOr(t, k) + CredentialsPatch(req, now));
    case UpdateSettings(other, w, expected) =>
      var k := SettingsKey(other);
      UpdateFindsNothing(t, id, k, k in t && S.Takes(t[k], w, expected), S.Effect(RowOr(t, k), w));
    case UsePasskey(other, credentialId, use) =>
      var k := P.PasskeyKey(other, credentialId);
      UpdateFindsNothing(t, id, k, k in t, P.AfterUse(RowOr(t, k), use));
  }

  /** A write conditioned on an existing row. */
  lemma UpdateFindsNothing(t: Table, id: string, k: Key, accepted: bool, row: Item)
    requires Vacant(t, id) && (accepted ==> k in t)
    ensures Vacant(Written(t, k, accepted, row), id)
  {
  }

  lemma PasskeyRevives(t: Table, id: string, other: string, cred: P.Passkey)
    requires Vacant(t, id)
    ensures Vacant(Applied(t, CreatePasskey(other, cred)), id) <==> !(other == id && cred.credentialId != "")
  {
    KeysApart();
    hide AccountPK, EmailPK, P.PasskeyRow;
    var k := P.PasskeyKey(other, cred.credentialId);
    WritingRevives(t, id, k, cred.credentialId != "" && k !in t, P.PasskeyRow(cred));
  }

  lemma OptOutRevives(t: Table, id: string, p: C.Presentation)
    requires Vacant(t, id)
    ensures Vacant(Applied(t, OptOut(p)), id) <==> p.id != id
  {
    KeysApart();
    hide AccountPK, EmailPK, C.ConsentRow, C.ConsentSK, C.RefAt;
    var k := C.ConsentKey(p.id, p.entry.channel, p.at);
    WritingRevives(t, id, k, !C.Replayed(t, p) && k !in t, C.ConsentRow(p.entry, p.at));
  }

  /** A completed erasure leaves the account vacant. */
  lemma ErasedIsVacant(t: Table, id: string)
    ensures Vacant(Erased(t, id), id)
  {
  }
}
